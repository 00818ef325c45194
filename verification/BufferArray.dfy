/**
 * The reorder buffer's array, in order of arrival, against the heap: flushed
 * entries stay behind as tombstones (size 0) until they lead the array.
 */
module BufferArray {
  import opened Bytes
  import opened Timeval
  import opened ReorderSpec

  /** `packet` is the malloc'ed block; blocks are named by the count of allocations. */
  datatype Entry = Entry(sequence: uint32, timestamp: Timeval, packet: nat, size: uint16)

  type Memory = map<nat, Bytes>

  function PacketOf(e: Entry, memory: Memory): Packet
    requires e.packet in memory
  {
    Packet(e.packet, e.sequence, Micros(e.timestamp), memory[e.packet])
  }

  /** The live entries as a set: neither array order nor tombstones show. */
  ghost function WaitingIn(entries: seq<Entry>, memory: Memory): set<Packet> {
    set i | 0 <= i < |entries| && entries[i].size > 0 && entries[i].packet in memory :: PacketOf(entries[i], memory)
  }

  /**
   * The array against the heap: entries hold the last allocations in order, and
   * exactly the blocks of live entries are allocated, with the recorded size.
   */
  ghost predicate Layout(entries: seq<Entry>, memory: Memory, mallocs: nat) {
    && |entries| <= mallocs
    && (forall i :: 0 <= i < |entries| ==>
          && entries[i].packet == mallocs - |entries| + i
          && (entries[i].size > 0 <==> entries[i].packet in memory)
          && entries[i].sequence < UINT32_MAX
          && Normal(entries[i].timestamp))
    && (forall i :: 0 <= i < |entries| && entries[i].size > 0 ==> |memory[entries[i].packet]| == entries[i].size)
    && (forall h :: h in memory ==> mallocs - |entries| <= h < mallocs)
    && (forall i, j :: 0 <= i < j < |entries| ==> Micros(entries[i].timestamp) <= Micros(entries[j].timestamp))
  }

  /** `after` is `before` with some entries turned into tombstones. */
  ghost predicate Tombstoned(before: seq<Entry>, after: seq<Entry>) {
    && |after| == |before|
    && forall i :: 0 <= i < |before| ==> after[i] == before[i] || after[i] == before[i].(size := 0)
  }

  /** Every tombstone's number is at or below `pos`, so none carries the next number. */
  ghost predicate Below(entries: seq<Entry>, pos: int) {
    forall i :: 0 <= i < |entries| && entries[i].size == 0 ==> entries[i].sequence <= pos
  }

  /** Exactly the entries above the counter are live. */
  ghost predicate Settled(entries: seq<Entry>, sequenceFlushed: uint32) {
    forall i :: 0 <= i < |entries| ==> (entries[i].size == 0 <==> entries[i].sequence <= sequenceFlushed)
  }

  /** `after` is the end of `before`, with some entries turned into tombstones. */
  ghost predicate CutFrom(before: seq<Entry>, after: seq<Entry>) {
    |after| <= |before| && Tombstoned(before[|before| - |after|..], after)
  }

  lemma SuffixSettles(before: seq<Entry>, after: seq<Entry>, sequenceFlushed: uint32, n: nat)
    requires Tombstoned(before, after) && Settled(after, sequenceFlushed) && n <= |after|
    ensures CutFrom(before, after[n..]) && Settled(after[n..], sequenceFlushed)
  {
    assert |before| - |after[n..]| == n;
  }

  function Payloads(s: seq<Packet>): seq<Bytes> {
    seq(|s|, i requires 0 <= i < |s| => s[i].payload)
  }

  /** The position that the 32-bit counter stores. */
  function Position(sequenceFlushed: uint32): int {
    if sequenceFlushed == UINT32_MAX then -1 else sequenceFlushed
  }

  /** sequence_flushed + 1 in 32 bits. */
  function Next(n: uint32): uint32 {
    if n == UINT32_MAX then 0 else n + 1
  }

  /** The number of leading tombstones. */
  function Leading(entries: seq<Entry>): (n: nat)
    ensures n <= |entries|
    ensures forall k :: 0 <= k < n ==> entries[k].size == 0
    ensures n < |entries| ==> entries[n].size > 0
  {
    if entries != [] && entries[0].size == 0 then 1 + Leading(entries[1..]) else 0
  }

  lemma TombstonedTwice(a: seq<Entry>, b: seq<Entry>, c: seq<Entry>)
    requires Tombstoned(a, b) && Tombstoned(b, c)
    ensures Tombstoned(a, c)
  {
  }

  lemma BelowNext(entries: seq<Entry>, i: nat, pos: int)
    requires Below(entries, pos) && i < |entries| && entries[i].sequence == pos + 1
    ensures Below(entries[i := entries[i].(size := 0)], pos + 1)
  {
  }

  lemma BelowMore(entries: seq<Entry>, pos: int)
    requires Below(entries, pos)
    ensures Below(entries, pos + 1)
  {
  }

  /** `memory` is what is left of `memory0`. */
  ghost predicate Remains(memory: Memory, memory0: Memory) {
    forall h :: h in memory ==> h in memory0 && memory[h] == memory0[h]
  }

  lemma FreeRemains(memory: Memory, memory0: Memory, h: nat)
    requires Remains(memory, memory0)
    ensures Remains(memory - {h}, memory0)
  {
  }

  lemma CutTombstoned(a: seq<Entry>, b: seq<Entry>, c: seq<Entry>)
    requires Tombstoned(a, b) && CutFrom(b, c)
    ensures CutFrom(a, c) && |a| == |b|
  {
    var n := |a| - |c|;
    assert forall i :: 0 <= i < |c| ==> a[n..][i] == a[n + i] && b[n..][i] == b[n + i];
  }

  lemma TombstoneOne(entries: seq<Entry>, memory: Memory, mallocs: nat, i: nat)
    requires Layout(entries, memory, mallocs) && i < |entries| && entries[i].size > 0
    ensures var e := entries[i];
      var entries', memory' := entries[i := e.(size := 0)], memory - {e.packet};
      && Layout(entries', memory', mallocs)
      && Tombstoned(entries, entries')
      && PacketOf(e, memory) in WaitingIn(entries, memory)
      && WaitingIn(entries', memory') == WaitingIn(entries, memory) - {PacketOf(e, memory)}
  {
    var e := entries[i];
    var entries', memory' := entries[i := e.(size := 0)], memory - {e.packet};
    forall p | p in WaitingIn(entries, memory) - {PacketOf(e, memory)}
      ensures p in WaitingIn(entries', memory')
    {
      var j :| 0 <= j < |entries| && entries[j].size > 0 && PacketOf(entries[j], memory) == p;
      assert entries'[j] == entries[j] && entries'[j].packet in memory';
    }
    forall p | p in WaitingIn(entries', memory')
      ensures p in WaitingIn(entries, memory) && p != PacketOf(e, memory)
    {
      var j :| 0 <= j < |entries'| && entries'[j].size > 0 && entries'[j].packet in memory'
            && PacketOf(entries'[j], memory') == p;
      assert j != i && entries'[j] == entries[j];
    }
  }

  /** An entry of the array is waiting exactly when it is live. */
  lemma LiveIsWaiting(entries: seq<Entry>, memory: Memory, mallocs: nat, i: nat)
    requires Layout(entries, memory, mallocs) && i < |entries| && entries[i].size > 0
    ensures PacketOf(entries[i], memory) in WaitingIn(entries, memory)
  {
  }

  /** Cutting leading tombstones off loses no waiting packet. */
  lemma CutKeepsWaiting(entries: seq<Entry>, memory: Memory, mallocs: nat, n: nat)
    requires Layout(entries, memory, mallocs) && n <= Leading(entries)
    ensures Layout(entries[n..], memory, mallocs)
    ensures WaitingIn(entries[n..], memory) == WaitingIn(entries, memory)
  {
    CutKeepsLayout(entries, memory, mallocs, n);
    var rest := entries[n..];
    hide Layout;
    forall p | p in WaitingIn(entries, memory)
      ensures p in WaitingIn(rest, memory)
    {
      var j :| 0 <= j < |entries| && entries[j].size > 0 && entries[j].packet in memory
            && PacketOf(entries[j], memory) == p;
      assert rest[j - n] == entries[j];
    }
    forall p | p in WaitingIn(rest, memory)
      ensures p in WaitingIn(entries, memory)
    {
      var j :| 0 <= j < |rest| && rest[j].size > 0 && rest[j].packet in memory && PacketOf(rest[j], memory) == p;
      assert entries[j + n] == rest[j];
    }
  }

  lemma CutKeepsLayout(entries: seq<Entry>, memory: Memory, mallocs: nat, n: nat)
    requires Layout(entries, memory, mallocs) && n <= Leading(entries)
    ensures Layout(entries[n..], memory, mallocs)
  {
    hide Leading;
    assert forall i :: 0 <= i < |entries| - n ==> entries[n..][i] == entries[n + i];
    forall h | h in memory
      ensures mallocs - |entries| + n <= h < mallocs
    {
      var j := h - (mallocs - |entries|);
      assert entries[j].packet == h;
    }
  }

  /** The cut exposes a live head, or empties the array, exactly when the 16-bit count did not wrap. */
  lemma CutExposesHead(entries: seq<Entry>)
    ensures var rest := entries[Leading(entries) % 0x1_0000..];
      (rest == [] || rest[0].size > 0) <==> Leading(entries) < 0x1_0000
  {
    var n := Leading(entries);
    assert entries[n % 0x1_0000..] != [] ==> entries[n % 0x1_0000..][0] == entries[n % 0x1_0000];
  }

  lemma AppendWaits(entries: seq<Entry>, memory: Memory, mallocs: nat, e: Entry, payload: Bytes)
    requires Layout(entries, memory, mallocs)
    requires e.packet == mallocs && e.sequence < UINT32_MAX && e.size == |payload| > 0 && Normal(e.timestamp)
    requires forall i :: 0 <= i < |entries| ==> Micros(entries[i].timestamp) <= Micros(e.timestamp)
    ensures Layout(entries + [e], memory[mallocs := payload], mallocs + 1)
    ensures WaitingIn(entries + [e], memory[mallocs := payload])
         == WaitingIn(entries, memory) + {Packet(mallocs, e.sequence, Micros(e.timestamp), payload)}
  {
    var entries', memory' := entries + [e], memory[mallocs := payload];
    assert entries'[|entries|] == e;
    forall p | p in WaitingIn(entries, memory)
      ensures p in WaitingIn(entries', memory')
    {
      var j :| 0 <= j < |entries| && entries[j].size > 0 && PacketOf(entries[j], memory) == p;
      assert entries'[j] == entries[j] && memory'[entries[j].packet] == memory[entries[j].packet];
    }
    forall p | p in WaitingIn(entries', memory') && p.id != mallocs
      ensures p in WaitingIn(entries, memory)
    {
      var j :| 0 <= j < |entries'| && entries'[j].size > 0 && PacketOf(entries'[j], memory') == p;
      assert j < |entries| && entries'[j] == entries[j];
    }
  }

  /** Before number 0 the counter stands at its maximum, so no entry is above it and the array empties. */
  lemma SettledIsBelow(entries: seq<Entry>, sequenceFlushed: uint32)
    requires Settled(entries, sequenceFlushed)
    requires Position(sequenceFlushed) == -1 ==> entries == [] || entries[0].size > 0
    ensures Position(sequenceFlushed) == -1 ==> entries == []
    ensures Below(entries, Position(sequenceFlushed))
  {
  }

  /** Each entry carries the arrival time recorded for its allocation. */
  ghost predicate Stamped(entries: seq<Entry>, stamps: seq<int>, clock: int) {
    forall i :: 0 <= i < |entries| ==>
      entries[i].packet < |stamps| && stamps[entries[i].packet] == Micros(entries[i].timestamp) <= clock
  }

  /** Every packet of `w` belongs to an earlier allocation than the `id`-th. */
  ghost predicate IdsBelow(w: set<Packet>, id: nat) {
    forall p :: p in w ==> p.id < id
  }

  lemma IdsBelowNext(w: set<Packet>, p: Packet)
    requires IdsBelow(w, p.id)
    ensures IdsBelow(w + {p}, p.id + 1)
  {
  }

  lemma AppendFits(entries: seq<Entry>, e: Entry, pos: int, stamps: seq<int>, clock: int)
    requires Below(entries, pos) && Stamped(entries, stamps, clock)
    requires e.size > 0 && e.packet == |stamps| && Micros(e.timestamp) <= clock
    ensures Below(entries + [e], pos) && Stamped(entries + [e], stamps + [Micros(e.timestamp)], clock)
  {
  }

  /** Any `n` + 1 consecutive arrivals span at least the timeout. */
  ghost predicate AtMostPerWindow(stamps: seq<int>, n: nat, timeout: int) {
    forall i: nat :: i + n < |stamps| ==> Spans(stamps, i, n, timeout)
  }

  ghost predicate Spans(stamps: seq<int>, i: nat, n: nat, timeout: int)
    requires i + n < |stamps|
  {
    stamps[i + n] - stamps[i] >= timeout
  }

  lemma FewPerWindow(stamps: seq<int>, n: nat, timeout: int, first: nat)
    requires first < |stamps| && AtMostPerWindow(stamps, n, timeout)
    requires forall i :: first <= i < |stamps| ==> stamps[i] - stamps[first] < timeout
    ensures |stamps| - first <= n
  {
    assert first + n < |stamps| ==> Spans(stamps, first, n, timeout);
  }

  lemma SuffixStamped(before: seq<Entry>, after: seq<Entry>, stamps: seq<int>, clock: int)
    requires CutFrom(before, after)
    requires Stamped(before, stamps, clock)
    ensures Stamped(after, stamps, clock)
  {
    forall i | 0 <= i < |after|
      ensures after[i].packet < |stamps| && stamps[after[i].packet] == Micros(after[i].timestamp) <= clock
    {
      var b := before[|before| - |after| + i];
      assert before[|before| - |after|..][i] == b;
    }
  }
}
