/**
 * The receive loop of the reorder buffer as it runs: receive, append, flush, give
 * up, drop what is late, compact.
 */
module ReorderBuffer {
  import opened Bytes
  import opened Wrappers
  import opened Timeval
  import opened ReorderSpec
  import opened ReorderRuns
  import opened BufferArray
  import opened FlushLoop
  import Gre

  /** What recvfrom() gave: an error, no packet in time, or a datagram with its source address. */
  datatype Received = Failed | Nothing | Datagram(source: Bytes, frame: Bytes)

  /**
   * What the capture filter and the kernel guarantee of a datagram, and that a
   * sequenced packet has a payload.
   */
  predicate WellFramed(r: Received) {
    r.Datagram? ==>
      8 <= |r.frame| <= Gre.MAX_PKT_SIZE && (Gre.FlagsOf(r.frame) == Gre.FLAGS_WITH_SEQ ==> |r.frame| > 12)
  }

  datatype Input = Ignored | Idle | Direct(payload: Bytes) | Sequenced(number: uint32, payload: Bytes)

  /** Which of its branches an iteration takes; only `Ignored` skips the flush. */
  function Classify(r: Received, haap: Bytes, timeout: Timeval): Input
    requires WellFramed(r)
  {
    match r
    case Failed => Ignored
    case Nothing => Idle
    case Datagram(source, frame) =>
      if source != haap then Ignored
      else if Gre.FlagsOf(frame) == Gre.FLAGS_WITH_SEQ then
        if timeout == Timeval(0, 0) then Direct(frame[12..]) else Sequenced(Gre.NumberOf(frame), frame[12..])
      else if Gre.FlagsOf(frame) == Gre.FLAGS then Direct(frame[8..])
      else Ignored
  }

  /** A datagram of the HAAP that starts with octets 20 00: a key, but no number. */
  predicate Unnumbered(r: Received, haap: Bytes) {
    r.Datagram? && r.source == haap && |r.frame| >= 8 && r.frame[0] == 0x20 && r.frame[1] == 0
  }

  /** A datagram of the HAAP that starts with octets 30 00: a key and a number. */
  predicate Numbered(r: Received, haap: Bytes) {
    r.Datagram? && r.source == haap && |r.frame| >= 12 && r.frame[0] == 0x30 && r.frame[1] == 0
  }

  /**
   * What becomes of a datagram of the HAAP, or of none, read off its octets. Octets 20 00,
   * and 30 00 when reordering is off, make its payload go to the tun device before the
   * output `out` of the flush; with 30 00 otherwise the packet is buffered as arrival `id`.
   */
  ghost predicate TakenIn(r: Received, haap: Bytes, timeout: Timeval, id: nat, stamp: Timeval,
                          arrival: Option<Packet>, out: seq<Bytes>, before: seq<Bytes>, after: seq<Bytes>) {
    && (Unnumbered(r, haap) ==> arrival == None && after == before + [r.frame[8..]] + out)
    && (Numbered(r, haap) && timeout == Timeval(0, 0) ==> arrival == None && after == before + [r.frame[12..]] + out)
    && (Numbered(r, haap) && timeout != Timeval(0, 0) ==>
          && arrival == Some(Packet(id, FromBe32(r.frame[8..12]), Micros(stamp), r.frame[12..]))
          && after == before + out)
    && (r.Nothing? ==> arrival == None && after == before + out)
  }

  /** The branches of an iteration do what the octets say. */
  lemma OctetsDecide(r: Received, haap: Bytes, timeout: Timeval, id: nat, stamp: Timeval, tun: seq<Bytes>,
                     out: seq<Bytes>)
    requires WellFramed(r)
    ensures var input := Classify(r, haap, timeout);
      && (input.Ignored? <==> !r.Nothing? && !Unnumbered(r, haap) && !Numbered(r, haap))
      && (input.Ignored? ==> tun + DirectWrite(input) == tun)
      && TakenIn(r, haap, timeout, id, stamp, BufferedPacket(input, id, stamp), out, tun,
                 tun + DirectWrite(input) + out)
  {
    if r.Datagram? {
      Gre.FlagOctets(r.frame);
      hide Gre.FlagsOf;
    }
    assert tun + [] + out == tun + out;
  }

  lemma PayloadFits(r: Received, haap: Bytes, timeout: Timeval)
    requires WellFramed(r)
    ensures var input := Classify(r, haap, timeout);
      input.Sequenced? ==> 0 < |input.payload| <= UINT16_MAX
  {
  }

  /** The packet an iteration buffers, as the `id`-th allocation at time `stamp`. */
  function BufferedPacket(input: Input, id: nat, stamp: Timeval): Option<Packet> {
    match input
    case Sequenced(number, payload) => Some(Packet(id, number, Micros(stamp), payload))
    case _ => None
  }

  function DirectWrite(input: Input): seq<Bytes> {
    if input.Direct? then [input.payload] else []
  }

  /** The entry that lines 93-99 fill in; the size field is 16 bits wide. */
  function EntryOf(number: uint32, payload: Bytes, packet: nat, stamp: Timeval): Entry {
    Entry(number, stamp, packet, |payload| % 0x1_0000)
  }

  /** The array an iteration flushes. */
  function Appended(packets: seq<Entry>, input: Input, mallocs: nat, stamp: Timeval): seq<Entry> {
    match input
    case Sequenced(number, payload) => packets + [EntryOf(number, payload, mallocs, stamp)]
    case _ => packets
  }

  class Receiver {
    var packets: seq<Entry>
    var sequenceFlushed: uint32
    var memory: Memory      // the blocks malloc handed out and free has not taken back
    var mallocs: nat        // how many blocks were ever handed out
    var tun: seq<Bytes>     // what was written to the tun device
    const timeout: Timeval

    ghost var state: State       // the histories of the run so far
    ghost var stamps: seq<int>   // the arrival time of every allocation

    ghost function Waiting(): set<Packet>
      reads this
    {
      WaitingIn(packets, memory)
    }

    function Pos(): int
      reads this
    {
      Position(sequenceFlushed)
    }

    constructor (ms: nat)
      ensures timeout == FromMillis(ms)
      ensures Valid() && HeadLive() && state == START && stamps == [] && tun == []
    {
      packets := [];
      sequenceFlushed := UINT32_MAX;
      memory := map[];
      mallocs := 0;
      tun := [];
      timeout := FromMillis(ms);
      state := START;
      stamps := [];
      assert Numbers(Elems([])) == {};
    }

    /** What holds whenever the loop is about to receive. */
    ghost predicate Valid()
      reads this
    {
      && Layout(packets, memory, mallocs) && Normal(timeout)
      && Inv(state) && state.pos == Pos() && state.waiting == Waiting()
      && IdsBelow(state.arrived, mallocs)
      && Below(packets, Pos())
      && (Pos() == -1 ==> packets == [])
      && |stamps| == mallocs
      && Stamped(packets, stamps, state.clock)
      && Young(Waiting(), state.clock, Micros(timeout))
    }

    /** Ownership: exactly the packets that are neither written nor discarded still hold their block. */
    lemma AllocatedIsWaiting()
      requires Valid()
      ensures memory.Keys == set p | p in state.waiting :: p.id
    {
      forall h | h in memory
        ensures exists p :: p in state.waiting && p.id == h
      {
        var i := h - (mallocs - |packets|);
        assert packets[i].packet == h;
        LiveIsWaiting(packets, memory, mallocs, i);
      }
    }

    /** Retention: while the head is live, every stored entry, tombstones included, is younger than the timeout. */
    lemma Retention()
      requires Valid() && HeadLive()
      ensures forall i :: 0 <= i < |packets| ==> state.clock - Micros(packets[i].timestamp) < Micros(timeout)
    {
      if packets != [] {
        LiveIsWaiting(packets, memory, mallocs, 0);
      }
    }

    /** With at most `n` buffered arrivals in any timeout window, the array holds at most `n` entries. */
    lemma WindowBound(n: nat)
      requires Valid() && HeadLive() && AtMostPerWindow(stamps, n, Micros(timeout))
      ensures |packets| <= n
    {
      Retention();
      if packets != [] {
        var first := packets[0].packet;
        forall i | first <= i < |stamps|
          ensures stamps[i] - stamps[first] < Micros(timeout)
        {
          assert packets[i - first].packet == i;
        }
        FewPerWindow(stamps, n, Micros(timeout), first);
      }
    }

    /** The array is at most `n` long and has nothing to cut off. */
    ghost predicate Bounded(n: nat)
      reads this
    {
      HeadLive() && |packets| <= n
    }

    /** The array has nothing to cut off: it is empty or its head is live. */
    ghost predicate HeadLive()
      reads this
    {
      packets == [] || packets[0].size > 0
    }

    /** write(), and the packet's block is given back: it must be allocated, and only once. */
    method WriteAndFree(i: nat)
      requires Layout(packets, memory, mallocs) && i < |packets| && packets[i].size > 0
      modifies this`packets, this`memory, this`tun
      ensures Layout(packets, memory, mallocs) && Tombstoned(old(packets), packets)
      ensures packets == old(packets)[i := old(packets)[i].(size := 0)]
      ensures memory == old(memory) - {old(packets[i].packet)}
      ensures tun == old(tun) + [old(memory[packets[i].packet])]
      ensures Waiting() == old(Waiting()) - {PacketOf(old(packets[i]), old(memory))}
    {
      TombstoneOne(packets, memory, mallocs, i);
      tun := tun + [memory[packets[i].packet]];
      memory := memory - {packets[i].packet};
      packets := packets[i := packets[i].(size := 0)];
    }

    // ------------------------------------------------------------ the flush loop

    /**
     * In the middle of a flush of `entries0`, with the loop at `l` and the tun device
     * at `base` before it. A tombstone never carries the next number.
     */
    ghost predicate Running(entries0: seq<Entry>, memory0: Memory, base: seq<Bytes>, l: Loop)
      reads this
    {
      && Layout(packets, memory, mallocs) && Normal(timeout)
      && packets == l.entries && Pos() == l.pos
      && Below(packets, Pos()) && Tombstoned(entries0, packets)
      && Remains(memory, memory0)
      && AllIn(entries0, memory0, l.order)
      && tun == base + Payloads(PacketsAt(entries0, memory0, l.order))
    }

    /** Lines 112-119: entry `i` carries the next number, so it is live, and it is written. */
    method FlushEntry(i: nat, ghost entries0: seq<Entry>, ghost memory0: Memory, ghost base: seq<Bytes>, ghost l: Loop)
      requires Running(entries0, memory0, base, l)
      requires i < |packets| && packets[i].sequence == Next(sequenceFlushed)
      modifies this`packets, this`memory, this`tun, this`sequenceFlushed
      ensures l.entries[i].sequence == l.pos + 1 && l.entries[i].size > 0
      ensures Running(entries0, memory0, base, Write(l, i))
    {
      NextIsWaiting(i, entries0, memory0, base, l);
      hide Layout, Below, WaitingIn, Tombstoned, Remains, AllIn, PacketsAt;
      ghost var before := packets;
      WrittenNext(entries0, memory0, packets, memory, l.order, i);
      BelowNext(before, i, Pos());
      FreeRemains(memory, memory0, packets[i].packet);
      hide Running;
      WriteAndFree(i);
      TombstonedTwice(entries0, before, packets);
      sequenceFlushed := Next(sequenceFlushed);
      StillRunning(entries0, memory0, base, Write(l, i));
    }

    lemma StillRunning(entries0: seq<Entry>, memory0: Memory, base: seq<Bytes>, l: Loop)
      requires Layout(packets, memory, mallocs) && Normal(timeout)
      requires packets == l.entries && Pos() == l.pos
      requires Below(packets, Pos()) && Tombstoned(entries0, packets) && Remains(memory, memory0)
      requires AllIn(entries0, memory0, l.order) && tun == base + Payloads(PacketsAt(entries0, memory0, l.order))
      ensures Running(entries0, memory0, base, l)
    {
    }

    /** An entry that carries the next number is live: no tombstone does. */
    lemma NextIsWaiting(i: nat, entries0: seq<Entry>, memory0: Memory, base: seq<Bytes>, l: Loop)
      requires Running(entries0, memory0, base, l)
      requires i < |packets| && packets[i].sequence == Next(sequenceFlushed)
      ensures packets[i].size > 0 && packets[i].packet in memory
      ensures packets[i].sequence == Pos() + 1 < UINT32_MAX
      ensures PacketOf(packets[i], memory) in Waiting()
    {
      LiveIsWaiting(packets, memory, mallocs, i);
    }

    /** What the test of line 111 compares is the number after the position. */
    lemma TestIsNext(i: nat, entries0: seq<Entry>, memory0: Memory, base: seq<Bytes>, l: Loop)
      requires Running(entries0, memory0, base, l) && i < |packets|
      ensures i < |l.entries| == |packets|
      ensures packets[i].sequence == Next(sequenceFlushed) <==> l.entries[i].sequence == l.pos + 1
    {
    }

    /** The scan of lines 110-121: write what carries the next number, in array order. */
    method FlushPass(ghost entries0: seq<Entry>, ghost memory0: Memory, ghost base: seq<Bytes>, ghost l0: Loop)
        returns (flushedSomething: bool)
      requires Running(entries0, memory0, base, l0)
      modifies this`packets, this`memory, this`tun, this`sequenceFlushed
      ensures Running(entries0, memory0, base, Scan(l0, 0))
      ensures flushedSomething <==> Scan(l0, 0).pos > l0.pos
    {
      hide Running;
      ghost var l := l0;
      RunningEntries(entries0, memory0, base, l);
      flushedSomething := false;
      var i := 0;
      while i < |packets|
        invariant 0 <= i <= |packets| == |l.entries|
        invariant Running(entries0, memory0, base, l)
        invariant Scan(l, i) == Scan(l0, 0) && l.pos >= l0.pos
        invariant flushedSomething <==> l.pos > l0.pos
        decreases |packets| - i
      {
        TestIsNext(i, entries0, memory0, base, l);
        if packets[i].sequence == Next(sequenceFlushed) {
          FlushEntry(i, entries0, memory0, base, l);
          l := Write(l, i);
          assert packets == l.entries by { RunningEntries(entries0, memory0, base, l); }
          flushedSomething := true;
        }
        i := i + 1;
      }
    }

    lemma RunningEntries(entries0: seq<Entry>, memory0: Memory, base: seq<Bytes>, l: Loop)
      requires Running(entries0, memory0, base, l)
      ensures packets == l.entries && Pos() == l.pos
    {
    }

    /** Lines 107-122: scan until a scan flushes nothing. */
    method FlushInOrder(ghost entries0: seq<Entry>, ghost memory0: Memory, ghost base: seq<Bytes>, ghost l0: Loop)
      requires Running(entries0, memory0, base, l0)
      modifies this`packets, this`memory, this`tun, this`sequenceFlushed
      ensures Running(entries0, memory0, base, FlushAll(l0))
    {
      hide Running, Scan;
      ghost var l := l0;
      var flushedSomething := true;
      while flushedSomething
        invariant Running(entries0, memory0, base, l)
        invariant FlushAll(l) == FlushAll(l0)
        invariant !flushedSomething ==> l == FlushAll(l0)
        decreases UINT32_MAX - l.pos, flushedSomething
      {
        flushedSomething := FlushPass(entries0, memory0, base, l);
        l := Scan(l, 0);
      }
    }

    /** Lines 125-134: the first timed-out live entry makes the loop give up the next number. */
    method CheckTimeouts(now: Timeval) returns (restart: bool)
      requires Normal(now) && Normal(timeout) && Layout(packets, memory, mallocs)
      modifies this`sequenceFlushed
      ensures restart <==> AnyTimedOut(packets, Micros(now), Micros(timeout))
      ensures sequenceFlushed == if restart then Next(old(sequenceFlushed)) else old(sequenceFlushed)
    {
      assert forall i :: 0 <= i < |packets| ==> Normal(packets[i].timestamp);
      hide Layout;
      restart := false;
      var i := 0;
      while i < |packets|
        invariant 0 <= i <= |packets| && sequenceFlushed == old(sequenceFlushed)
        invariant forall k :: 0 <= k < i ==> !TimedOut(packets[k], Micros(now), Micros(timeout))
        decreases |packets| - i
      {
        if packets[i].size > 0 {
          var age := Sub(now, packets[i].timestamp);
          AgeTest(now, packets[i].timestamp, timeout);
          if AtLeast(age, timeout) {
            assert TimedOut(packets[i], Micros(now), Micros(timeout));
            sequenceFlushed := Next(sequenceFlushed);
            return true;
          }
        }
        i := i + 1;
      }
    }

    /** From restartflushing to the jump back to it; giving up UINT32_MAX - 1 sets the counter to its initial value. */
    method FlushRound(now: Timeval, ghost entries0: seq<Entry>, ghost memory0: Memory, ghost base: seq<Bytes>,
                      ghost l0: Loop)
        returns (restart: bool)
      requires Normal(now) && Running(entries0, memory0, base, l0)
      modifies this`packets, this`memory, this`tun, this`sequenceFlushed
      ensures var l := FlushAll(l0);
        && restart == AnyTimedOut(l.entries, Micros(now), Micros(timeout))
        && (!restart ==> Running(entries0, memory0, base, l))
        && (restart && l.pos + 1 < UINT32_MAX ==> Running(entries0, memory0, base, l.(pos := l.pos + 1)))
        && (restart && l.pos + 1 == UINT32_MAX ==> sequenceFlushed == UINT32_MAX)
        && l.pos < UINT32_MAX
    {
      hide FlushAll, AnyTimedOut, Layout, Below, Tombstoned, Remains, AllIn, PacketsAt;
      FlushInOrder(entries0, memory0, base, l0);
      ghost var pos := Pos();
      BelowMore(packets, pos);
      restart := CheckTimeouts(now);
    }

    lemma StartsRunning(base: seq<Bytes>)
      requires Layout(packets, memory, mallocs) && Normal(timeout) && Below(packets, Pos()) && tun == base
      ensures Running(packets, memory, base, Loop(packets, Pos(), []))
      ensures forall i :: 0 <= i < |packets| ==> packets[i].sequence < UINT32_MAX
    {
      assert tun == base + Payloads(PacketsAt(packets, memory, []));
    }

    /** What the loop leaves when it has finished. */
    lemma Flushed(now: int, entries0: seq<Entry>, memory0: Memory, pos0: int, base: seq<Bytes>, l: Loop)
      requires Layout(entries0, memory0, mallocs)
      requires Running(entries0, memory0, base, l) && Finished(entries0, pos0, now, Micros(timeout), l)
      ensures l == Loop(packets, Pos(), Order(entries0, pos0, Pos())) && Pos() >= pos0
      ensures Layout(packets, memory, mallocs) && Tombstoned(entries0, packets) && Below(packets, Pos())
      ensures AllIn(entries0, memory0, l.order)
      ensures var out := PacketsAt(entries0, memory0, l.order);
        && tun == base + Payloads(out)
        && IsFlush(WaitingIn(entries0, memory0), pos0, now, Micros(timeout),
                   Flush(out, Pos(), Ahead(Waiting(), Pos()), Waiting() - Ahead(Waiting(), Pos())))
    {
      hide Layout, Below, Tombstoned, WaitingIn, AllIn, Remains, PacketsAt, IsFlush, Order, Ahead, Finished;
      FinishedOrder(entries0, pos0, now, Micros(timeout), l);
      ExitIsFlush(entries0, memory0, mallocs, pos0, now, Micros(timeout), l);
      WhatIsLeft(entries0, memory0, mallocs, pos0, now, Micros(timeout), l, memory);
    }

    /**
     * Lines 105-134, with the jump back to restartflushing as an outer loop: on a sound
     * array it ends, and what it has written and where it stands is the outcome.
     */
    method FlushAndGiveUp(now: Timeval) returns (ghost out: seq<Packet>)
      requires Normal(now) && Normal(timeout) && Layout(packets, memory, mallocs) && Below(packets, Pos())
      requires ArraySound(packets, Pos(), Micros(now), Micros(timeout))
      modifies this`packets, this`memory, this`tun, this`sequenceFlushed
      ensures Layout(packets, memory, mallocs) && Tombstoned(old(packets), packets) && Below(packets, Pos())
      ensures Pos() >= old(Pos())
      ensures Outcome(Loop(old(packets), old(Pos()), []), Micros(now), Micros(timeout))
           == Some(Loop(packets, Pos(), Order(old(packets), old(Pos()), Pos())))
      ensures AllIn(old(packets), old(memory), Order(old(packets), old(Pos()), Pos()))
      ensures out == PacketsAt(old(packets), old(memory), Order(old(packets), old(Pos()), Pos()))
      ensures tun == old(tun) + Payloads(out)
      ensures IsFlush(old(Waiting()), old(Pos()), Micros(now), Micros(timeout),
                      Flush(out, Pos(), Ahead(Waiting(), Pos()), Waiting() - Ahead(Waiting(), Pos())))
    {
      hide Running, FlushAll, Layout, Below, Tombstoned, WaitingIn, ArraySound, Finished, AnyTimedOut, IsFlush, Order,
        AllIn, PacketsAt, Ahead;
      ghost var entries0, memory0, pos0, base := packets, memory, Pos(), tun;
      ghost var l := Loop(packets, Pos(), []);
      StartsRunning(base);
      LoopEndsIffSound(entries0, pos0, Micros(now), Micros(timeout));
      var restart := true;
      while restart
        invariant if restart then
            Outcome(l, Micros(now), Micros(timeout))
              == Outcome(Loop(entries0, pos0, []), Micros(now), Micros(timeout))
          else Outcome(Loop(entries0, pos0, []), Micros(now), Micros(timeout)) == Some(l)
        invariant Running(entries0, memory0, base, l)
        decreases UINT32_MAX - l.pos, restart
      {
        restart := FlushRound(now, entries0, memory0, base, l);
        l := FlushAll(l);
        if restart {
          l := l.(pos := l.pos + 1);
        }
      }
      Flushed(Micros(now), entries0, memory0, pos0, base, l);
      out := PacketsAt(entries0, memory0, l.order);
    }

    // ------------------------------------------------------------ late packets and compaction

    /** free() of a late packet. */
    method Discard(i: nat)
      requires Layout(packets, memory, mallocs) && i < |packets| && packets[i].size > 0
      modifies this`packets, this`memory
      ensures Layout(packets, memory, mallocs) && Tombstoned(old(packets), packets)
      ensures packets == old(packets)[i := old(packets)[i].(size := 0)]
      ensures Waiting() == old(Waiting()) - {PacketOf(old(packets[i]), old(memory))}
    {
      TombstoneOne(packets, memory, mallocs, i);
      memory := memory - {packets[i].packet};
      packets := packets[i := packets[i].(size := 0)];
    }

    /** Lines 137-143: every live entry at or below sequence_flushed goes; before number 0 that is every one. */
    method DropLate()
      requires Layout(packets, memory, mallocs)
      requires Below(packets, sequenceFlushed)
      modifies this`packets, this`memory
      ensures Layout(packets, memory, mallocs) && Tombstoned(old(packets), packets)
      ensures Waiting() == Ahead(old(Waiting()), Pos())
      ensures Settled(packets, sequenceFlushed)
    {
      var i := 0;
      while i < |packets|
        invariant 0 <= i <= |packets|
        invariant Layout(packets, memory, mallocs) && Tombstoned(old(packets), packets)
        invariant forall k :: 0 <= k < i ==> (packets[k].size == 0 <==> packets[k].sequence <= sequenceFlushed)
        invariant forall k :: i <= k < |packets| && packets[k].size == 0 ==> packets[k].sequence <= sequenceFlushed
        invariant Ahead(Waiting(), Pos()) == Ahead(old(Waiting()), Pos())
        decreases |packets| - i
      {
        if packets[i].size > 0 && packets[i].sequence <= sequenceFlushed {
          AheadWithout(Waiting(), Pos(), PacketOf(packets[i], memory));
          Discard(i);
        }
        i := i + 1;
      }
      assert Waiting() == Ahead(Waiting(), Pos());
    }

    /**
     * Lines 146-162. The count of leading tombstones is 16 bits wide, so what is
     * cut off is that count modulo 2^16; order and contents of the rest stay.
     */
    method Compact()
      requires Layout(packets, memory, mallocs)
      modifies this`packets
      ensures Layout(packets, memory, mallocs)
      ensures packets == old(packets)[Leading(old(packets)) % 0x1_0000..]
      ensures Waiting() == old(Waiting())
    {
      hide Layout, WaitingIn;
      var freeable: uint16 := 0;
      var i := 0;
      while i < |packets|
        invariant 0 <= i <= |packets|
        invariant forall k :: 0 <= k < i ==> packets[k].size == 0
        invariant freeable == i % 0x1_0000 && packets == old(packets)
        decreases |packets| - i
      {
        if packets[i].size == 0 {
          NextUint16(i);
          freeable := (freeable as int + 1) % 0x1_0000;
        } else {
          break;
        }
        i := i + 1;
      }
      assert i == Leading(packets);
      CutKeepsWaiting(packets, memory, mallocs, freeable);
      if |packets| == freeable {
        assert packets[freeable..] == [];
        packets := [];
      } else if freeable > 0 {
        packets := packets[freeable..];
      }
    }

    /** Lines 136-162: drop what is late, then cut the leading tombstones off. */
    method Tidy()
      requires Layout(packets, memory, mallocs)
      requires Below(packets, sequenceFlushed)
      modifies this`packets, this`memory
      ensures Layout(packets, memory, mallocs)
      ensures Waiting() == Ahead(old(Waiting()), Pos())
      ensures CutFrom(old(packets), packets)
      ensures Settled(packets, sequenceFlushed)
      ensures |old(packets)| < 0x1_0000 ==> HeadLive()
    {
      ghost var before := packets;
      DropLate();
      CutExposesHead(packets);
      SuffixSettles(before, packets, sequenceFlushed, Leading(packets) % 0x1_0000);
      Compact();
    }

    /** Lines 103-162 on whatever the array holds: one flush of the waiting set. */
    method FlushStep(now: Timeval) returns (ghost f: Flush)
      requires Normal(now) && Normal(timeout) && Layout(packets, memory, mallocs) && Below(packets, Pos())
      requires ArraySound(packets, Pos(), Micros(now), Micros(timeout))
      modifies this`packets, this`memory, this`tun, this`sequenceFlushed
      ensures Layout(packets, memory, mallocs)
      ensures IsFlush(old(Waiting()), old(Pos()), Micros(now), Micros(timeout), f)
      ensures AllIn(old(packets), old(memory), Order(old(packets), old(Pos()), Pos()))
      ensures f.out == PacketsAt(old(packets), old(memory), Order(old(packets), old(Pos()), Pos()))
      ensures f.end == Pos() >= old(Pos()) && f.rest == Waiting()
      ensures tun == old(tun) + Payloads(f.out)
      ensures CutFrom(old(packets), packets)
      ensures Settled(packets, sequenceFlushed)
      ensures |old(packets)| < 0x1_0000 ==> HeadLive()
    {
      hide Settled, WaitingIn, Layout, ArraySound, IsFlush, CutFrom, Tombstoned, Order, AllIn, PacketsAt, Outcome;
      ghost var before := packets;
      ghost var out := FlushAndGiveUp(now);
      f := Flush(out, Pos(), Ahead(Waiting(), Pos()), Waiting() - Ahead(Waiting(), Pos()));
      ghost var flushed := packets;
      Tidy();
      CutTombstoned(before, flushed, packets);
    }

    // ------------------------------------------------------------ one iteration of the receive loop

    /** The flush of an iteration on `input` ends: the array with the new entry is sound. */
    predicate FlushEnds(input: Input, stamp: Timeval, now: Timeval)
      reads this
    {
      ArraySound(Appended(packets, input, mallocs, stamp), Pos(), Micros(now), Micros(timeout))
    }

    /** For the flush to end it is enough that no timed-out packet has a second copy. */
    lemma EndsWithoutCopies(input: Input, stamp: Timeval, now: Timeval)
      requires Valid() && Normal(stamp) && Normal(now)
      requires input.Sequenced? ==> 0 < |input.payload| <= UINT16_MAX
      requires var arrival := BufferedPacket(input, mallocs, stamp);
        && Admissible(state, arrival, Micros(now), Micros(timeout))
        && ExpiredAlone(state.waiting + Arrival(arrival), Micros(now), Micros(timeout))
      ensures FlushEnds(input, stamp, now)
    {
      var arrival := BufferedPacket(input, mallocs, stamp);
      AdmissibleIsSound(state, arrival, Micros(now), Micros(timeout));
      AppendedFits(input, stamp, now);
      hide Admissible, Layout, WaitingIn, Sound, Inv, ExpiredAlone, ArraySound;
      var memory' := if input.Sequenced? then memory[mallocs := input.payload] else memory;
      SoundIsEnough(Appended(packets, input, mallocs, stamp), memory', mallocs + (if input.Sequenced? then 1 else 0),
                    Pos(), Micros(now), Micros(timeout));
    }

    lemma AppendedFits(input: Input, stamp: Timeval, now: Timeval)
      requires Valid() && Normal(stamp) && Normal(now)
      requires input.Sequenced? ==> 0 < |input.payload| <= UINT16_MAX
      requires Admissible(state, BufferedPacket(input, mallocs, stamp), Micros(now), Micros(timeout))
      ensures var entries := Appended(packets, input, mallocs, stamp);
        var memory' := if input.Sequenced? then memory[mallocs := input.payload] else memory;
        && Layout(entries, memory', mallocs + (if input.Sequenced? then 1 else 0))
        && WaitingIn(entries, memory') == state.waiting + Arrival(BufferedPacket(input, mallocs, stamp))
    {
      hide Inv, WaitingIn, Layout, Below, Young, IdsBelow;
      if input.Sequenced? {
        assert BufferedPacket(input, mallocs, stamp).Some?;
        AppendWaits(packets, memory, mallocs, EntryOf(input.number, input.payload, mallocs, stamp), input.payload);
      }
    }

    /** Lines 93-99: realloc, malloc and fill the new last entry. */
    method Append(sequence: uint32, stamp: Timeval, payload: Bytes)
      requires Layout(packets, memory, mallocs) && Normal(stamp)
      requires sequence < UINT32_MAX && 0 < |payload| <= UINT16_MAX
      requires forall i :: 0 <= i < |packets| ==> Micros(packets[i].timestamp) <= Micros(stamp)
      modifies this`packets, this`memory, this`mallocs
      ensures Layout(packets, memory, mallocs)
      ensures mallocs == old(mallocs) + 1
      ensures packets == old(packets) + [EntryOf(sequence, payload, old(mallocs), stamp)]
      ensures Waiting() == old(Waiting()) + {Packet(old(mallocs), sequence, Micros(stamp), payload)}
    {
      var e := EntryOf(sequence, payload, mallocs, stamp);
      AppendWaits(packets, memory, mallocs, e, payload);
      packets := packets + [e];
      memory := memory[mallocs := payload];
      mallocs := mallocs + 1;
    }

    /** The array holds the waiting packets of `state` and the new arrival, if any. */
    ghost predicate Ready(arrival: Option<Packet>, now: Timeval)
      reads this
    {
      && Layout(packets, memory, mallocs) && Normal(timeout) && Normal(now)
      && Inv(state) && state.pos == Pos()
      && Admissible(state, arrival, Micros(now), Micros(timeout))
      && Waiting() == state.waiting + Arrival(arrival)
      && IdsBelow(state.arrived + Arrival(arrival), mallocs)
      && Below(packets, Pos())
      && (Pos() == -1 ==> |packets| <= 1)
      && |stamps| == mallocs
      && Stamped(packets, stamps, Micros(now))
    }

    /** The flush part of an iteration is one step of the run. */
    method FlushReady(now: Timeval, ghost arrival: Option<Packet>) returns (ghost e: Event)
      requires Ready(arrival, now) && ArraySound(packets, Pos(), Micros(now), Micros(timeout))
      modifies this`packets, this`memory, this`tun, this`sequenceFlushed, this`state
      ensures Valid()
      ensures e.arrival == arrival && e.now == Micros(now)
      ensures Step(old(state), e, state, Micros(timeout))
      ensures tun == old(tun) + Payloads(e.flush.out)
      ensures |old(packets)| < 0x1_0000 ==> HeadLive()
    {
      hide Inv, Admissible, IsFlush, Layout, Stamped, Tombstoned, Settled, WaitingIn, ArraySound, Young, Valid,
        IdsBelow, Below, GivenUp, IsAhead, Arrival, CutFrom, Order, AllIn, PacketsAt;
      ghost var s, before := state, packets;
      PosInRange(s);
      ghost var f := FlushStep(now);
      e := Event(arrival, Micros(now), f);
      state := After(s, e);
      StepKeepsInv(s, e, state, Micros(timeout));
      SuffixStamped(before, packets, stamps, Micros(now));
      RestIsYoung(s.waiting + Arrival(arrival), s.pos, Micros(now), Micros(timeout), f);
      FlushedIsValid();
    }

    lemma FlushedIsValid()
      requires Layout(packets, memory, mallocs) && Normal(timeout)
      requires Inv(state) && state.pos == Pos() && state.waiting == Waiting()
      requires IdsBelow(state.arrived, mallocs)
      requires Settled(packets, sequenceFlushed) && (Pos() == -1 ==> HeadLive())
      requires |stamps| == mallocs && Stamped(packets, stamps, state.clock)
      requires Young(Waiting(), state.clock, Micros(timeout))
      ensures Valid()
    {
      SettledIsBelow(packets, sequenceFlushed);
    }

    /** Lines 91-100: the packet goes to the end of the array. */
    method Accept(number: uint32, payload: Bytes, stamp: Timeval, now: Timeval)
      requires Valid() && Normal(stamp) && Normal(now) && |payload| <= UINT16_MAX && payload != []
      requires Admissible(state, Some(Packet(mallocs, number, Micros(stamp), payload)), Micros(now), Micros(timeout))
      modifies this`packets, this`memory, this`mallocs, this`stamps
      ensures Ready(Some(Packet(old(mallocs), number, Micros(stamp), payload)), now)
      ensures packets == old(packets) + [EntryOf(number, payload, old(mallocs), stamp)] && mallocs == old(mallocs) + 1
      ensures stamps == old(stamps) + [Micros(stamp)]
    {
      assert state.clock <= Micros(stamp) <= Micros(now) && number < UINT32_MAX;
      hide Inv, Layout, WaitingIn, Admissible, Below, Young, IdsBelow;
      ghost var p := Packet(mallocs, number, Micros(stamp), payload);
      AppendFits(packets, EntryOf(number, payload, mallocs, stamp), Pos(), stamps, Micros(now));
      IdsBelowNext(state.arrived, p);
      Append(number, stamp, payload);
      stamps := stamps + [Micros(stamp)];
      assert Arrival(Some(p)) == {p};
    }

    /** Lines 87-90: unnumbered packets, and all packets when reordering is off, skip the buffer. */
    method WriteDirectly(payload: Bytes)
      requires Valid()
      modifies this`tun
      ensures Valid() && tun == old(tun) + [payload]
    {
      tun := tun + [payload];
    }

    lemma IdleIsReady(now: Timeval)
      requires Valid() && Normal(now)
      requires Admissible(state, None, Micros(now), Micros(timeout))
      ensures Ready(None, now)
    {
    }

    /** Lines 60-101: take in at most one datagram; `skip` is the jump back to the head of the loop. */
    method Receive(r: Received, haap: Bytes, stamp: Timeval, now: Timeval) returns (skip: bool)
      requires Valid() && WellFramed(r) && Normal(stamp) && Normal(now)
      requires var input := Classify(r, haap, timeout);
        input.Ignored? || Admissible(state, BufferedPacket(input, mallocs, stamp), Micros(now), Micros(timeout))
      modifies this`packets, this`memory, this`mallocs, this`tun, this`stamps
      ensures var input := Classify(r, haap, timeout);
        && skip == input.Ignored?
        && tun == old(tun) + DirectWrite(input)
        && (if skip then Valid() else Ready(BufferedPacket(input, old(mallocs), stamp), now))
        && packets == Appended(old(packets), input, old(mallocs), stamp)
        && (!input.Sequenced? ==> memory == old(memory) && mallocs == old(mallocs) && stamps == old(stamps))
        && (input.Sequenced? ==> mallocs == old(mallocs) + 1 && stamps == old(stamps) + [Micros(stamp)])
    {
      hide Inv, Admissible, Layout, Stamped, Below, WaitingIn, Ready, Valid, Gre.FlagsOf, Gre.NumberOf;
      if r.Failed? {
        return true;
      }
      if r.Datagram? {
        if r.source != haap {
          return true;
        }
        var flags := Gre.FlagsOf(r.frame);
        var payloadOffset;
        if flags == Gre.FLAGS_WITH_SEQ {
          payloadOffset := 12;
        } else if flags == Gre.FLAGS {
          payloadOffset := 8;
        } else {
          return true;
        }
        if payloadOffset == 8 || timeout == Timeval(0, 0) {
          WriteDirectly(r.frame[payloadOffset..]);
          IdleIsReady(now);
        } else {
          var number, payload := Gre.NumberOf(r.frame), r.frame[payloadOffset..];
          assert Classify(r, haap, timeout) == Sequenced(number, payload);
          Accept(number, payload, stamp, now);
        }
      } else {
        IdleIsReady(now);
      }
      return false;
    }

    /** One iteration of the receive loop: at most one datagram, then a flush unless a branch skips it. */
    method Iterate(r: Received, haap: Bytes, stamp: Timeval, now: Timeval) returns (ghost e: Event)
      requires Valid() && WellFramed(r) && Normal(stamp) && Normal(now)
      requires var input := Classify(r, haap, timeout);
        || input.Ignored?
        || (Admissible(state, BufferedPacket(input, mallocs, stamp), Micros(now), Micros(timeout))
            && FlushEnds(input, stamp, now))
      modifies this
      ensures Valid()
      ensures var input := Classify(r, haap, timeout);
        && (input.Ignored? ==>
              && packets == old(packets) && sequenceFlushed == old(sequenceFlushed) && memory == old(memory)
              && state == old(state) && tun == old(tun))
        && (!input.Ignored? ==>
              && e.arrival == BufferedPacket(input, old(mallocs), stamp) && e.now == Micros(now)
              && Step(old(state), e, state, Micros(timeout))
              && tun == old(tun) + DirectWrite(input) + Payloads(e.flush.out))
        && mallocs == old(mallocs) + (if input.Sequenced? then 1 else 0)
        && stamps == old(stamps) + (if input.Sequenced? then [Micros(stamp)] else [])
      // the same, read off the octets of the datagram
      ensures r.Nothing? || Unnumbered(r, haap) || Numbered(r, haap) ==>
        && e.now == Micros(now) && Step(old(state), e, state, Micros(timeout))
        && TakenIn(r, haap, timeout, old(mallocs), stamp, e.arrival, Payloads(e.flush.out), old(tun), tun)
      // any other datagram, or an error, does nothing
      ensures !r.Nothing? && !Unnumbered(r, haap) && !Numbered(r, haap) ==>
        && packets == old(packets) && sequenceFlushed == old(sequenceFlushed) && memory == old(memory)
        && mallocs == old(mallocs) && tun == old(tun) && state == old(state) && stamps == old(stamps)
      ensures forall n: nat ::
        (old(Bounded(n)) && n < UINT16_MAX && AtMostPerWindow(stamps, n, Micros(timeout)) ==> Bounded(n))
    {
      hide Inv, Admissible, IsFlush, Layout, Stamped, Below, Tombstoned, Settled, WaitingIn, ArraySound, Step, Ready,
        Valid, Young, AtMostPerWindow, Classify, BufferedPacket, DirectWrite, Payloads, Unnumbered, Numbered,
        TakenIn, Gre.FlagsOf, Position, AllIn, WellFramed, FlushOf;
      e := Event(None, 0, Flush([], -1, {}, {}));
      ghost var arrival := BufferedPacket(Classify(r, haap, timeout), mallocs, stamp);
      ghost var tun0, id := tun, mallocs;
      OctetsDecide(r, haap, timeout, id, stamp, tun0, []);
      var skip := Receive(r, haap, stamp, now);
      if skip {
        return;
      }
      e := FlushReady(now, arrival);
      OctetsDecide(r, haap, timeout, id, stamp, tun0, Payloads(e.flush.out));
      forall n: nat | old(Bounded(n)) && n < UINT16_MAX && AtMostPerWindow(stamps, n, Micros(timeout))
        ensures Bounded(n)
      {
        WindowBound(n);
      }
    }
  }
}
