/**
 * End to end: frames numbered by a sender reach the receiver in any order that
 * starts with number 0 and in time; the tun device gets the payloads in the order sent.
 */
module Restoration {
  import opened Bytes
  import opened Wrappers
  import opened Timeval
  import opened ReorderSpec
  import opened ReorderRuns
  import opened BufferArray
  import opened ReorderBuffer
  import opened Tun2Gre
  import Gre

  /** One iteration of the receive loop: the frame that arrived, if any, and the clock readings. */
  datatype Slot = Slot(frame: Option<nat>, stamp: Timeval, now: Timeval)

  /** Every one of the `n` frames arrives exactly once, number 0 before all others. */
  ghost predicate DeliversAll(slots: seq<Slot>, n: nat) {
    && (forall j :: 0 <= j < |slots| && slots[j].frame.Some? ==> slots[j].frame.value < n)
    && (forall i, j :: 0 <= i < j < |slots| && slots[i].frame.Some? && slots[j].frame.Some? ==>
          slots[i].frame != slots[j].frame && slots[j].frame.value != 0)
    && (forall m: nat :: m < n ==> Arrived(slots, m))
  }

  ghost predicate Arrived(slots: seq<Slot>, m: int) {
    exists j :: 0 <= j < |slots| && slots[j].frame.Some? && slots[j].frame.value == m
  }

  ghost predicate ClockRuns(slots: seq<Slot>) {
    && (forall j :: 0 <= j < |slots| ==>
          Normal(slots[j].stamp) && Normal(slots[j].now) && 0 <= Micros(slots[j].stamp) <= Micros(slots[j].now))
    && (forall i, j :: 0 <= i < j < |slots| ==> Micros(slots[i].now) <= Micros(slots[j].stamp))
  }

  /** Frame `f` still waits for a lower number, or has only just arrived. */
  ghost predicate Held(slots: seq<Slot>, i: nat, j: nat)
    requires i <= j < |slots| && slots[i].frame.Some?
  {
    i == j || exists m: nat :: m < slots[i].frame.value && !Arrived(slots[..j], m)
  }

  /** No frame reaches the timeout while a lower number has not arrived, nor in the iteration it arrives in. */
  ghost predicate InTime(slots: seq<Slot>, timeout: int) {
    forall i, j | 0 <= i <= j < |slots| && slots[i].frame.Some? && Held(slots, i, j) ::
      Micros(slots[j].now) - Micros(slots[i].stamp) < timeout
  }

  /** `p` is what slot `i` buffered. */
  ghost predicate From(p: Packet, slot: Slot, log: seq<Sent>) {
    slot.frame.Some? && slot.frame.value < |log|
    && p.number == slot.frame.value && p.stamp == Micros(slot.stamp) && p.payload == log[p.number].payload
  }

  /** `arrived` are exactly the frames the iterations `past` brought. */
  ghost predicate Tracked(arrived: set<Packet>, past: seq<Slot>, log: seq<Sent>) {
    && (forall p :: p in arrived ==> exists i :: 0 <= i < |past| && From(p, past[i], log))
    && Distinct(arrived)
    && (forall m :: Arrived(past, m) ==> m in Numbers(arrived))
  }

  /** After the iterations `past`: exactly their frames were buffered, nothing was dropped or given up. */
  ghost predicate OnTrack(s: State, past: seq<Slot>, log: seq<Sent>) {
    && Inv(s)
    && s.early == {} && s.late == {} && s.skipped == {}
    && Tracked(s.arrived, past, log)
    && s.pos + 1 !in Numbers(s.waiting)
  }

  /** No waiting packet is timed out in iteration `j`. */
  lemma WaitingIsInTime(s: State, slots: seq<Slot>, j: nat, log: seq<Sent>, timeout: int, p: Packet)
    requires j < |slots| && OnTrack(s, slots[..j], log) && InTime(slots, timeout)
    requires p in s.waiting
    ensures !Expired(p, Micros(slots[j].now), timeout)
  {
    var i :| 0 <= i < j && From(p, slots[..j][i], log);
    assert slots[..j][i] == slots[i];
    assert p.number in Numbers(s.waiting);
    assert s.pos + 1 < p.number;
    NextIsMissing(s, slots[..j], log);
    assert Held(slots, i, j);
  }

  /** On track, the number after the position has not arrived. */
  lemma NextIsMissing(s: State, past: seq<Slot>, log: seq<Sent>)
    requires OnTrack(s, past, log)
    ensures !Arrived(past, s.pos + 1)
  {
    forall p | p in s.arrived
      ensures p.number != s.pos + 1
    {
      assert p in s.waiting ==> p.number in Numbers(s.waiting);
      assert p in Elems(s.written) ==> p.number in Numbers(Elems(s.written));
    }
    assert s.pos + 1 !in Numbers(s.arrived);
  }

  ghost function SlotArrival(slot: Slot, id: nat, log: seq<Sent>): Option<Packet>
    requires slot.frame.Some? ==> slot.frame.value < |log|
  {
    if slot.frame.Some? then
      Some(Packet(id, slot.frame.value, Micros(slot.stamp), log[slot.frame.value].payload))
    else None
  }

  /** The next arrival is new: its number has not arrived, and it lies ahead of the position. */
  lemma ArrivalIsNew(s: State, slots: seq<Slot>, j: nat, log: seq<Sent>, p: Packet)
    requires j < |slots| && OnTrack(s, slots[..j], log) && DeliversAll(slots, |log|)
    requires From(p, slots[j], log)
    ensures p.number !in Numbers(s.arrived) && p.number > s.pos
    ensures s.pos == -1 ==> p.number == 0
  {
    var past := slots[..j];
    forall q | q in s.arrived
      ensures q.number != p.number
    {
      var i :| 0 <= i < |past| && From(q, past[i], log);
      assert past[i] == slots[i];
    }
    NumbersUnion(s.waiting, Elems(s.written));
    assert p.number !in Numbers(Elems(s.written));
    if s.pos == -1 {
      assert s.arrived == {};
      var zero: nat := 0;
      assert !Arrived(past, zero);
      assert forall i :: 0 <= i < j ==> past[i] == slots[i];
      assert Arrived(slots, zero);
    }
  }

  lemma SlotIsAdmissible(s: State, slots: seq<Slot>, j: nat, log: seq<Sent>, timeout: int, id: nat)
    requires j < |slots| && OnTrack(s, slots[..j], log) && DeliversAll(slots, |log|)
    requires ClockRuns(slots) && InTime(slots, timeout) && |log| <= UINT32_MAX
    requires s.clock == if j == 0 then 0 else Micros(slots[j - 1].now)
    requires IdsBelow(s.arrived, id)
    ensures Admissible(s, SlotArrival(slots[j], id, log), Micros(slots[j].now), timeout)
    ensures forall p :: p in s.waiting + Arrival(SlotArrival(slots[j], id, log)) ==>
      !Expired(p, Micros(slots[j].now), timeout)
  {
    forall p | p in s.waiting
      ensures !Expired(p, Micros(slots[j].now), timeout)
    {
      WaitingIsInTime(s, slots, j, log, timeout, p);
    }
    if slots[j].frame.Some? {
      assert Held(slots, j, j);
    }
  }

  ghost predicate Clean(w: set<Packet>, pos: int) {
    && Distinct(w)
    && (forall p :: p in w ==> p.number > pos && (pos == -1 ==> p.number == 0))
  }

  /** With distinct numbers all ahead and nobody timed out, a flush drops and gives up nothing. */
  lemma CleanFlush(w: set<Packet>, pos: int, now: int, timeout: int, f: Flush)
    requires IsFlush(w, pos, now, timeout, f) && pos >= -1
    requires Clean(w, pos) && forall p :: p in w ==> !Expired(p, now, timeout)
    ensures f.dropped == {} && GivenUp(w, pos, f.end) == {}
    ensures f.end + 1 !in Numbers(f.rest)
  {
    assert (set p | p in w && Expired(p, now, timeout)) == {};
    assert Target(w, pos, now, timeout) == pos;
    WritesTheRange(w, pos, now, timeout, f);
    forall p | p in w && p !in f.rest
      ensures p in Elems(f.out)
    {
      assert p.number in Numbers(w);
      assert pos == -1 ==> 0 in Numbers(w);
    }
    assert f.rest <= w;
  }

  /** The history of arrivals grows by what slot `j` brought. */
  lemma ArrivalsStayTracked(s: State, slots: seq<Slot>, j: nat, log: seq<Sent>, id: nat)
    requires j < |slots| && OnTrack(s, slots[..j], log) && DeliversAll(slots, |log|)
    ensures Tracked(s.arrived + Arrival(SlotArrival(slots[j], id, log)), slots[..j + 1], log)
  {
    var past, past' := slots[..j], slots[..j + 1];
    var a := SlotArrival(slots[j], id, log);
    var arrived' := s.arrived + Arrival(a);
    assert past' == past + [slots[j]];
    if a.Some? {
      ArrivalIsNew(s, slots, j, log, a.value);
    }
    forall p | p in arrived'
      ensures exists i :: 0 <= i < |past'| && From(p, past'[i], log)
    {
      if p in s.arrived {
        var i :| 0 <= i < |past| && From(p, past[i], log);
        assert past'[i] == past[i];
      } else {
        assert From(p, past'[j], log);
      }
    }
    assert forall p :: p in s.arrived ==> p.number in Numbers(s.arrived);
    NumbersUnion(s.arrived, Arrival(a));
    forall m | Arrived(past', m)
      ensures m in Numbers(arrived')
    {
      var i :| 0 <= i < |past'| && past'[i].frame.Some? && past'[i].frame.value == m;
      if i < j {
        assert past[i] == past'[i] && Arrived(past, m);
      } else {
        assert a.value in arrived';
      }
    }
  }

  lemma FlushInputIsClean(s: State, slots: seq<Slot>, j: nat, log: seq<Sent>, id: nat)
    requires j < |slots| && OnTrack(s, slots[..j], log) && DeliversAll(slots, |log|)
    ensures Clean(s.waiting + Arrival(SlotArrival(slots[j], id, log)), s.pos)
  {
    var a := SlotArrival(slots[j], id, log);
    if a.Some? {
      ArrivalIsNew(s, slots, j, log, a.value);
    }
    assert forall p :: p in s.waiting ==> p in s.arrived && p.number in Numbers(s.arrived);
  }

  /** One iteration stays on track. */
  lemma StaysOnTrack(s: State, slots: seq<Slot>, j: nat, log: seq<Sent>, timeout: int, id: nat, e: Event, s': State)
    requires j < |slots| && OnTrack(s, slots[..j], log) && DeliversAll(slots, |log|)
    requires ClockRuns(slots) && InTime(slots, timeout) && |log| <= UINT32_MAX
    requires s.clock == if j == 0 then 0 else Micros(slots[j - 1].now)
    requires IdsBelow(s.arrived, id)
    requires e.arrival == SlotArrival(slots[j], id, log) && e.now == Micros(slots[j].now)
    requires Step(s, e, s', timeout)
    ensures OnTrack(s', slots[..j + 1], log)
  {
    hide Inv, IsFlush, Tracked, DeliversAll, ClockRuns, InTime, Admissible, Clean, Conserved, Partitioned;
    StepKeepsInv(s, e, s', timeout);
    ArrivalsStayTracked(s, slots, j, log, id);
    FlushInputIsClean(s, slots, j, log, id);
    SlotIsAdmissible(s, slots, j, log, timeout, id);
    assert s.pos >= -1 by { PosInRange(s); }
    CleanFlush(s.waiting + Arrival(e.arrival), s.pos, e.now, timeout, e.flush);
  }

  /** An ascending sequence whose numbers are 0..n-1 holds number k in place k. */
  lemma {:induction false} InPlace(s: seq<Packet>, n: nat)
    requires Ascending(s)
    requires forall m :: m in Numbers(Elems(s)) <==> 0 <= m < n
    ensures |s| == n && forall k :: 0 <= k < n ==> s[k].number == k
  {
    assert n > 0 ==> 0 in Numbers(Elems(s)) && n - 1 in Numbers(Elems(s));
    if s != [] {
      var init, last := s[..|s| - 1], s[|s| - 1];
      assert last in Elems(s) && last.number in Numbers(Elems(s));
      LastIsHighest(s, n - 1);
      InPlace(init, n - 1);
      assert forall k :: 0 <= k < n - 1 ==> s[k] == init[k];
    }
  }

  lemma LastIsHighest(s: seq<Packet>, top: nat)
    requires s != [] && Ascending(s) && top in Numbers(Elems(s)) && forall m :: m in Numbers(Elems(s)) ==> m <= top
    ensures s[|s| - 1].number == top
    ensures Numbers(Elems(s[..|s| - 1])) == Numbers(Elems(s)) - {top}
  {
    var init, last := s[..|s| - 1], s[|s| - 1];
    assert last in Elems(s) && last.number in Numbers(Elems(s));
    assert forall p :: p in Elems(s) ==> p.number <= last.number;
    ElemsOfPrefix(s);
    assert Elems(s) == Elems(init) + {last};
    NumbersUnion(Elems(init), {last});
    assert Numbers({last}) == {top};
    assert forall p :: p in Elems(init) ==> p.number < top;
  }

  /** When everything has arrived, everything was written, in order. */
  lemma AllWritten(s: State, slots: seq<Slot>, log: seq<Sent>)
    requires OnTrack(s, slots, log) && DeliversAll(slots, |log|)
    ensures |s.written| == |log| && forall k :: 0 <= k < |log| ==> s.written[k].payload == log[k].payload
  {
    NextIsMissing(s, slots, log);
    assert s.pos + 1 >= |log|;
    forall p | p in Elems(s.written)
      ensures p.number < |log| && p.payload == log[p.number].payload
    {
      assert p in s.arrived;
      var i :| 0 <= i < |slots| && From(p, slots[i], log);
    }
    assert s.pos >= 0 ==> s.pos in Numbers(Elems(s.written));
    InPlace(s.written, |log|);
    assert forall k :: 0 <= k < |log| ==> s.written[k] in Elems(s.written);
  }

  /** What the receive loop sees in a slot. */
  function Input(slot: Slot, haap: Bytes, frames: seq<Bytes>): Received
    requires slot.frame.Some? ==> slot.frame.value < |frames|
  {
    if slot.frame.Some? then Datagram(haap, frames[slot.frame.value]) else Nothing
  }

  /** The receiver buffers from a sender's frame the number and the payload that the sender put in. */
  lemma FrameIsBuffered(slot: Slot, haap: Bytes, sender: Sender, timeout: Timeval, id: nat)
    requires sender.Valid() && |sender.sent| <= UINT32_MAX && timeout != Timeval(0, 0)
    requires slot.frame.Some? ==> slot.frame.value < |sender.sent|
    ensures var r := Input(slot, haap, sender.sent);
      && WellFramed(r)
      && !Classify(r, haap, timeout).Ignored? && !Classify(r, haap, timeout).Direct?
      && BufferedPacket(Classify(r, haap, timeout), id, slot.stamp) == SlotArrival(slot, id, sender.log)
  {
    if slot.frame.Some? {
      var m := slot.frame.value;
      var f := sender.log[m];
      assert ToUint32(m) == m;
      assert sender.sent[m] == Gre.DataFrame(f.proto, f.key, m, f.payload);
      Gre.DataFrameRoundTrip(f.proto, f.key, m, f.payload);
    }
  }

  lemma PayloadsConcat(a: seq<Packet>, b: seq<Packet>)
    ensures Payloads(a + b) == Payloads(a) + Payloads(b)
  {
  }

  /**
   * The receive loop over frames of the sender, delivered in any order that starts
   * with number 0 and in time, mixed with idle iterations: the tun device is
   * written exactly the payloads the sender read, in the order it read them.
   */
  method Restore(sender: Sender, receiver: Receiver, slots: seq<Slot>, haap: Bytes)
    requires sender.Valid() && |sender.sent| <= UINT32_MAX
    requires receiver.Valid() && receiver.state == START && receiver.tun == [] && receiver.timeout != Timeval(0, 0)
    requires DeliversAll(slots, |sender.sent|) && ClockRuns(slots) && InTime(slots, Micros(receiver.timeout))
    modifies receiver
    ensures |receiver.tun| == |sender.log|
    ensures forall k :: 0 <= k < |sender.log| ==> receiver.tun[k] == sender.log[k].payload
  {
    hide Receiver.Valid, OnTrack, DeliversAll, ClockRuns, InTime;
    ghost var log := sender.log;
    StartIsOnTrack(log);
    var j := 0;
    while j < |slots|
      invariant 0 <= j <= |slots|
      invariant receiver.Valid() && OnTrack(receiver.state, slots[..j], log)
      invariant receiver.state.clock == if j == 0 then 0 else Micros(slots[j - 1].now)
      invariant receiver.tun == Payloads(receiver.state.written)
    {
      RestoreSlot(sender, receiver, slots, haap, j);
      j := j + 1;
    }
    assert slots[..j] == slots;
    AllWritten(receiver.state, slots, log);
  }

  /** One iteration of the receive loop on slot `j`. */
  method RestoreSlot(sender: Sender, receiver: Receiver, slots: seq<Slot>, haap: Bytes, j: nat)
    requires sender.Valid() && |sender.sent| <= UINT32_MAX && j < |slots|
    requires receiver.Valid() && receiver.timeout != Timeval(0, 0)
    requires DeliversAll(slots, |sender.sent|) && ClockRuns(slots) && InTime(slots, Micros(receiver.timeout))
    requires OnTrack(receiver.state, slots[..j], sender.log)
    requires receiver.state.clock == if j == 0 then 0 else Micros(slots[j - 1].now)
    requires receiver.tun == Payloads(receiver.state.written)
    modifies receiver
    ensures receiver.Valid() && OnTrack(receiver.state, slots[..j + 1], sender.log)
    ensures receiver.state.clock == Micros(slots[j].now)
    ensures receiver.tun == Payloads(receiver.state.written)
  {
    ghost var log, s, id, r := sender.log, receiver.state, receiver.mallocs, Input(slots[j], haap, sender.sent);
    SlotIsReady(sender, receiver, slots, haap, j);
    hide Receiver.Valid, OnTrack, DeliversAll, ClockRuns, InTime, Classify, Step, Admissible, WellFramed, Sender.Valid,
      SlotArrival, Payloads, BufferedPacket, Receiver.Bounded, Receiver.FlushEnds, AtMostPerWindow, IdsBelow,
      TakenIn, Unnumbered, Numbered;
    ghost var tun0 := receiver.tun;
    ghost var e := receiver.Iterate(Input(slots[j], haap, sender.sent), haap, slots[j].stamp, slots[j].now);
    SlotIsDone(s, slots, j, log, Micros(receiver.timeout), id, e, receiver.state);
    assert receiver.tun == tun0 + [] + Payloads(e.flush.out);
    NothingBetween(tun0, Payloads(e.flush.out));
  }

  /** What the receive loop needs for slot `j`. */
  lemma SlotIsReady(sender: Sender, receiver: Receiver, slots: seq<Slot>, haap: Bytes, j: nat)
    requires sender.Valid() && |sender.sent| <= UINT32_MAX && j < |slots|
    requires receiver.Valid() && receiver.timeout != Timeval(0, 0)
    requires DeliversAll(slots, |sender.sent|) && ClockRuns(slots) && InTime(slots, Micros(receiver.timeout))
    requires OnTrack(receiver.state, slots[..j], sender.log)
    requires receiver.state.clock == if j == 0 then 0 else Micros(slots[j - 1].now)
    ensures |sender.log| == |sender.sent|
    ensures slots[j].frame.Some? ==> slots[j].frame.value < |sender.log|
    ensures Normal(slots[j].stamp) && Normal(slots[j].now)
    ensures IdsBelow(receiver.state.arrived, receiver.mallocs)
    ensures var r, timeout := Input(slots[j], haap, sender.sent), receiver.timeout;
      && WellFramed(r)
      && !Classify(r, haap, timeout).Ignored? && !Classify(r, haap, timeout).Direct?
      && BufferedPacket(Classify(r, haap, timeout), receiver.mallocs, slots[j].stamp)
           == SlotArrival(slots[j], receiver.mallocs, sender.log)
      && Admissible(receiver.state, SlotArrival(slots[j], receiver.mallocs, sender.log),
                    Micros(slots[j].now), Micros(timeout))
      && receiver.FlushEnds(Classify(r, haap, timeout), slots[j].stamp, slots[j].now)
  {
    SlotIsUsable(slots, j, |sender.sent|);
    ValidIds(receiver);
    SenderCounts(sender);
    hide Receiver.Valid, OnTrack, DeliversAll, ClockRuns, InTime, Classify, Admissible, WellFramed, Sender.Valid,
      SlotArrival, BufferedPacket, Input, IdsBelow;
    FrameIsBuffered(slots[j], haap, sender, receiver.timeout, receiver.mallocs);
    SlotIsAdmissible(receiver.state, slots, j, sender.log, Micros(receiver.timeout), receiver.mallocs);
    PayloadFits(Input(slots[j], haap, sender.sent), haap, receiver.timeout);
    receiver.EndsWithoutCopies(Classify(Input(slots[j], haap, sender.sent), haap, receiver.timeout),
                               slots[j].stamp, slots[j].now);
  }

  /** What the iteration leaves. */
  lemma SlotIsDone(s: State, slots: seq<Slot>, j: nat, log: seq<Sent>, timeout: int, id: nat, e: Event, s': State)
    requires j < |slots| && OnTrack(s, slots[..j], log) && DeliversAll(slots, |log|)
    requires ClockRuns(slots) && InTime(slots, timeout) && |log| <= UINT32_MAX
    requires slots[j].frame.Some? ==> slots[j].frame.value < |log|
    requires s.clock == if j == 0 then 0 else Micros(slots[j - 1].now)
    requires IdsBelow(s.arrived, id)
    requires e.arrival == SlotArrival(slots[j], id, log) && e.now == Micros(slots[j].now)
    requires Step(s, e, s', timeout)
    ensures OnTrack(s', slots[..j + 1], log)
    ensures s'.clock == Micros(slots[j].now)
    ensures Payloads(s'.written) == Payloads(s.written) + Payloads(e.flush.out)
  {
    StepWrites(s, e, s', timeout);
    hide OnTrack, DeliversAll, ClockRuns, InTime, Step, SlotArrival, IdsBelow;
    StaysOnTrack(s, slots, j, log, timeout, id, e, s');
    PayloadsConcat(s.written, e.flush.out);
  }

  lemma NothingBetween(a: seq<Bytes>, b: seq<Bytes>)
    ensures a + [] + b == a + b
  {
  }

  lemma SenderCounts(sender: Sender)
    requires sender.Valid()
    ensures |sender.log| == |sender.sent|
  {
  }

  lemma StartIsOnTrack(log: seq<Sent>)
    ensures OnTrack(START, [], log)
  {
    assert Numbers(Elems([])) == {};
  }

  lemma SlotIsUsable(slots: seq<Slot>, j: nat, n: nat)
    requires j < |slots| && DeliversAll(slots, n) && ClockRuns(slots)
    ensures slots[j].frame.Some? ==> slots[j].frame.value < n
    ensures Normal(slots[j].stamp) && Normal(slots[j].now)
  {
  }

  lemma ValidIds(receiver: Receiver)
    requires receiver.Valid()
    ensures IdsBelow(receiver.state.arrived, receiver.mallocs)
  {
  }

  lemma StepWrites(s: State, e: Event, s': State, timeout: int)
    requires Step(s, e, s', timeout)
    ensures s'.written == s.written + e.flush.out && s'.clock == e.now
  {
  }

  // ---------------------------------------------------------------- unnumbered packets

  /**
   * The receive loop on an unnumbered packet, framed by whoever holds the HAAP's
   * address: its payload goes straight to the tun device, before what the flush
   * writes, and nothing is buffered.
   */
  method PassDirectly(receiver: Receiver, haap: Bytes, proto: uint16, key: uint32, payload: Bytes,
                      stamp: Timeval, now: Timeval)
      returns (ghost e: Event)
    requires receiver.Valid() && 8 + |payload| <= Gre.MAX_PKT_SIZE && Normal(stamp) && Normal(now)
    requires receiver.state.clock <= Micros(now)
    requires ExpiredAlone(receiver.state.waiting, Micros(now), Micros(receiver.timeout))
    modifies receiver
    ensures receiver.Valid()
    ensures e.arrival == None && e.now == Micros(now)
    ensures Step(old(receiver.state), e, receiver.state, Micros(receiver.timeout))
    ensures receiver.tun == old(receiver.tun) + [payload] + Payloads(e.flush.out)
  {
    hide Receiver.Valid, Classify, Step, Receiver.FlushEnds, Payloads, Receiver.Bounded, AtMostPerWindow, Unnumbered,
      Numbered, BufferedPacket, DirectWrite;
    var frame := Gre.Header(Gre.FLAGS, proto, key) + payload;
    var r := Datagram(haap, frame);
    UnnumberedFrame(haap, proto, key, payload, receiver.timeout);
    assert BufferedPacket(Direct(payload), receiver.mallocs, stamp) == None by { DirectBuffersNothing(payload, stamp); }
    assert receiver.state.waiting + Arrival(None) == receiver.state.waiting;
    receiver.EndsWithoutCopies(Direct(payload), stamp, now);
    e := receiver.Iterate(r, haap, stamp, now);
  }

  lemma UnnumberedFrame(haap: Bytes, proto: uint16, key: uint32, payload: Bytes, timeout: Timeval)
    requires 8 + |payload| <= Gre.MAX_PKT_SIZE
    ensures var r := Datagram(haap, Gre.Header(Gre.FLAGS, proto, key) + payload);
      && WellFramed(r) && Unnumbered(r, haap) && r.frame[8..] == payload
      && Classify(r, haap, timeout) == Direct(payload)
  {
    Gre.HeaderRoundTrip(Gre.FLAGS, proto, key, payload);
    var frame := Gre.Header(Gre.FLAGS, proto, key) + payload;
    Gre.FlagOctets(frame);
    assert frame[8..] == payload;
    hide Gre.FlagsOf;
  }

  lemma DirectBuffersNothing(payload: Bytes, stamp: Timeval)
    ensures forall id: nat :: BufferedPacket(Direct(payload), id, stamp) == None
  {
  }
}
