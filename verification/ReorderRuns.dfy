/**
 * Runs of the receiver: what every sequence of flush steps keeps, over the
 * histories of packets that arrived, were written, or were discarded and of
 * numbers that were given up.
 */
module ReorderRuns {
  import opened Bytes
  import opened Wrappers
  import opened ReorderSpec

  /**
   * `early` are the packets discarded before number 0 arrived, `late` those
   * discarded after it; `ahead` are the buffered packets whose number still lay
   * ahead when they arrived.
   */
  datatype State = State(
    pos: int,
    waiting: set<Packet>,
    clock: int,
    arrived: set<Packet>,
    ahead: set<Packet>,
    written: seq<Packet>,
    early: set<Packet>,
    late: set<Packet>,
    skipped: set<int>)

  const START := State(-1, {}, 0, {}, {}, [], {}, {}, {})

  datatype Event = Event(arrival: Option<Packet>, now: int, flush: Flush)

  ghost function Arrival(a: Option<Packet>): set<Packet> {
    if a.Some? then {a.value} else {}
  }

  /** The packets that are ahead of a position: before number 0, only number 0. */
  ghost predicate IsAhead(p: Packet, pos: int) {
    p.number > pos && (pos >= 0 || p.number == 0)
  }

  /**
   * What a run assumes of its environment: the clock is monotone; an arrival has
   * an id of its own, a number below UINT32_MAX (one pass of the counter), and is
   * not timed out yet in the step that buffers it. Numbers may repeat.
   */
  ghost predicate Admissible(s: State, arrival: Option<Packet>, now: int, timeout: int) {
    && s.clock <= now
    && (arrival.Some? ==>
          var p := arrival.value;
          && p.number < UINT32_MAX
          && s.clock <= p.stamp <= now
          && !Expired(p, now, timeout)
          && forall q :: q in s.arrived ==> q.id != p.id)
  }

  /** The histories after an event. */
  ghost function After(s: State, e: Event): State {
    State(
      e.flush.end,
      e.flush.rest,
      e.now,
      s.arrived + Arrival(e.arrival),
      s.ahead + (set p | p in Arrival(e.arrival) && IsAhead(p, s.pos)),
      s.written + e.flush.out,
      if e.flush.end < 0 then s.early + e.flush.dropped else s.early,
      if e.flush.end < 0 then s.late else s.late + e.flush.dropped,
      s.skipped + GivenUp(s.waiting + Arrival(e.arrival), s.pos, e.flush.end))
  }

  ghost predicate Step(s: State, e: Event, s': State, timeout: int) {
    && Admissible(s, e.arrival, e.now, timeout)
    && IsFlush(s.waiting + Arrival(e.arrival), s.pos, e.now, timeout, e.flush)
    && s' == After(s, e)
  }

  ghost predicate StepAt(states: seq<State>, events: seq<Event>, timeout: int, k: nat)
    requires k < |events| < |states|
  {
    Step(states[k], events[k], states[k + 1], timeout)
  }

  ghost predicate IsRun(states: seq<State>, events: seq<Event>, timeout: int) {
    && |states| == |events| + 1
    && states[0] == START
    && forall k :: 0 <= k < |events| ==> StepAt(states, events, timeout, k)
  }

  // ---------------------------------------------------------------- the invariant

  /** Every buffered arrival is in exactly one place: written, discarded or waiting. */
  ghost predicate Conserved(s: State) {
    && s.arrived == s.waiting + Elems(s.written) + s.early + s.late
    && s.waiting !! Elems(s.written) !! s.early !! s.late
  }

  /** 0..pos is split into the written numbers and the numbers given up. */
  ghost predicate Partitioned(s: State) {
    forall n ::
      && (n in Numbers(Elems(s.written)) || n in s.skipped <==> 0 <= n <= s.pos)
      && !(n in Numbers(Elems(s.written)) && n in s.skipped)
  }

  /** `p` was not lost: it waits, it was written, or a copy of it was. */
  ghost predicate KeptIn(s: State, p: Packet) {
    p in s.waiting || p in Elems(s.written) || (p in s.late && p.number in Numbers(Elems(s.written)))
  }

  /** No packet that arrived ahead was lost. */
  ghost predicate Kept(s: State) {
    forall p :: p in s.ahead ==> KeptIn(s, p)
  }

  ghost predicate Inv(s: State) {
    && -1 <= s.pos < UINT32_MAX
    && (s.pos == -1 ==> s.waiting == {} && s.written == [])
    && (s.pos >= 0 ==> s.written != [] && s.written[0].number == 0)
    && (forall p :: p in s.waiting ==> s.pos < p.number < UINT32_MAX && p.stamp <= s.clock)
    && Ascending(s.written)
    && Conserved(s)
    && Partitioned(s)
    && (forall p :: p in s.late ==> 0 <= p.number <= s.pos)
    && s.ahead <= s.arrived
    && Kept(s)
  }

  lemma PosInRange(s: State)
    requires Inv(s)
    ensures -1 <= s.pos < UINT32_MAX
  {
  }

  /** A timed-out packet of `w` has no second copy. */
  ghost predicate ExpiredAlone(w: set<Packet>, now: int, timeout: int) {
    forall p, q :: p in w && q in w && Expired(p, now, timeout) && q.number == p.number ==> q == p
  }

  /**
   * In a run, whatever is timed out lies ahead; so without a second copy of a
   * timed-out packet the flush loop ends, whatever the order of arrival.
   */
  lemma AdmissibleIsSound(s: State, arrival: Option<Packet>, now: int, timeout: int)
    requires Inv(s) && Admissible(s, arrival, now, timeout)
    requires ExpiredAlone(s.waiting + Arrival(arrival), now, timeout)
    ensures Sound(s.waiting + Arrival(arrival), s.pos, now, timeout)
  {
  }

  lemma ElemsConcat(a: seq<Packet>, b: seq<Packet>)
    ensures Elems(a + b) == Elems(a) + Elems(b)
    ensures Numbers(Elems(a + b)) == Numbers(Elems(a)) + Numbers(Elems(b))
  {
    NumbersUnion(Elems(a), Elems(b));
  }

  /** Before number 0 arrives nothing but number 0 itself moves the position. */
  lemma FirstStep(s: State, e: Event, s': State, timeout: int)
    requires Inv(s) && Step(s, e, s', timeout) && s.pos == -1
    ensures s'.pos == if e.arrival.Some? && e.arrival.value.number == 0 then 0 else -1
    ensures e.flush.out == if s'.pos == 0 then [e.arrival.value] else []
    ensures s'.waiting == {} && s'.skipped == s.skipped
    ensures e.flush.dropped == if s'.pos == 0 then {} else Arrival(e.arrival)
  {
    var w, out := s.waiting + Arrival(e.arrival), e.flush.out;
    assert |out| >= 2 ==> out[0].number < out[1].number;
    assert w == Arrival(e.arrival);
    assert (set p | p in w && Expired(p, e.now, timeout)) == {};
    assert Target(w, -1, e.now, timeout) == -1;
    assert s'.pos >= 1 ==> 0 in Numbers(w) && 1 in Numbers(w);
    assert forall i :: 0 <= i < |out| ==> out[i] in Elems(out) && out[i].number in Numbers(Elems(out));
    assert |out| >= 1 ==> out[0].number in Numbers(Elems(out));
    if s'.pos == 0 {
      assert 0 in Numbers(w) && e.arrival.Some? && w == {e.arrival.value};
      assert 0 in Numbers(Elems(out));
      assert forall i :: 0 <= i < |out| ==> out[i] == e.arrival.value;
    } else if e.arrival.Some? {
      assert e.arrival.value.number in Numbers(w);
    }
  }

  lemma StepKeepsOrder(s: State, e: Event, s': State, timeout: int)
    requires Inv(s) && Step(s, e, s', timeout)
    ensures Ascending(s'.written)
    ensures s'.pos >= 0 ==> s'.written != [] && s'.written[0].number == 0
  {
    var a, b := s.written, e.flush.out;
    forall i | 0 <= i < |a|
      ensures a[i].number <= s.pos
    {
      assert a[i] in Elems(a) && a[i].number in Numbers(Elems(a));
    }
    forall i | 0 <= i < |b|
      ensures s.pos < b[i].number
    {
      assert b[i] in Elems(b) && b[i].number in Numbers(Elems(b));
    }
    if s.pos == -1 {
      FirstStep(s, e, s', timeout);
    }
  }

  /** Moving an input, split three ways, between disjoint places keeps them disjoint and loses nothing. */
  lemma Moves<T>(waiting: set<T>, a: set<T>, b: set<T>, c: set<T>,
                 arrival: set<T>, rest: set<T>, out: set<T>, dropped: set<T>)
    requires waiting !! a !! b !! c
    requires arrival !! waiting + a + b + c
    requires waiting + arrival == rest + out + dropped && rest !! out !! dropped
    ensures waiting + a + b + c + arrival == rest + (a + out) + b + (c + dropped)
    ensures rest !! (a + out) !! b !! (c + dropped)
  {
  }

  lemma StepKeepsConservation(s: State, e: Event, s': State, timeout: int)
    requires Inv(s) && Step(s, e, s', timeout)
    ensures Conserved(s')
  {
    var f := e.flush;
    assert Arrival(e.arrival) !! s.arrived;
    FlushSplits(s.waiting + Arrival(e.arrival), s.pos, e.now, timeout, f);
    ElemsConcat(s.written, f.out);
    hide IsFlush, Partitioned, Kept, Admissible, Ascending, GivenUp, IsAhead, Elems, Numbers;
    if f.end < 0 {
      Moves(s.waiting, Elems(s.written), s.late, s.early, Arrival(e.arrival), f.rest, Elems(f.out), f.dropped);
    } else {
      Moves(s.waiting, Elems(s.written), s.early, s.late, Arrival(e.arrival), f.rest, Elems(f.out), f.dropped);
    }
  }

  lemma StepKeepsPartition(s: State, e: Event, s': State, timeout: int)
    requires Inv(s) && Step(s, e, s', timeout)
    ensures Partitioned(s')
  {
    hide Conserved, Kept, Admissible, Ascending;
    ElemsConcat(s.written, e.flush.out);
    if s.pos == -1 {
      FirstStep(s, e, s', timeout);
    }
  }

  lemma PacketIsKept(s: State, e: Event, timeout: int, p: Packet)
    requires IsFlush(s.waiting + Arrival(e.arrival), s.pos, e.now, timeout, e.flush)
    requires KeptIn(s, p) || p in Arrival(e.arrival)
    requires p in s.waiting + Arrival(e.arrival) ==> p.number > s.pos
    requires e.flush.end >= 0
    ensures KeptIn(After(s, e), p)
  {
    var w := s.waiting + Arrival(e.arrival);
    if p in w {
      FlushKeeps(w, s.pos, e.now, timeout, e.flush, p);
    }
    hide IsFlush;
    ElemsConcat(s.written, e.flush.out);
  }

  lemma StepKeepsAhead(s: State, e: Event, s': State, timeout: int)
    requires Inv(s) && Step(s, e, s', timeout)
    ensures Kept(s')
  {
    StepKeepsRange(s, e, s', timeout);
    if s.pos == -1 {
      FirstStep(s, e, s', timeout);
    }
    hide Partitioned, Ascending, Admissible, IsFlush, GivenUp, KeptIn, Elems, Numbers;
    assert s'.pos == -1 ==> s'.ahead == {} by {
      assert s.pos == -1 ==> s.ahead == {};
    }
    forall p | p in s'.ahead
      ensures KeptIn(s', p)
    {
      PacketIsKept(s, e, timeout, p);
    }
  }

  lemma StepKeepsRange(s: State, e: Event, s': State, timeout: int)
    requires Inv(s) && Step(s, e, s', timeout)
    ensures s.pos <= s'.pos < UINT32_MAX
    ensures s'.pos == -1 ==> s'.waiting == {} && s'.written == []
    ensures forall p :: p in s'.waiting ==> s'.pos < p.number < UINT32_MAX && p.stamp <= s'.clock
  {
    var w := s.waiting + Arrival(e.arrival);
    EndIsNumber(w, s.pos, e.now, timeout);
    if s.pos == -1 {
      FirstStep(s, e, s', timeout);
    }
  }

  lemma StepKeepsLate(s: State, e: Event, s': State, timeout: int)
    requires Inv(s) && Step(s, e, s', timeout)
    ensures forall p :: p in s'.late ==> 0 <= p.number <= s'.pos
    ensures s'.ahead <= s'.arrived
  {
    var w, f := s.waiting + Arrival(e.arrival), e.flush;
    StepKeepsRange(s, e, s', timeout);
    if f.end >= 0 {
      assert forall p :: p in f.dropped ==> p in w && p !in Ahead(w, f.end);
    }
  }

  /** One step keeps the invariant. */
  lemma StepKeepsInv(s: State, e: Event, s': State, timeout: int)
    requires Inv(s) && Step(s, e, s', timeout)
    ensures Inv(s')
  {
    StepKeepsRange(s, e, s', timeout);
    StepKeepsLate(s, e, s', timeout);
    StepKeepsOrder(s, e, s', timeout);
    StepKeepsConservation(s, e, s', timeout);
    StepKeepsPartition(s, e, s', timeout);
    StepKeepsAhead(s, e, s', timeout);
  }

  // ---------------------------------------------------------------- whole runs

  lemma {:induction false} RunInv(states: seq<State>, events: seq<Event>, timeout: int, k: nat)
    requires IsRun(states, events, timeout) && k < |states|
    ensures Inv(states[k])
  {
    if k == 0 {
      assert Numbers(Elems([])) == {};
    } else {
      RunInv(states, events, timeout, k - 1);
      assert StepAt(states, events, timeout, k - 1);
      StepKeepsInv(states[k - 1], events[k - 1], states[k], timeout);
    }
  }

  /**
   * In every run the numbers written to the tun device strictly increase, each
   * written packet is one that arrived, nothing is lost or duplicated, and what
   * lies at or below the position was either written or given up.
   */
  lemma RunSafety(states: seq<State>, events: seq<Event>, timeout: int, k: nat)
    requires IsRun(states, events, timeout) && k < |states|
    ensures var s := states[k];
      && Ascending(s.written) && Elems(s.written) <= s.arrived
      && Conserved(s) && Partitioned(s) && Kept(s)
      && forall p :: p in s.late ==> p.number in Numbers(Elems(s.written)) || p.number in s.skipped
  {
    RunInv(states, events, timeout, k);
  }

  /** `n` is given up in this step: no buffered packet has it, and one with a higher number has timed out. */
  ghost predicate GivenUpAt(s: State, e: Event, timeout: int, n: int) {
    var w := s.waiting + Arrival(e.arrival);
    && s.pos < n <= e.flush.end && n !in Numbers(w)
    && exists p :: p in w && Expired(p, e.now, timeout) && p.number > n
  }

  /**
   * Every number given up in a run was given up in a step in which no buffered
   * packet had it and a waiting packet with a higher number had timed out.
   */
  lemma {:induction false} GivenUpJustified(states: seq<State>, events: seq<Event>, timeout: int, k: nat, n: int)
      returns (j: nat)
    requires IsRun(states, events, timeout) && k < |states|
    requires n in states[k].skipped
    ensures j < k && GivenUpAt(states[j], events[j], timeout, n)
  {
    assert k > 0;
    j := k - 1;
    var s, e := states[j], events[j];
    assert StepAt(states, events, timeout, j);
    if n in s.skipped {
      j := GivenUpJustified(states, events, timeout, k - 1, n);
    } else {
      GivenUpReason(s.waiting + Arrival(e.arrival), s.pos, e.now, timeout, n);
    }
  }

  /**
   * Bounded waiting: after every step each waiting packet is younger than the
   * timeout, and with steps at most `period` apart every packet is written at an
   * age below timeout + period.
   */
  lemma BoundedWaiting(states: seq<State>, events: seq<Event>, timeout: int, period: nat, k: nat)
    requires IsRun(states, events, timeout) && k < |events|
    requires timeout > 0
    requires forall i :: 0 < i < |events| ==> events[i].now - events[i - 1].now <= period
    ensures forall p :: p in states[k + 1].waiting ==> events[k].now - p.stamp < timeout
    ensures forall p :: p in Elems(events[k].flush.out) ==> events[k].now - p.stamp < timeout + period
  {
    var s, e := states[k], events[k];
    var w := s.waiting + Arrival(e.arrival);
    assert StepAt(states, events, timeout, k);
    RestIsYoung(w, s.pos, e.now, timeout, e.flush);
    if k > 0 {
      var r, d := states[k - 1], events[k - 1];
      assert StepAt(states, events, timeout, k - 1);
      RestIsYoung(r.waiting + Arrival(d.arrival), r.pos, d.now, timeout, d.flush);
    }
    forall p | p in Elems(e.flush.out)
      ensures e.now - p.stamp < timeout + period
    {
      assert p in w;
    }
  }

  /** No two packets of the same number wait in this step. */
  ghost predicate NoCopies(s: State, e: Event) {
    Distinct(s.waiting + Arrival(e.arrival))
  }

  ghost predicate NoneLost(s: State) {
    forall p :: p in s.ahead ==> p in s.waiting || p in Elems(s.written)
  }

  lemma StepLosesNone(s: State, e: Event, s': State, timeout: int)
    requires Inv(s) && Step(s, e, s', timeout) && NoCopies(s, e) && NoneLost(s)
    ensures NoneLost(s')
  {
    ElemsConcat(s.written, e.flush.out);
    if s.pos == -1 {
      FirstStep(s, e, s', timeout);
    } else {
      WritesTheRange(s.waiting + Arrival(e.arrival), s.pos, e.now, timeout, e.flush);
    }
  }

  lemma {:induction false} LosesNone(states: seq<State>, events: seq<Event>, timeout: int, k: nat)
    requires IsRun(states, events, timeout) && k < |states|
    requires forall i :: 0 <= i < k ==> NoCopies(states[i], events[i])
    ensures NoneLost(states[k])
  {
    if k > 0 {
      LosesNone(states, events, timeout, k - 1);
      RunInv(states, events, timeout, k - 1);
      assert StepAt(states, events, timeout, k - 1);
      StepLosesNone(states[k - 1], events[k - 1], states[k], timeout);
    }
  }

  /** Step `j` buffered a packet whose number lay ahead: beyond the position, or 0 if there was none yet. */
  ghost predicate ArrivedAhead(states: seq<State>, events: seq<Event>, j: nat)
    requires j < |events| < |states|
  {
    events[j].arrival.Some? &&
    var p := events[j].arrival.value;
    p.number > states[j].pos && (states[j].pos == -1 ==> p.number == 0)
  }

  /** The histories remember each such packet. */
  lemma {:induction false} AheadIsRemembered(states: seq<State>, events: seq<Event>, timeout: int, j: nat, k: nat)
    requires IsRun(states, events, timeout) && j < k < |states| && ArrivedAhead(states, events, j)
    ensures events[j].arrival.value in states[k].ahead
    decreases k
  {
    assert StepAt(states, events, timeout, k - 1);
    RunInv(states, events, timeout, j);
    hide Inv, Admissible, IsFlush, IsRun, GivenUp;
    if j < k - 1 {
      AheadIsRemembered(states, events, timeout, j, k - 1);
    } else {
      assert states[j].pos >= -1 by { RunInv(states, events, timeout, j); PosInRange(states[j]); }
    }
  }

  /**
   * If no two copies of a number ever wait together, a packet that arrived ahead of
   * the position in any step is never discarded: it is waiting or written from then on.
   */
  lemma NeverDiscarded(states: seq<State>, events: seq<Event>, timeout: int, k: nat)
    requires IsRun(states, events, timeout) && k < |states|
    requires forall i :: 0 <= i < k ==> NoCopies(states[i], events[i])
    ensures forall j :: 0 <= j < k && ArrivedAhead(states, events, j) ==>
      var p := events[j].arrival.value;
      p in states[k].waiting || p in states[k].written
    ensures NoneLost(states[k])
  {
    LosesNone(states, events, timeout, k);
    hide NoCopies, IsRun;
    forall j | 0 <= j < k && ArrivedAhead(states, events, j)
      ensures events[j].arrival.value in states[k].ahead
    {
      AheadIsRemembered(states, events, timeout, j, k);
    }
  }

  /**
   * With copies, it is waiting, or written, or a copy of it was written.
   */
  lemma NeverLost(states: seq<State>, events: seq<Event>, timeout: int, j: nat, k: nat)
    requires IsRun(states, events, timeout) && j < k < |states| && ArrivedAhead(states, events, j)
    ensures var p := events[j].arrival.value;
      p in states[k].waiting || exists q :: q in states[k].written && q.number == p.number
  {
    var p := events[j].arrival.value;
    AheadIsRemembered(states, events, timeout, j, k);
    RunInv(states, events, timeout, k);
    hide IsRun, ArrivedAhead, Partitioned, Conserved, Ascending;
    assert KeptIn(states[k], p);
  }
}
