/**
 * The receive loop over any sequence of inputs in which no arrival repeats a number
 * that still waits: its flushes are the steps of one run, cycle by cycle, and the
 * tun device holds what the run wrote.
 */
module ReceiveLoop {
  import opened Bytes
  import opened Wrappers
  import opened Timeval
  import opened ReorderSpec
  import opened ReorderRuns
  import opened BufferArray
  import opened ReorderBuffer

  /** What one iteration of the loop receives, and its clock readings. */
  datatype Cycle = Cycle(received: Received, stamp: Timeval, now: Timeval)

  predicate Readable(cycles: seq<Cycle>) {
    forall j :: 0 <= j < |cycles| ==>
      WellFramed(cycles[j].received) && Normal(cycles[j].stamp) && Normal(cycles[j].now)
      && 0 <= Micros(cycles[j].stamp) <= Micros(cycles[j].now)
  }

  /** The clock is monotone over the cycles. */
  predicate Monotone(cycles: seq<Cycle>) {
    forall j :: 0 < j < |cycles| ==> Micros(cycles[j - 1].now) <= Micros(cycles[j].stamp)
  }

  // ---------------------------------------------------------------- the run that the inputs determine

  /** What happened so far: the run, how many blocks were allocated, and what the tun device was written. */
  datatype Trace = Trace(states: seq<State>, events: seq<Event>, mallocs: nat, tun: seq<Bytes>)

  ghost predicate Started(t: Trace) {
    |t.states| == |t.events| + 1
  }

  ghost function Last(t: Trace): State
    requires Started(t)
  {
    t.states[|t.events|]
  }

  /** The event of a cycle that is not ignored: the packet it buffers, if any, and the flush of what then waits. */
  ghost function EventOf(t: Trace, input: Input, c: Cycle, timeout: Timeval): Event
    requires Started(t)
  {
    var arrival := BufferedPacket(input, t.mallocs, c.stamp);
    var w := Last(t).waiting + Arrival(arrival);
    Event(arrival, Micros(c.now), FlushOf(w, Last(t).pos, Micros(c.now), Micros(timeout)))
  }

  /** An ignored cycle does nothing; any other writes a direct packet and then the output of its flush. */
  ghost function Extended(t: Trace, input: Input, c: Cycle, timeout: Timeval): (t': Trace)
    requires Started(t)
    ensures Started(t')
  {
    if input.Ignored? then t
    else
      var e := EventOf(t, input, c, timeout);
      Trace(t.states + [After(Last(t), e)], t.events + [e], t.mallocs + if input.Sequenced? then 1 else 0,
            t.tun + DirectWrite(input) + Payloads(e.flush.out))
  }

  /** The first `j` cycles, from `mallocs` allocations and `tun` on the device. */
  ghost function TraceOf(cycles: seq<Cycle>, haap: Bytes, timeout: Timeval, mallocs: nat, tun: seq<Bytes>, j: nat)
      : (t: Trace)
    requires Readable(cycles) && j <= |cycles|
    ensures Started(t)
  {
    if j == 0 then Trace([START], [], mallocs, tun)
    else
      Extended(TraceOf(cycles, haap, timeout, mallocs, tun, j - 1),
               Classify(cycles[j - 1].received, haap, timeout), cycles[j - 1], timeout)
  }

  /** The buffered packet has a number below UINT32_MAX that no waiting packet has, and is not timed out yet. */
  ghost predicate Orderly(t: Trace, input: Input, c: Cycle, timeout: Timeval)
    requires Started(t)
  {
    input.Sequenced? ==>
      && input.number < UINT32_MAX && input.number !in Numbers(Last(t).waiting)
      && Micros(c.now) - Micros(c.stamp) < Micros(timeout)
  }

  ghost predicate AllOrderly(cycles: seq<Cycle>, haap: Bytes, timeout: Timeval, mallocs: nat)
    requires Readable(cycles)
  {
    forall j :: 0 <= j < |cycles| ==>
      Orderly(TraceOf(cycles, haap, timeout, mallocs, [], j), Classify(cycles[j].received, haap, timeout),
              cycles[j], timeout)
  }

  // ---------------------------------------------------------------- it is a run

  /** No step so far had two copies of a number. */
  ghost predicate NeverCopies(states: seq<State>, events: seq<Event>) {
    |events| < |states| && forall i :: 0 <= i < |events| ==> NoCopies(states[i], events[i])
  }

  /** A run without copies that has not passed `clock`. */
  ghost predicate Sane(t: Trace, timeout: int, clock: int) {
    && Started(t) && IsRun(t.states, t.events, timeout) && NeverCopies(t.states, t.events)
    && ReorderRuns.Inv(Last(t)) && Distinct(Last(t).waiting)
    && IdsBelow(Last(t).arrived, t.mallocs) && Last(t).clock <= clock
  }

  lemma StartIsSane(mallocs: nat, tun: seq<Bytes>, timeout: int, clock: nat)
    ensures Sane(Trace([START], [], mallocs, tun), timeout, clock)
  {
    RunInv([START], [], timeout, 0);
  }

  /** On an orderly cycle the next event is one the buffer's step admits, and no number waits twice in it. */
  lemma OrderlyIsAdmissible(t: Trace, input: Input, c: Cycle, timeout: Timeval)
    requires Sane(t, Micros(timeout), Micros(c.stamp)) && Orderly(t, input, c, timeout)
    requires Micros(c.stamp) <= Micros(c.now)
    ensures var arrival := BufferedPacket(input, t.mallocs, c.stamp);
      && Admissible(Last(t), arrival, Micros(c.now), Micros(timeout))
      && Distinct(Last(t).waiting + Arrival(arrival))
      && IdsBelow(Last(t).arrived + Arrival(arrival), t.mallocs + if input.Sequenced? then 1 else 0)
  {
    var arrival := BufferedPacket(input, t.mallocs, c.stamp);
    hide ReorderRuns.Inv, IsRun, NeverCopies;
    assert forall p :: p in Last(t).waiting ==> p.number in Numbers(Last(t).waiting);
  }

  lemma RunExtends(states: seq<State>, events: seq<Event>, timeout: int, e: Event, s': State)
    requires IsRun(states, events, timeout) && NeverCopies(states, events)
    requires Step(states[|events|], e, s', timeout) && NoCopies(states[|events|], e)
    ensures IsRun(states + [s'], events + [e], timeout) && NeverCopies(states + [s'], events + [e])
  {
    hide Step, NoCopies;
    var states', events' := states + [s'], events + [e];
    forall k | 0 <= k < |events'|
      ensures StepAt(states', events', timeout, k) && NoCopies(states'[k], events'[k])
    {
      if k < |events| {
        assert StepAt(states, events, timeout, k);
      }
    }
  }

  lemma RestIsDistinct(w: set<Packet>, pos: int, now: int, timeout: int, f: Flush)
    requires Distinct(w) && IsFlush(w, pos, now, timeout, f)
    ensures Distinct(f.rest)
  {
  }

  /** One cycle keeps the trace a run. */
  lemma ExtendedIsSane(t: Trace, input: Input, c: Cycle, timeout: Timeval, clock: int)
    requires Sane(t, Micros(timeout), Micros(c.stamp)) && Orderly(t, input, c, timeout)
    requires Micros(c.stamp) <= Micros(c.now) <= clock
    ensures Sane(Extended(t, input, c, timeout), Micros(timeout), clock)
  {
    hide IsRun, NeverCopies, ReorderRuns.Inv, Admissible, IsFlush, Distinct, IdsBelow, Orderly, GivenUp, IsAhead,
      NoCopies;
    OrderlyIsAdmissible(t, input, c, timeout);
    if !input.Ignored? {
      var e := EventOf(t, input, c, timeout);
      var w := Last(t).waiting + Arrival(e.arrival);
      assert NoCopies(Last(t), e) by { CopiesAreDistinct(Last(t), e); }
      StepKeepsInv(Last(t), e, After(Last(t), e), Micros(timeout));
      RestIsDistinct(w, Last(t).pos, e.now, Micros(timeout), e.flush);
      RunExtends(t.states, t.events, Micros(timeout), e, After(Last(t), e));
    }
  }

  lemma CopiesAreDistinct(s: State, e: Event)
    requires Distinct(s.waiting + Arrival(e.arrival))
    ensures NoCopies(s, e)
  {
  }

  /** When a cycle starts, and after the last, the clock has not passed this. */
  function ClockAt(cycles: seq<Cycle>, j: nat): int
    requires j <= |cycles|
  {
    if j < |cycles| then Micros(cycles[j].stamp) else if j == 0 then 0 else Micros(cycles[j - 1].now)
  }

  /** What the tun device held before only stands in front. */
  lemma {:induction false} TunInFront(cycles: seq<Cycle>, haap: Bytes, timeout: Timeval, mallocs: nat,
                                      tun: seq<Bytes>, j: nat)
    requires Readable(cycles) && j <= |cycles|
    ensures var t0 := TraceOf(cycles, haap, timeout, mallocs, [], j);
      TraceOf(cycles, haap, timeout, mallocs, tun, j) == t0.(tun := tun + t0.tun)
  {
    if j > 0 {
      TunInFront(cycles, haap, timeout, mallocs, tun, j - 1);
      var t0 := TraceOf(cycles, haap, timeout, mallocs, [], j - 1);
      var c := cycles[j - 1];
      var input := Classify(c.received, haap, timeout);
      hide Classify, WellFramed, Readable, FlushOf, Payloads, After;
      FrontStays(t0, input, c, timeout, tun);
    }
  }

  lemma FrontStays(t0: Trace, input: Input, c: Cycle, timeout: Timeval, tun: seq<Bytes>)
    requires Started(t0)
    ensures var t := Extended(t0, input, c, timeout);
      Extended(t0.(tun := tun + t0.tun), input, c, timeout) == t.(tun := tun + t.tun)
  {
    hide FlushOf, Payloads, After;
    if !input.Ignored? {
      var t1 := t0.(tun := tun + t0.tun);
      assert Last(t1) == Last(t0);
      assert EventOf(t1, input, c, timeout) == EventOf(t0, input, c, timeout);
      ConcatFour(tun, t0.tun, DirectWrite(input), Payloads(EventOf(t0, input, c, timeout).flush.out));
    }
  }

  lemma ConcatFour(a: seq<Bytes>, b: seq<Bytes>, c: seq<Bytes>, d: seq<Bytes>)
    ensures (a + b) + c + d == a + (b + c + d)
  {
  }

  lemma {:induction false} TraceIsSane(cycles: seq<Cycle>, haap: Bytes, timeout: Timeval, mallocs: nat,
                                       tun: seq<Bytes>, j: nat)
    requires Readable(cycles) && Monotone(cycles) && AllOrderly(cycles, haap, timeout, mallocs) && j <= |cycles|
    ensures Sane(TraceOf(cycles, haap, timeout, mallocs, tun, j), Micros(timeout), ClockAt(cycles, j))
    ensures j < |cycles| ==>
      Orderly(TraceOf(cycles, haap, timeout, mallocs, tun, j), Classify(cycles[j].received, haap, timeout),
              cycles[j], timeout)
  {
    hide Sane, Extended, WellFramed, Classify;
    TunInFront(cycles, haap, timeout, mallocs, tun, j);
    if j == 0 {
      StartIsSane(mallocs, tun, Micros(timeout), ClockAt(cycles, 0));
    } else {
      var c := cycles[j - 1];
      TraceIsSane(cycles, haap, timeout, mallocs, tun, j - 1);
      ExtendedIsSane(TraceOf(cycles, haap, timeout, mallocs, tun, j - 1), Classify(c.received, haap, timeout), c,
                     timeout, ClockAt(cycles, j));
    }
  }

  // ---------------------------------------------------------------- what the device holds

  /** No packet goes past the buffer. */
  predicate NothingDirect(cycles: seq<Cycle>, haap: Bytes, timeout: Timeval)
    requires Readable(cycles)
  {
    forall j :: 0 <= j < |cycles| ==> !Classify(cycles[j].received, haap, timeout).Direct?
  }

  /** If nothing goes past the buffer, the device holds the payloads of the run's output, in order. */
  lemma {:induction false} DeviceHoldsWritten(cycles: seq<Cycle>, haap: Bytes, timeout: Timeval, mallocs: nat, j: nat)
    requires Readable(cycles) && NothingDirect(cycles, haap, timeout) && j <= |cycles|
    ensures var t := TraceOf(cycles, haap, timeout, mallocs, [], j);
      t.tun == Payloads(Last(t).written)
  {
    hide Classify, WellFramed, FlushOf, GivenUp, IsAhead, Ahead, Arrival;
    if j > 0 {
      DeviceHoldsWritten(cycles, haap, timeout, mallocs, j - 1);
      var t, c := TraceOf(cycles, haap, timeout, mallocs, [], j - 1), cycles[j - 1];
      var input := Classify(c.received, haap, timeout);
      var out := EventOf(t, input, c, timeout).flush.out;
      assert Payloads(Last(t).written + out) == Payloads(Last(t).written) + [] + Payloads(out);
    }
  }

  // ---------------------------------------------------------------- the loop

  /** With at most `n` arrivals in any timeout window the array is never longer than `n` after an iteration. */
  ghost predicate WindowBounds(r: Receiver)
    reads r
  {
    forall n: nat :: n < UINT16_MAX && AtMostPerWindow(r.stamps, n, Micros(r.timeout)) ==> r.Bounded(n)
  }

  lemma FewerStamps(stamps: seq<int>, more: seq<int>, n: nat, timeout: int)
    requires stamps <= more && AtMostPerWindow(more, n, timeout)
    ensures AtMostPerWindow(stamps, n, timeout)
  {
    forall i: nat | i + n < |stamps|
      ensures Spans(stamps, i, n, timeout)
    {
      assert Spans(more, i, n, timeout);
    }
  }

  /** The receiver is where the trace ends. */
  ghost predicate At(r: Receiver, t: Trace)
    requires Started(t)
    reads r
  {
    r.state == Last(t) && r.mallocs == t.mallocs && r.tun == t.tun
  }

  /**
   * The receive loop on a fresh receiver performs exactly the run that its inputs
   * determine: one step for each cycle that is not ignored, in order, with the packet
   * that cycle brought. Its output on the tun device is that run's output; no packet
   * that arrived ahead is lost; and the array keeps within its window bound.
   */
  method Run(r: Receiver, cycles: seq<Cycle>, haap: Bytes)
    requires r.Valid() && r.state == START && r.packets == []
    requires Readable(cycles) && Monotone(cycles) && AllOrderly(cycles, haap, r.timeout, r.mallocs)
    modifies r
    ensures r.Valid()
    ensures var t := TraceOf(cycles, haap, r.timeout, old(r.mallocs), old(r.tun), |cycles|);
      && r.state == Last(t) && r.mallocs == t.mallocs && r.tun == t.tun
      && IsRun(t.states, t.events, Micros(r.timeout))
    // every packet that arrived ahead of the position waits or was written
    ensures var t := TraceOf(cycles, haap, r.timeout, old(r.mallocs), old(r.tun), |cycles|);
      forall j :: 0 <= j < |t.events| && ArrivedAhead(t.states, t.events, j) ==>
        t.events[j].arrival.value in r.state.waiting || t.events[j].arrival.value in r.state.written
    ensures Ascending(r.state.written)
    ensures NothingDirect(cycles, haap, r.timeout) ==> r.tun == old(r.tun) + Payloads(r.state.written)
    ensures WindowBounds(r)
  {
    hide Receiver.Valid, Readable, Monotone, AllOrderly, Sane, IsRun, NeverCopies, Receiver.Bounded, AtMostPerWindow,
      Extended, NothingDirect, Orderly, Ascending, ArrivedAhead;
    ghost var mallocs, tun := r.mallocs, r.tun;
    EmptyIsBounded(r);
    var j := 0;
    while j < |cycles|
      invariant 0 <= j <= |cycles|
      invariant r.Valid() && WindowBounds(r)
      invariant At(r, TraceOf(cycles, haap, r.timeout, mallocs, tun, j))
    {
      RunOne(r, cycles, haap, j, mallocs, tun);
      j := j + 1;
    }
    TraceIsSane(cycles, haap, r.timeout, mallocs, tun, |cycles|);
    RunLosesNone(TraceOf(cycles, haap, r.timeout, mallocs, tun, |cycles|), Micros(r.timeout),
                 ClockAt(cycles, |cycles|));
    if NothingDirect(cycles, haap, r.timeout) {
      TunInFront(cycles, haap, r.timeout, mallocs, tun, |cycles|);
      DeviceHoldsWritten(cycles, haap, r.timeout, mallocs, |cycles|);
    }
  }

  lemma EmptyIsBounded(r: Receiver)
    requires r.packets == []
    ensures WindowBounds(r)
  {
  }

  lemma RunLosesNone(t: Trace, timeout: int, clock: int)
    requires Sane(t, timeout, clock)
    ensures IsRun(t.states, t.events, timeout) && Ascending(Last(t).written)
    ensures forall j :: 0 <= j < |t.events| && ArrivedAhead(t.states, t.events, j) ==>
      t.events[j].arrival.value in Last(t).waiting || t.events[j].arrival.value in Last(t).written
  {
    NeverDiscarded(t.states, t.events, timeout, |t.events|);
  }

  /** One iteration on an orderly cycle extends the trace by that cycle. */
  method Follow(r: Receiver, c: Cycle, haap: Bytes, ghost t: Trace)
    requires r.Valid() && Started(t) && At(r, t)
    requires WellFramed(c.received) && Normal(c.stamp) && Normal(c.now) && Micros(c.stamp) <= Micros(c.now)
    requires Sane(t, Micros(r.timeout), Micros(c.stamp))
    requires Orderly(t, Classify(c.received, haap, r.timeout), c, r.timeout)
    modifies r
    ensures r.Valid() && At(r, Extended(t, Classify(c.received, haap, r.timeout), c, r.timeout))
    ensures old(r.stamps) <= r.stamps
    ensures forall n: nat ::
      (old(r.Bounded(n)) && n < UINT16_MAX && AtMostPerWindow(r.stamps, n, Micros(r.timeout)) ==> r.Bounded(n))
  {
    hide Receiver.Valid, Admissible, Step, Classify, WellFramed, Sane, Orderly, Extended, Receiver.Bounded,
      Receiver.FlushEnds, AtMostPerWindow, BufferedPacket, DirectWrite, Payloads, Unnumbered, Numbered, TakenIn;
    CycleIsReady(r, t, c, haap);
    ghost var input := Classify(c.received, haap, r.timeout);
    ghost var e := r.Iterate(c.received, haap, c.stamp, c.now);
    IterationExtends(t, input, c, r.timeout, e, r.state, r.tun);
    ExtendedMallocs(t, input, c, r.timeout);
  }

  /** One iteration. */
  method RunOne(r: Receiver, cycles: seq<Cycle>, haap: Bytes, j: nat, ghost mallocs: nat, ghost tun: seq<Bytes>)
    requires Readable(cycles) && Monotone(cycles) && AllOrderly(cycles, haap, r.timeout, mallocs) && j < |cycles|
    requires r.Valid() && WindowBounds(r)
    requires At(r, TraceOf(cycles, haap, r.timeout, mallocs, tun, j))
    modifies r
    ensures r.Valid() && WindowBounds(r)
    ensures At(r, TraceOf(cycles, haap, r.timeout, mallocs, tun, j + 1))
  {
    hide Receiver.Valid, Readable, Monotone, AllOrderly, Classify, WellFramed, Sane, Orderly, Extended,
      Receiver.Bounded, AtMostPerWindow, TraceOf;
    ghost var stamps0, t := r.stamps, TraceOf(cycles, haap, r.timeout, mallocs, tun, j);
    CycleIsReadable(cycles, j);
    TraceIsSane(cycles, haap, r.timeout, mallocs, tun, j);
    TraceGrows(cycles, haap, r.timeout, mallocs, tun, j);
    Follow(r, cycles[j], haap, t);
    forall n: nat | n < UINT16_MAX && AtMostPerWindow(r.stamps, n, Micros(r.timeout))
      ensures r.Bounded(n)
    {
      FewerStamps(stamps0, r.stamps, n, Micros(r.timeout));
    }
  }

  lemma TraceGrows(cycles: seq<Cycle>, haap: Bytes, timeout: Timeval, mallocs: nat, tun: seq<Bytes>, j: nat)
    requires Readable(cycles) && j < |cycles|
    ensures WellFramed(cycles[j].received)
    ensures TraceOf(cycles, haap, timeout, mallocs, tun, j + 1)
         == Extended(TraceOf(cycles, haap, timeout, mallocs, tun, j), Classify(cycles[j].received, haap, timeout),
                     cycles[j], timeout)
  {
  }

  lemma CycleIsReadable(cycles: seq<Cycle>, j: nat)
    requires Readable(cycles) && j < |cycles|
    ensures WellFramed(cycles[j].received) && Normal(cycles[j].stamp) && Normal(cycles[j].now)
    ensures Micros(cycles[j].stamp) <= Micros(cycles[j].now)
  {
  }

  lemma ExtendedMallocs(t: Trace, input: Input, c: Cycle, timeout: Timeval)
    requires Started(t)
    ensures Extended(t, input, c, timeout).mallocs == t.mallocs + if input.Sequenced? then 1 else 0
  {
  }

  /** What an iteration needs for an orderly cycle. */
  lemma CycleIsReady(r: Receiver, t: Trace, c: Cycle, haap: Bytes)
    requires r.Valid() && Started(t) && At(r, t)
    requires WellFramed(c.received) && Normal(c.stamp) && Normal(c.now) && Micros(c.stamp) <= Micros(c.now)
    requires Sane(t, Micros(r.timeout), Micros(c.stamp))
    requires Orderly(t, Classify(c.received, haap, r.timeout), c, r.timeout)
    ensures var input := Classify(c.received, haap, r.timeout);
      && Admissible(r.state, BufferedPacket(input, r.mallocs, c.stamp), Micros(c.now), Micros(r.timeout))
      && r.FlushEnds(input, c.stamp, c.now)
  {
    hide Receiver.Valid, Sane, Orderly, Admissible, Receiver.FlushEnds, WellFramed, Classify, BufferedPacket;
    var input := Classify(c.received, haap, r.timeout);
    PayloadFits(c.received, haap, r.timeout);
    OrderlyIsAdmissible(t, input, c, r.timeout);
    r.EndsWithoutCopies(input, c.stamp, c.now);
  }

  /** Without copies, the step an iteration takes is the one the inputs determine. */
  lemma IterationExtends(t: Trace, input: Input, c: Cycle, timeout: Timeval, e: Event, s': State, tun': seq<Bytes>)
    requires Sane(t, Micros(timeout), Micros(c.stamp)) && Orderly(t, input, c, timeout)
    requires Micros(c.stamp) <= Micros(c.now)
    requires input.Ignored? ==> s' == Last(t) && tun' == t.tun
    requires !input.Ignored? ==>
      && e.arrival == BufferedPacket(input, t.mallocs, c.stamp) && e.now == Micros(c.now)
      && Step(Last(t), e, s', Micros(timeout))
      && tun' == t.tun + DirectWrite(input) + Payloads(e.flush.out)
    ensures var t' := Extended(t, input, c, timeout);
      s' == Last(t') && tun' == t'.tun
  {
    hide Admissible, IsFlush, Distinct, Orderly, GivenUp, IsAhead, Payloads, DirectWrite;
    OrderlyIsAdmissible(t, input, c, timeout);
    if !input.Ignored? {
      var w := Last(t).waiting + Arrival(e.arrival);
      FlushUnique(w, Last(t).pos, e.now, Micros(timeout), e.flush, FlushOf(w, Last(t).pos, e.now, Micros(timeout)));
    }
  }
}
