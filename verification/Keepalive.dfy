/**
 * Keepalive: hellos are sent while a tunnel is established, missed ones are
 * counted, and the tunnel is declared dead at the limit (section 5 of RFC 8157).
 */
module Keepalive {
  import opened Bytes
  import opened Wrappers
  import opened Grecp
  import opened Control
  import opened Messages

  // ---------------------------------------------------------------- the counter stays within its limit

  ghost predicate WithinLimit(s: Runtime, k: Kind) {
    var t := TunnelOf(s, k);
    t.missed <= s.haap.retryTimes && (t.established ==> t.missed < s.haap.retryTimes)
  }

  /** Between the message and the timers: the limit may be met, but then no hello is outstanding. */
  ghost predicate NearLimit(s: Runtime, k: Kind) {
    var t := TunnelOf(s, k);
    && t.missed <= s.haap.retryTimes
    && (t.established && t.missed == s.haap.retryTimes ==> t.lastSent == t.lastReceived)
  }

  /** A limit that is set stays; it is filled in only where it is 0. */
  lemma {:induction false} AcceptFillsLimits(h: Haap, attrs: seq<Attribute>)
    requires AllWellSized(ACCEPT, attrs)
    ensures var h' := AcceptAll(h, attrs);
      && h'.anycast == h.anycast && h'.commitCount == h.commitCount
      && (h.retryTimes != 0 ==> h'.retryTimes == h.retryTimes)
      && (h.helloInterval != 0 ==> h'.helloInterval == h.helloInterval)
    decreases |attrs|
  {
    if attrs != [] {
      AcceptFillsLimits(AcceptOne(h, attrs[0]), attrs[1..]);
    }
  }

  lemma {:induction false} HelloKeeps(t: Tunnel, attrs: seq<Attribute>)
    requires AllWellSized(HELLO, attrs)
    ensures var t' := HelloAll(t, attrs);
      && t'.established == t.established && t'.lastSent == t.lastSent
      && (t'.missed == 0 || t' == t)
    decreases |attrs|
  {
    if attrs != [] {
      HelloKeeps(HelloOne(t, attrs[0]), attrs[1..]);
    }
  }

  lemma {:induction false} NotifyKeeps(s: Runtime, attrs: seq<Attribute>)
    requires AllWellSized(NOTIFY, attrs)
    ensures var s' := NotifyAll(s, attrs);
      && s'.lte == s.lte && s'.dsl == s.dsl && s'.bonding == s.bonding && s'.created == s.created
      && s'.haap == s.haap.(commitCount := s'.haap.commitCount)
    decreases |attrs|
  {
    if attrs != [] {
      NotifyKeeps(NotifyOne(s, attrs[0]), attrs[1..]);
    }
  }

  /** A message changes no configuration, and no limit that is set. */
  lemma MessageKeepsLimits(s: Runtime, i: Input)
    requires Sane(i)
    ensures var s' := Receive(s, i);
      && s'.bonding == s.bonding && s'.created == s.created && s'.haap.anycast == s.haap.anycast
      && (s.haap.retryTimes != 0 ==> s'.haap.retryTimes == s.haap.retryTimes)
      && (s.haap.helloInterval != 0 ==> s'.haap.helloInterval == s.haap.helloInterval)
  {
    if i.incoming.Some? {
      var m := i.incoming.value.message;
      if m.msgtype == ACCEPT {
        AcceptFillsLimits(s.haap, m.attributes);
      } else if m.msgtype == NOTIFY {
        NotifyKeeps(s, m.attributes);
      }
    }
  }

  /** What a message can do to a tunnel. */
  lemma MessageTunnel(s: Runtime, i: Input, k: Kind)
    requires Sane(i)
    ensures var t, t' := TunnelOf(s, k), TunnelOf(Receive(s, i), k);
      if Handles(s, i, ACCEPT, k) then t' == Establish(t, i.now)
      else if Handles(s, i, HELLO, k) then
        t'.established == t.established && t'.lastSent == t.lastSent && (t'.missed == 0 || t' == t)
      else t' == t || t' == t.(established := false)
  {
    if i.incoming.Some? {
      var m := i.incoming.value.message;
      if m.msgtype == HELLO {
        HelloKeeps(TunnelOf(s, KindOf(m)), m.attributes);
      } else if m.msgtype == NOTIFY {
        NotifyKeeps(s, m.attributes);
      }
    }
  }

  /** What a message can do to the tunnels and the limits. */
  lemma MessageEffect(s: Runtime, i: Input, k: Kind)
    requires Sane(i)
    ensures var s', t, t' := Receive(s, i), TunnelOf(s, k), TunnelOf(Receive(s, i), k);
      && s'.bonding == s.bonding && s'.created == s.created && s'.haap.anycast == s.haap.anycast
      && (s.haap.retryTimes != 0 ==> s'.haap.retryTimes == s.haap.retryTimes)
      && (s.haap.helloInterval != 0 ==> s'.haap.helloInterval == s.haap.helloInterval)
      && (if Handles(s, i, ACCEPT, k) then t' == Establish(t, i.now)
          else if Handles(s, i, HELLO, k) then
            t'.established == t.established && t'.lastSent == t.lastSent && (t'.missed == 0 || t' == t)
          else t' == t || t' == t.(established := false))
  {
    hide Receive, Handles, Sane;
    MessageKeepsLimits(s, i);
    MessageTunnel(s, i, k);
  }

  lemma MessageKeepsLimit(s: Runtime, i: Input, k: Kind)
    requires Sane(i) && WithinLimit(s, k)
    ensures NearLimit(Receive(s, i), k)
  {
    MessageEffect(s, i, k);
  }

  /** A tick ends below the limit or dead; a limit beyond the 8-bit counter is never met. */
  lemma TickKeepsLimit(s: Runtime, env: Env, k: Kind)
    requires NearLimit(s, k)
    ensures WithinLimit(Tick(s, env), k)
  {
  }

  /**
   * In every run, after every tick each tunnel has missed at most the limit, and
   * strictly fewer while it is established; so with a limit of 0 none is.
   */
  lemma {:induction false} MissedWithinLimit(states: seq<Runtime>, inputs: seq<Input>, n: nat, k: Kind)
    requires IsRun(states, inputs) && n < |states|
    ensures WithinLimit(states[n], k)
  {
    if n > 0 {
      MissedWithinLimit(states, inputs, n - 1, k);
      assert StepAt(states, inputs, n - 1);
      MessageKeepsLimit(states[n - 1], inputs[n - 1], k);
      TickKeepsLimit(Receive(states[n - 1], inputs[n - 1]), inputs[n - 1].env, k);
    }
  }

  /** With a limit of at most 255 the 8-bit counter never wraps: a miss is counted only below the limit. */
  lemma CounterNeverWraps(states: seq<Runtime>, inputs: seq<Input>, n: nat, k: Kind)
    requires IsRun(states, inputs) && n < |inputs|
    requires Receive(states[n], inputs[n]).haap.retryTimes <= UINT8_MAX
    ensures var s := Receive(states[n], inputs[n]);
      var t := TunnelOf(s, k);
      HelloDue(t, Check(inputs[n].env, k), s.haap.helloInterval) && t.lastReceived != t.lastSent ==>
        t.missed < UINT8_MAX
  {
    MissedWithinLimit(states, inputs, n, k);
    MessageKeepsLimit(states[n], inputs[n], k);
  }

  // ---------------------------------------------------------------- echoes

  /** The timestamps of the hellos the client sent on `k` in the first `n` iterations. */
  ghost function Stamps(states: seq<Runtime>, inputs: seq<Input>, n: nat, k: Kind): set<int>
    requires n <= |inputs| < |states| && AllSane(inputs)
  {
    if n == 0 then {}
    else Stamps(states, inputs, n - 1, k)
         + (if HelloDue(TunnelOf(Receive(states[n - 1], inputs[n - 1]), k), Check(inputs[n - 1].env, k),
                        Receive(states[n - 1], inputs[n - 1]).haap.helloInterval)
            then {Stamp(inputs[n - 1].env, k)} else {})
  }

  /** Every timestamp in a hello of `k` is one of `stamps`. */
  ghost predicate Echoes(s: Runtime, i: Input, k: Kind, stamps: set<int>) {
    Handles(s, i, HELLO, k) ==>
      forall a :: a in i.incoming.value.message.attributes && a.id == TIMESTAMP && |a.value| == 8 ==>
        FromBe32(a.value[..4]) in stamps
  }

  /** The HAAP only ever echoes timestamps it was sent on the same tunnel. */
  ghost predicate HaapEchoes(states: seq<Runtime>, inputs: seq<Input>, k: Kind)
    requires IsSegment(states, inputs)
  {
    forall i :: 0 <= i < |inputs| ==> EchoesAt(states, inputs, k, i)
  }

  ghost predicate EchoesAt(states: seq<Runtime>, inputs: seq<Input>, k: Kind, i: nat)
    requires IsSegment(states, inputs) && i < |inputs|
  {
    Echoes(states[i], inputs[i], k, Stamps(states, inputs, i, k))
  }

  /** While a tunnel is established, nothing sent or echoed on it is newer than its last hello. */
  ghost predicate EchoInv(t: Tunnel, stamps: set<int>, clock: int) {
    && 0 <= clock && t.lastSent <= clock
    && (forall x :: x in stamps ==> x <= clock)
    && (t.established ==> t.lastReceived <= t.lastSent && forall x :: x in stamps ==> x <= t.lastSent)
  }

  lemma {:induction false} HelloEchoes(t: Tunnel, attrs: seq<Attribute>, stamps: set<int>)
    requires AllWellSized(HELLO, attrs)
    requires forall a :: a in attrs && a.id == TIMESTAMP && |a.value| == 8 ==> FromBe32(a.value[..4]) in stamps
    ensures HelloAll(t, attrs) == t || HelloAll(t, attrs).lastReceived in stamps
    decreases |attrs|
  {
    if attrs != [] {
      assert attrs[0] in attrs && WellSized(HELLO, attrs[0]);
      assert forall a :: a in attrs[1..] ==> a in attrs;
      HelloEchoes(HelloOne(t, attrs[0]), attrs[1..], stamps);
    }
  }

  lemma MessageKeepsEchoInv(s: Runtime, i: Input, k: Kind, stamps: set<int>, clock: int)
    requires Sane(i) && clock <= i.now
    requires EchoInv(TunnelOf(s, k), stamps, clock) && Echoes(s, i, k, stamps)
    ensures EchoInv(TunnelOf(Receive(s, i), k), stamps, i.now)
  {
    MessageEffect(s, i, k);
    if Handles(s, i, HELLO, k) {
      HelloEchoes(TunnelOf(s, k), i.incoming.value.message.attributes, stamps);
    }
  }

  lemma TickKeepsEchoInv(s: Runtime, i: Input, k: Kind, stamps: set<int>)
    requires Sane(i) && EchoInv(TunnelOf(s, k), stamps, i.now)
    ensures EchoInv(TunnelOf(Tick(s, i.env), k),
                    stamps + (if HelloDue(TunnelOf(s, k), Check(i.env, k), s.haap.helloInterval)
                              then {Stamp(i.env, k)} else {}),
                    i.env.dslStamp)
  {
  }

  function ClockBefore(inputs: seq<Input>, n: nat): nat
    requires n <= |inputs|
  {
    if n == 0 then 0 else inputs[n - 1].env.dslStamp
  }

  lemma {:induction false} EchoRunInv(states: seq<Runtime>, inputs: seq<Input>, n: nat, k: Kind)
    requires IsRun(states, inputs) && n < |states|
    requires HaapEchoes(states, inputs, k)
    ensures EchoInv(TunnelOf(states[n], k), Stamps(states, inputs, n, k), ClockBefore(inputs, n))
  {
    if n > 0 {
      var s, i := states[n - 1], inputs[n - 1];
      EchoRunInv(states, inputs, n - 1, k);
      assert StepAt(states, inputs, n - 1) && EchoesAt(states, inputs, k, n - 1);
      MessageKeepsEchoInv(s, i, k, Stamps(states, inputs, n - 1, k), ClockBefore(inputs, n - 1));
      TickKeepsEchoInv(Receive(s, i), i, k, Stamps(states, inputs, n - 1, k));
    }
  }

  // ---------------------------------------------------------------- dead peers are detected in time

  /** No message of this iteration is a hello or accept of `k`, or a teardown. */
  ghost predicate SilentAt(states: seq<Runtime>, inputs: seq<Input>, k: Kind, i: nat)
    requires i < |inputs| < |states|
  {
    var s, input := states[i], inputs[i];
    && !Handles(s, input, HELLO, k) && !Handles(s, input, ACCEPT, k)
    && !Handles(s, input, TEARDOWN, Lte) && !Handles(s, input, TEARDOWN, Dsl)
  }

  /** The limit in force at the `i`-th tick, and a bound on the interval. */
  ghost predicate LimitsAt(states: seq<Runtime>, inputs: seq<Input>, interval: nat, retryTimes: nat, i: nat)
    requires i < |inputs| < |states| && AllSane(inputs)
  {
    var h := Receive(states[i], inputs[i]).haap;
    h.helloInterval <= interval && h.retryTimes == retryTimes
  }

  /** The time `d` bounds what passes from one hello check, or `t0`, to the end of the next tick's hellos. */
  ghost predicate PromptAt(inputs: seq<Input>, k: Kind, t0: nat, d: nat, i: nat)
    requires i < |inputs|
  {
    Stamp(inputs[i].env, k) <= (if i == 0 then t0 else Check(inputs[i - 1].env, k)) + d
  }

  lemma SilenceKeepsTunnel(s: Runtime, i: Input, k: Kind)
    requires Sane(i)
    requires !Handles(s, i, HELLO, k) && !Handles(s, i, ACCEPT, k)
    requires !Handles(s, i, TEARDOWN, Lte) && !Handles(s, i, TEARDOWN, Dsl)
    ensures TunnelOf(Receive(s, i), k) == TunnelOf(s, k)
  {
    if i.incoming.Some? && i.incoming.value.message.msgtype == NOTIFY {
      NotifyKeeps(s, i.incoming.value.message.attributes);
    }
  }

  /**
   * While nothing is heard from time `t0` on: `n` hellos have gone unanswered, the
   * last was sent by `bound`, all but the first were counted, and no hello was due
   * at `last`, the last hello check.
   */
  ghost predicate Unanswered(t: Tunnel, n: nat, bound: int, last: int, t0: int, interval: nat, retryTimes: nat) {
    && t.established && n - 1 <= t.missed < retryTimes
    && t.lastSent <= bound && t0 <= bound
    && (if n == 0 then t.lastReceived <= t.lastSent else t.lastReceived < t.lastSent)
    && (last <= t.lastSent + interval || (n == 0 && last <= t0))
  }

  /** One beat without an answer: the count goes on in time, or the tunnel is declared dead. */
  lemma UnansweredBeat(s: Runtime, env: Env, k: Kind, n: nat, bound: int, last: int, t0: int, interval: nat, d: nat)
    requires s.haap.helloInterval <= interval && s.haap.retryTimes <= UINT8_MAX
    requires Unanswered(TunnelOf(s, k), n, bound, last, t0, interval, s.haap.retryTimes)
    requires last <= Check(env, k) <= Stamp(env, k) <= last + d && Stamp(env, k) <= UINT32_MAX
    ensures var t, due := Beat(s, k, env), HelloDue(TunnelOf(s, k), Check(env, k), s.haap.helloInterval);
      var n', bound' := if due then n + 1 else n, if due then bound + interval + d else bound;
      if t.established then Unanswered(t, n', bound', Check(env, k), t0, interval, s.haap.retryTimes)
      else due && Stamp(env, k) <= bound'
  {
  }

  lemma TickTunnel(s: Runtime, env: Env, k: Kind)
    ensures TunnelOf(Tick(s, env), k) == AfterReset(Beat(s, k, env), s.created)
  {
  }

  /** The time by which the `n`-th unanswered hello was sent. */
  ghost function Deadline(t0: int, p: nat, n: nat): int {
    if n == 0 then t0 else Deadline(t0, p, n - 1) + p
  }

  lemma {:induction false} DeadlineIs(t0: int, p: nat, n: nat)
    ensures Deadline(t0, p, n) == t0 + n * p
  {
    if n > 0 {
      DeadlineIs(t0, p, n - 1);
      assert n * p == (n - 1) * p + p;
    }
  }

  lemma {:induction false} DeadlineGrows(t0: int, p: nat, m: nat, n: nat)
    requires m <= n
    ensures t0 <= Deadline(t0, p, m) <= Deadline(t0, p, n)
    decreases n
  {
    if m < n {
      DeadlineGrows(t0, p, m, n - 1);
    } else if n > 0 {
      DeadlineGrows(t0, p, n - 1, n - 1);
    }
  }

  /** One silent iteration, with the time of the hellos in terms of the number unanswered. */
  lemma SilentIteration(s: Runtime, i: Input, k: Kind, n: nat, last: int,
                        t0: int, interval: nat, d: nat, retryTimes: nat)
      returns (n': nat)
    requires Sane(i) && retryTimes <= UINT8_MAX
    requires !Handles(s, i, HELLO, k) && !Handles(s, i, ACCEPT, k)
    requires !Handles(s, i, TEARDOWN, Lte) && !Handles(s, i, TEARDOWN, Dsl)
    requires Receive(s, i).haap.helloInterval <= interval && Receive(s, i).haap.retryTimes == retryTimes
    requires last <= Check(i.env, k) && Stamp(i.env, k) <= last + d
    requires Unanswered(TunnelOf(s, k), n, Deadline(t0, interval + d, n), last, t0, interval, retryTimes)
    ensures var t := TunnelOf(Next(s, i), k);
      if t.established then
        n' <= retryTimes
        && Unanswered(t, n', Deadline(t0, interval + d, n'), Check(i.env, k), t0, interval, retryTimes)
      else Stamp(i.env, k) <= Deadline(t0, interval + d, retryTimes + 1)
  {
    var r := Receive(s, i);
    SilenceKeepsTunnel(s, i, k);
    UnansweredBeat(r, i.env, k, n, Deadline(t0, interval + d, n), last, t0, interval, d);
    TickTunnel(r, i.env, k);
    n' := if HelloDue(TunnelOf(r, k), Check(i.env, k), r.haap.helloInterval) then n + 1 else n;
    hide Tick, Beat, Receive, Process;
    if n' <= retryTimes + 1 {
      DeadlineGrows(t0, interval + d, n', retryTimes + 1);
    }
  }

  /**
   * Dead-peer detection. With ticks at most `d` apart and an interval of at most
   * `interval`, if from time t0 on nothing is heard for an established tunnel, then
   * some tick takes it down no later than t0 + (retry limit + 1) * (interval + d).
   */
  lemma DeadPeerDetected(states: seq<Runtime>, inputs: seq<Input>, k: Kind,
                         t0: nat, d: nat, interval: nat, retryTimes: nat)
      returns (j: nat)
    requires IsSegment(states, inputs) && 1 <= retryTimes <= UINT8_MAX
    requires var t := TunnelOf(states[0], k);
      t.established && t.missed < retryTimes && t.lastReceived <= t.lastSent <= t0
    requires |inputs| > 0 && t0 <= inputs[0].now
    requires forall i :: 0 <= i < |inputs| ==> SilentAt(states, inputs, k, i)
    requires forall i :: 0 <= i < |inputs| ==> LimitsAt(states, inputs, interval, retryTimes, i)
    requires forall i :: 0 <= i < |inputs| ==> PromptAt(inputs, k, t0, d, i)
    // the run goes on long enough to contain the tick
    requires Check(inputs[|inputs| - 1].env, k) > t0 + retryTimes * (interval + d) + interval
    ensures j < |inputs|
    ensures TunnelOf(states[j], k).established && !TunnelOf(states[j + 1], k).established
    ensures Stamp(inputs[j].env, k) <= t0 + (retryTimes + 1) * (interval + d)
  {
    var p := interval + d;
    var n: nat, last: int := 0, t0;
    DeadlineIs(t0, p, retryTimes);
    DeadlineIs(t0, p, retryTimes + 1);
    hide Unanswered, Tick, Receive, Deadline;
    j := 0;
    StartsUnanswered(TunnelOf(states[0], k), t0, p, interval, retryTimes);
    while j < |inputs|
      invariant 0 <= j <= |inputs| && 0 <= n
      invariant last == if j == 0 then t0 as int else Check(inputs[j - 1].env, k)
      invariant Unanswered(TunnelOf(states[j], k), n, Deadline(t0, p, n), last, t0, interval, retryTimes)
    {
      assert StepAt(states, inputs, j) && SilentAt(states, inputs, k, j);
      assert LimitsAt(states, inputs, interval, retryTimes, j) && PromptAt(inputs, k, t0, d, j);
      assert Sane(inputs[j]) && (j > 0 ==> Sane(inputs[j - 1]));
      UnansweredFacts(TunnelOf(states[j], k), n, Deadline(t0, p, n), last, t0, interval, retryTimes);
      n := SilentIteration(states[j], inputs[j], k, n, last, t0, interval, d, retryTimes);
      if !TunnelOf(states[j + 1], k).established {
        return;
      }
      last := Check(inputs[j].env, k);
      j := j + 1;
    }
    UnansweredFacts(TunnelOf(states[j], k), n, Deadline(t0, p, n), last, t0, interval, retryTimes);
    DeadlineGrows(t0, p, n, retryTimes);
    assert false;
  }

  lemma StartsUnanswered(t: Tunnel, t0: nat, p: nat, interval: nat, retryTimes: nat)
    requires t.established && t.missed < retryTimes && t.lastReceived <= t.lastSent <= t0
    ensures Unanswered(t, 0, Deadline(t0, p, 0), t0, t0, interval, retryTimes)
  {
  }

  lemma UnansweredFacts(t: Tunnel, n: nat, bound: int, last: int, t0: int, interval: nat, retryTimes: nat)
    requires Unanswered(t, n, bound, last, t0, interval, retryTimes)
    ensures t.established && n <= retryTimes && last <= bound + interval
  {
  }

  /** The end of a segment is a segment. */
  lemma SegmentSuffix(states: seq<Runtime>, inputs: seq<Input>, i0: nat)
    requires IsSegment(states, inputs) && i0 <= |inputs|
    ensures IsSegment(states[i0..], inputs[i0..])
  {
    forall i | 0 <= i < |inputs| - i0
      ensures StepAt(states[i0..], inputs[i0..], i)
    {
      assert StepAt(states, inputs, i0 + i);
    }
  }

  /** Along a segment a limit that is set stays, and the interval only changes from 0. */
  lemma {:induction false} LimitsStay(states: seq<Runtime>, inputs: seq<Input>, i: nat, n: nat)
    requires IsSegment(states, inputs) && i <= n < |states|
    ensures states[i].haap.retryTimes != 0 ==> states[n].haap.retryTimes == states[i].haap.retryTimes
    ensures states[i].haap.helloInterval <= states[n].haap.helloInterval
    decreases n
  {
    if i < n {
      LimitsStay(states, inputs, i, n - 1);
      LimitsAfterTick(states, inputs, n - 1);
      MessageKeepsLimits(states[n - 1], inputs[n - 1]);
    }
  }

  /** The limits in force at a tick are those it leaves. */
  lemma LimitsAfterTick(states: seq<Runtime>, inputs: seq<Input>, i: nat)
    requires IsSegment(states, inputs) && i < |inputs|
    ensures var h, h' := Receive(states[i], inputs[i]).haap, states[i + 1].haap;
      h.helloInterval == h'.helloInterval && h.retryTimes == h'.retryTimes
  {
    assert StepAt(states, inputs, i);
  }

  /**
   * From iteration `i0` on nothing is heard for `k`, at whose last tick end it was
   * established, and ticks are at most `d` apart.
   */
  ghost predicate SilentFrom(states: seq<Runtime>, inputs: seq<Input>, k: Kind, i0: nat, d: nat)
    requires i0 < |inputs| < |states|
  {
    && TunnelOf(states[i0], k).established
    && (forall i :: 0 <= i < |inputs| - i0 ==> SilentAt(states[i0..], inputs[i0..], k, i))
    && (forall i :: 0 <= i < |inputs| - i0 ==> PromptAt(inputs[i0..], k, ClockBefore(inputs, i0), d, i))
  }

  /** By `deadline` some tick took the tunnel down. */
  ghost predicate DownBy(states: seq<Runtime>, inputs: seq<Input>, k: Kind, i0: nat, deadline: int, j: nat)
    requires |inputs| < |states|
  {
    && i0 <= j < |inputs|
    && TunnelOf(states[j], k).established && !TunnelOf(states[j + 1], k).established
    && Stamp(inputs[j].env, k) <= deadline
  }

  /**
   * Dead-peer detection in a run: what the segment lemma assumes of its first state
   * and of the limits holds from every tick of a run in which the HAAP only echoes.
   */
  lemma DeadPeerDetectedInRun(states: seq<Runtime>, inputs: seq<Input>, k: Kind, i0: nat, d: nat)
      returns (j: nat)
    requires IsRun(states, inputs) && HaapEchoes(states, inputs, k)
    requires i0 < |inputs| && SilentFrom(states, inputs, k, i0, d)
    requires states[i0].haap.retryTimes <= UINT8_MAX
    // the run goes on long enough to contain the tick
    requires var retryTimes, interval := states[i0].haap.retryTimes, states[|inputs|].haap.helloInterval;
      Check(inputs[|inputs| - 1].env, k) > ClockBefore(inputs, i0) + retryTimes * (interval + d) + interval
    ensures var retryTimes, interval := states[i0].haap.retryTimes, states[|inputs|].haap.helloInterval;
      DownBy(states, inputs, k, i0, ClockBefore(inputs, i0) + (retryTimes + 1) * (interval + d), j)
  {
    hide Tick, Receive, EchoesAt;
    var retryTimes, interval: nat := states[i0].haap.retryTimes, states[|inputs|].haap.helloInterval;
    MissedWithinLimit(states, inputs, i0, k);
    EchoRunInv(states, inputs, i0, k);
    SegmentSuffix(states, inputs, i0);
    assert StepAt(states, inputs, i0);
    var ss, ii := states[i0..], inputs[i0..];
    forall i | 0 <= i < |ii|
      ensures LimitsAt(ss, ii, interval, retryTimes, i)
    {
      LimitsAfterTick(states, inputs, i0 + i);
      LimitsStay(states, inputs, i0, i0 + i + 1);
      LimitsStay(states, inputs, i0 + i + 1, |inputs|);
    }
    var j0 := DeadPeerDetected(ss, ii, k, ClockBefore(inputs, i0), d, interval, retryTimes);
    j := i0 + j0;
  }

  /** A silent tunnel with a limit beyond the counter stays up, however long the silence lasts. */
  lemma {:induction false} BeyondCounterNeverDead(states: seq<Runtime>, inputs: seq<Input>, k: Kind, i0: nat, d: nat,
                                                  n: nat)
    requires IsSegment(states, inputs) && i0 < |inputs| && SilentFrom(states, inputs, k, i0, d)
    requires states[i0].haap.retryTimes > UINT8_MAX && i0 <= n < |states|
    ensures TunnelOf(states[n], k).established
    decreases n
  {
    if n > i0 {
      var s, i := states[n - 1], inputs[n - 1];
      BeyondCounterNeverDead(states, inputs, k, i0, d, n - 1);
      assert SilentAt(states[i0..], inputs[i0..], k, n - 1 - i0);
      LimitsStay(states, inputs, i0, n);
      LimitsAfterTick(states, inputs, n - 1);
      SilenceKeepsTunnel(s, i, k);
      TickTunnel(Receive(s, i), i.env, k);
      assert StepAt(states, inputs, n - 1);
    }
  }

  /**
   * A tunnel that falls silent is taken down within (limit + 1) * (interval + d)
   * exactly if the limit fits the 8-bit counter; otherwise it is never taken down.
   * The limit is at least 1: with limit 0 no tunnel is established after any tick.
   */
  lemma DeadPeerIffLimitFits(states: seq<Runtime>, inputs: seq<Input>, k: Kind, i0: nat, d: nat)
    requires IsRun(states, inputs) && HaapEchoes(states, inputs, k)
    requires i0 < |inputs| && SilentFrom(states, inputs, k, i0, d)
    // the run goes on long enough to contain the tick
    requires var retryTimes, interval := states[i0].haap.retryTimes, states[|inputs|].haap.helloInterval;
      Check(inputs[|inputs| - 1].env, k) > ClockBefore(inputs, i0) + retryTimes * (interval + d) + interval
    ensures states[i0].haap.retryTimes >= 1
    ensures var deadline := ClockBefore(inputs, i0)
                            + (states[i0].haap.retryTimes + 1) * (states[|inputs|].haap.helloInterval + d);
      states[i0].haap.retryTimes <= UINT8_MAX <==> exists j :: DownBy(states, inputs, k, i0, deadline, j)
  {
    MissedWithinLimit(states, inputs, i0, k);
    if states[i0].haap.retryTimes <= UINT8_MAX {
      var j := DeadPeerDetectedInRun(states, inputs, k, i0, d);
    } else {
      forall n | i0 <= n < |states|
        ensures TunnelOf(states[n], k).established
      {
        BeyondCounterNeverDead(states, inputs, k, i0, d, n);
      }
    }
  }

  // ---------------------------------------------------------------- no early death

  lemma HelloAllIs(t: Tunnel, attrs: seq<Attribute>)
    requires AllWellSized(HELLO, attrs)
    ensures HelloAll(t, attrs) ==
      if EchoOf(attrs).Some? then t.(lastReceived := EchoOf(attrs).value, missed := 0) else t
  {
    HelloRecords(t, attrs);
  }

  /**
   * A hello that comes back octet for octet is taken for what it is: the echo of the
   * timestamp that was sent, which clears the count of missed hellos and nothing else.
   */
  lemma HelloEchoRoundTrip(s: Runtime, k: Kind, seconds: uint32, milliseconds: uint32, behind: Bytes, now: nat)
    ensures var sent := Sent(s.haap.ip, s.haap.bondingKey, Hello(k, seconds, milliseconds));
      var frame := DatagramOf(sent).frame;
      var m := Decode(frame + behind, |frame|);
      && AllWellSized(m.msgtype, m.attributes)
      && Process(s, s.haap.ip, m, now) ==
           WithTunnel(s, k, TunnelOf(s, k).(lastReceived := seconds, missed := 0))
  {
    var attrs := AttributesOf(Hello(k, seconds, milliseconds));
    FramedIsHandled(s, HELLO, k, attrs, behind);
    FramedDecodes(HELLO, TunType(k), s.haap.bondingKey, attrs, behind);
    Be32RoundTrip(seconds);
    assert attrs[0].value[..4] == Be32(seconds);
    assert LastOf(attrs[1..][1..], 5) == None && LastOf(attrs[1..], 5) == None;
    HelloAllIs(TunnelOf(s, k), attrs);
  }

  /** The timestamp of the last hello of `k` processed in the first `n` iterations, or 0. */
  ghost function LastEcho(states: seq<Runtime>, inputs: seq<Input>, n: nat, k: Kind): int
    requires n <= |inputs| < |states| && AllSane(inputs)
  {
    if n == 0 then 0
    else EchoAfter(states[n - 1], inputs[n - 1], k, LastEcho(states, inputs, n - 1, k))
  }

  ghost function EchoAfter(s: Runtime, i: Input, k: Kind, h: int): int
    requires Sane(i)
  {
    if Handles(s, i, HELLO, k) && EchoOf(i.incoming.value.message.attributes).Some? then
      EchoOf(i.incoming.value.message.attributes).value
    else h
  }

  /** Each counted miss took at least `p` seconds since the last echo `h`. */
  ghost predicate Paced(t: Tunnel, h: int, p: nat, clock: int) {
    && Deadline(h, p, t.missed) <= clock
    && (t.established ==> Deadline(h, p, t.missed) <= t.lastSent)
  }

  lemma MessageKeepsPace(s: Runtime, i: Input, k: Kind, h: int, p: nat, stamps: set<int>, clock: int)
    requires Sane(i) && 0 <= clock <= i.now
    requires Paced(TunnelOf(s, k), h, p, clock)
    requires EchoInv(TunnelOf(s, k), stamps, clock) && Echoes(s, i, k, stamps)
    ensures Paced(TunnelOf(Receive(s, i), k), EchoAfter(s, i, k, h), p, i.now)
  {
    MessageEffect(s, i, k);
    MessageKeepsEchoInv(s, i, k, stamps, clock);
    if Handles(s, i, HELLO, k) {
      HelloAllIs(TunnelOf(s, k), i.incoming.value.message.attributes);
      EchoIsStamp(i.incoming.value.message.attributes, stamps);
    }
  }

  lemma EchoIsStamp(attrs: seq<Attribute>, stamps: set<int>)
    requires AllWellSized(HELLO, attrs)
    requires forall a :: a in attrs && a.id == TIMESTAMP && |a.value| == 8 ==> FromBe32(a.value[..4]) in stamps
    ensures EchoOf(attrs).Some? ==> EchoOf(attrs).value in stamps
  {
    HelloRecords(Tunnel(false, 0, 0, 0), attrs);
    LastOfIs(attrs, 5);
  }

  lemma BeatKeepsPace(s: Runtime, env: Env, k: Kind, h: int, p: nat, now: int)
    requires p <= s.haap.helloInterval + 1
    requires Paced(TunnelOf(s, k), h, p, now) && TunnelOf(s, k).lastSent <= now
    requires now <= Check(env, k) <= Stamp(env, k) <= UINT32_MAX
    ensures var t := AfterHello(TunnelOf(s, k), Check(env, k), Stamp(env, k), s.haap.helloInterval);
      Paced(t, h, p, Stamp(env, k)) && t.lastSent <= Stamp(env, k)
  {
    var t := TunnelOf(s, k);
    DeadlineGrows(h, p, 0, t.missed);
    assert Deadline(h, p, t.missed + 1) == Deadline(h, p, t.missed) + p;
  }

  lemma TickKeepsPace(s: Runtime, i: Input, k: Kind, h: int, p: nat)
    requires Sane(i) && p <= s.haap.helloInterval + 1
    requires Paced(TunnelOf(s, k), h, p, i.now) && TunnelOf(s, k).lastSent <= i.now
    ensures Paced(TunnelOf(Tick(s, i.env), k), h, p, i.env.dslStamp)
  {
    BeatKeepsPace(s, i.env, k, h, p, i.now);
    TickTunnel(s, i.env, k);
    var t := AfterHello(TunnelOf(s, k), Check(i.env, k), Stamp(i.env, k), s.haap.helloInterval);
    DeadlineGrows(h, p, 0, t.missed);
  }

  /** The interval in force at the `i`-th tick is at least `interval`. */
  ghost predicate IntervalAt(states: seq<Runtime>, inputs: seq<Input>, interval: nat, i: nat)
    requires i < |inputs| < |states| && AllSane(inputs)
  {
    interval <= Receive(states[i], inputs[i]).haap.helloInterval
  }

  /** The last echo is one of the timestamps sent, if there is any; timestamps are natural numbers. */
  lemma {:induction false} LastEchoIsStamp(states: seq<Runtime>, inputs: seq<Input>, n: nat, k: Kind)
    requires IsRun(states, inputs) && HaapEchoes(states, inputs, k) && n < |states|
    ensures var h := LastEcho(states, inputs, n, k); h == 0 || h in Stamps(states, inputs, n, k)
    ensures TunnelOf(states[n], k).lastSent >= 0
  {
    if n > 0 {
      var s, i := states[n - 1], inputs[n - 1];
      LastEchoIsStamp(states, inputs, n - 1, k);
      assert StepAt(states, inputs, n - 1) && EchoesAt(states, inputs, k, n - 1);
      MessageEffect(s, i, k);
      TickTunnel(Receive(s, i), i.env, k);
      hide Receive, Tick;
      if Handles(s, i, HELLO, k) {
        EchoIsStamp(i.incoming.value.message.attributes, Stamps(states, inputs, n - 1, k));
      }
    }
  }

  lemma {:induction false} PaceRunInv(states: seq<Runtime>, inputs: seq<Input>, i0: nat, n: nat, k: Kind, interval: nat)
    requires IsRun(states, inputs) && HaapEchoes(states, inputs, k) && i0 <= n < |states|
    requires TunnelOf(states[i0], k).missed == 0
    requires forall i :: i0 <= i < n ==> IntervalAt(states, inputs, interval, i)
    ensures Paced(TunnelOf(states[n], k), LastEcho(states, inputs, n, k), interval + 1, ClockBefore(inputs, n))
    decreases n
  {
    if n == i0 {
      EchoRunInv(states, inputs, n, k);
      LastEchoIsStamp(states, inputs, n, k);
    } else {
      var s, i := states[n - 1], inputs[n - 1];
      PaceRunInv(states, inputs, i0, n - 1, k, interval);
      EchoRunInv(states, inputs, n - 1, k);
      assert StepAt(states, inputs, n - 1) && EchoesAt(states, inputs, k, n - 1);
      assert IntervalAt(states, inputs, interval, n - 1);
      var h, stamps := LastEcho(states, inputs, n - 1, k), Stamps(states, inputs, n - 1, k);
      hide Tick, Receive, Stamps;
      MessageKeepsPace(s, i, k, h, interval + 1, stamps, ClockBefore(inputs, n - 1));
      MessageKeepsEchoInv(s, i, k, stamps, ClockBefore(inputs, n - 1));
      TickKeepsPace(Receive(s, i), i, k, EchoAfter(s, i, k, h), interval + 1);
    }
  }

  /** The `n`-th tick takes `k` down. */
  ghost predicate DiesAt(states: seq<Runtime>, inputs: seq<Input>, k: Kind, n: nat)
    requires n < |inputs| < |states| && AllSane(inputs)
  {
    TunnelOf(Receive(states[n], inputs[n]), k).established && !TunnelOf(states[n + 1], k).established
  }

  /**
   * No early death: from any iteration without misses on, with an interval of at least
   * `interval`, the hello check takes a tunnel down no sooner than
   * retry limit * (interval + 1) seconds after the timestamp of the last hello
   * processed for it.
   */
  lemma NoEarlyDeath(states: seq<Runtime>, inputs: seq<Input>, i0: nat, n: nat, k: Kind, interval: nat)
    requires IsRun(states, inputs) && HaapEchoes(states, inputs, k) && i0 <= n < |inputs|
    requires TunnelOf(states[i0], k).missed == 0
    requires forall i :: i0 <= i <= n ==> IntervalAt(states, inputs, interval, i)
    requires DiesAt(states, inputs, k, n)
    ensures Stamp(inputs[n].env, k) >=
      LastEcho(states, inputs, n + 1, k) + Receive(states[n], inputs[n]).haap.retryTimes * (interval + 1)
  {
    var s, i := states[n], inputs[n];
    var r := Receive(s, i);
    PaceRunInv(states, inputs, i0, n, k, interval);
    EchoRunInv(states, inputs, n, k);
    assert StepAt(states, inputs, n) && EchoesAt(states, inputs, k, n) && IntervalAt(states, inputs, interval, n);
    var h, h' := LastEcho(states, inputs, n, k), LastEcho(states, inputs, n + 1, k);
    var stamps := Stamps(states, inputs, n, k);
    hide Receive, Stamps, LastEcho, EchoAfter, EchoInv, Deadline, Echoes;
    MessageKeepsPace(s, i, k, h, interval + 1, stamps, ClockBefore(inputs, n));
    MessageKeepsEchoInv(s, i, k, stamps, ClockBefore(inputs, n));
    BeatKeepsPace(r, i.env, k, h', interval + 1, i.now);
    TickTunnel(r, i.env, k);
    var t := AfterHello(TunnelOf(r, k), Check(i.env, k), Stamp(i.env, k), r.haap.helloInterval);
    assert t.missed >= r.haap.retryTimes;
    DeadlineGrows(h', interval + 1, r.haap.retryTimes, t.missed);
    DeadlineIs(h', interval + 1, r.haap.retryTimes);
  }

  /** Until a tunnel is first established it misses nothing. */
  lemma {:induction false} NeverUpNoMiss(states: seq<Runtime>, inputs: seq<Input>, n: nat, k: Kind)
    requires IsRun(states, inputs) && n < |states|
    requires forall i :: 0 <= i < n ==> !TunnelOf(Receive(states[i], inputs[i]), k).established
    ensures TunnelOf(states[n], k).missed == 0
  {
    if n > 0 {
      var s, i := states[n - 1], inputs[n - 1];
      NeverUpNoMiss(states, inputs, n - 1, k);
      assert StepAt(states, inputs, n - 1);
      MessageEffect(s, i, k);
      TickTunnel(Receive(s, i), i.env, k);
      hide Receive, Tick;
    }
  }

  /**
   * No early death after the first accept: if no iteration before `i0` has left `k`
   * established, the interval in force once `i0` has handled its message, an accept
   * that fills it in or any other, paces every later death of the tunnel.
   */
  lemma NoEarlyDeathAfterAccept(states: seq<Runtime>, inputs: seq<Input>, i0: nat, n: nat, k: Kind)
    requires IsRun(states, inputs) && HaapEchoes(states, inputs, k) && i0 <= n < |inputs|
    requires forall i :: 0 <= i < i0 ==> !TunnelOf(Receive(states[i], inputs[i]), k).established
    requires DiesAt(states, inputs, k, n)
    ensures Stamp(inputs[n].env, k) >=
      LastEcho(states, inputs, n + 1, k)
      + Receive(states[n], inputs[n]).haap.retryTimes * (Receive(states[i0], inputs[i0]).haap.helloInterval + 1)
  {
    var interval := Receive(states[i0], inputs[i0]).haap.helloInterval;
    NeverUpNoMiss(states, inputs, i0, k);
    forall i | i0 <= i <= n
      ensures IntervalAt(states, inputs, interval, i)
    {
      LimitsAfterTick(states, inputs, i0);
      LimitsStay(states, inputs, i0 + 1, i + 1);
      LimitsAfterTick(states, inputs, i);
    }
    NoEarlyDeath(states, inputs, i0, n, k, interval);
  }

  // ---------------------------------------------------------------- healthy runs

  /** A hello of `k` is due at the `i`-th tick. */
  ghost predicate DueAt(states: seq<Runtime>, inputs: seq<Input>, k: Kind, i: nat)
    requires i < |inputs| < |states| && AllSane(inputs)
  {
    var s := Receive(states[i], inputs[i]);
    HelloDue(TunnelOf(s, k), Check(inputs[i].env, k), s.haap.helloInterval)
  }

  /** The `i`-th message echoes the last hello sent on `k`. */
  ghost predicate EchoAt(states: seq<Runtime>, inputs: seq<Input>, k: Kind, i: nat)
    requires i < |inputs| < |states| && AllSane(inputs)
  {
    && Handles(states[i], inputs[i], HELLO, k)
    && EchoOf(inputs[i].incoming.value.message.attributes) == Some(TunnelOf(states[i], k).lastSent as int)
  }

  /** A hello with a timestamp is the echo of the last one sent. */
  ghost predicate InOrderAt(states: seq<Runtime>, inputs: seq<Input>, k: Kind, i: nat)
    requires i < |inputs| < |states| && AllSane(inputs)
  {
    Handles(states[i], inputs[i], HELLO, k) && EchoOf(inputs[i].incoming.value.message.attributes).Some? ==>
      EchoAt(states, inputs, k, i)
  }

  /** The hello of tick `i` is still unanswered after `n` iterations, and no other was sent since. */
  ghost predicate Outstanding(states: seq<Runtime>, inputs: seq<Input>, k: Kind, i: nat, n: nat)
    requires i < n <= |inputs| < |states| && AllSane(inputs)
  {
    && DueAt(states, inputs, k, i)
    && forall l :: i < l < n ==> !DueAt(states, inputs, k, l) && !EchoAt(states, inputs, k, l)
  }

  /** Every hello's echo is processed before the next hello is due. */
  ghost predicate PromptEchoes(states: seq<Runtime>, inputs: seq<Input>, k: Kind)
    requires IsSegment(states, inputs)
  {
    forall i, j :: 0 <= i < j < |inputs| && DueAt(states, inputs, k, i) && DueAt(states, inputs, k, j)
      && (forall l :: i < l < j ==> !DueAt(states, inputs, k, l))
      ==> exists m :: i < m <= j && EchoAt(states, inputs, k, m)
  }

  /**
   * Healthy runs: from an accept with no missed hello on, if every echo is processed
   * before the next hello is due, no hello ever counts as missed, and with a limit of
   * at least 1 no tick takes the tunnel down.
   */
  lemma {:induction false} HealthyRun(states: seq<Runtime>, inputs: seq<Input>, k: Kind, n: nat)
    requires IsSegment(states, inputs) && n <= |inputs|
    requires TunnelOf(states[0], k).missed == 0
    requires TunnelOf(states[0], k).lastReceived == TunnelOf(states[0], k).lastSent
    requires forall i :: 0 <= i < |inputs| ==> InOrderAt(states, inputs, k, i)
    requires PromptEchoes(states, inputs, k)
    ensures var t := TunnelOf(states[n], k);
      t.missed == 0
      && (t.lastReceived == t.lastSent || exists i :: 0 <= i < n && Outstanding(states, inputs, k, i, n))
    ensures n > 0 && Receive(states[n - 1], inputs[n - 1]).haap.retryTimes >= 1 ==>
      TunnelOf(states[n], k).established == TunnelOf(Receive(states[n - 1], inputs[n - 1]), k).established
  {
    if n > 0 {
      var j := n - 1;
      var r := Receive(states[j], inputs[j]);
      HealthyRun(states, inputs, k, j);
      assert StepAt(states, inputs, j) && InOrderAt(states, inputs, k, j);
      EchoAnswers(states, inputs, k, j);
      hide Tick, Receive, EchoAt, InOrderAt, PromptEchoes, IsSegment;
      if TunnelOf(r, k).lastReceived != TunnelOf(r, k).lastSent {
        var i :| 0 <= i < j && Outstanding(states, inputs, k, i, j);
        StillOutstanding(states, inputs, k, i, j);
      } else if DueAt(states, inputs, k, j) {
        assert Outstanding(states, inputs, k, j, n);
      }
      AnsweredBeat(r, inputs[j].env, k);
    }
  }

  /** Without its echo, an outstanding hello stays outstanding, and by prompt echoes none is due. */
  lemma StillOutstanding(states: seq<Runtime>, inputs: seq<Input>, k: Kind, i: nat, j: nat)
    requires IsSegment(states, inputs) && PromptEchoes(states, inputs, k)
    requires i < j < |inputs| && Outstanding(states, inputs, k, i, j) && !EchoAt(states, inputs, k, j)
    ensures !DueAt(states, inputs, k, j) && Outstanding(states, inputs, k, i, j + 1)
  {
    hide DueAt, EchoAt;
  }

  /** A tick that finds every due hello answered counts no miss and takes nothing down. */
  lemma AnsweredBeat(s: Runtime, env: Env, k: Kind)
    requires var t := TunnelOf(s, k);
      t.missed == 0 && (HelloDue(t, Check(env, k), s.haap.helloInterval) ==> t.lastReceived == t.lastSent)
    ensures var t, t' := TunnelOf(s, k), TunnelOf(Tick(s, env), k);
      && t'.missed == 0
      && (s.haap.retryTimes >= 1 ==> t'.established == t.established)
      && (!HelloDue(t, Check(env, k), s.haap.helloInterval) ==>
            t'.lastReceived == t'.lastSent || (t'.lastReceived == t.lastReceived && t'.lastSent == t.lastSent))
  {
    TickTunnel(s, env, k);
  }

  /** A message in order leaves the last hello answered, or changes nothing that counts. */
  lemma EchoAnswers(states: seq<Runtime>, inputs: seq<Input>, k: Kind, j: nat)
    requires IsSegment(states, inputs) && j < |inputs| && InOrderAt(states, inputs, k, j)
    ensures var t, t' := TunnelOf(states[j], k), TunnelOf(Receive(states[j], inputs[j]), k);
      && (t.missed == 0 ==> t'.missed == 0)
      && (t'.lastReceived == t'.lastSent
          || (!EchoAt(states, inputs, k, j) && t'.lastReceived == t.lastReceived && t'.lastSent == t.lastSent))
  {
    MessageEffect(states[j], inputs[j], k);
    if Handles(states[j], inputs[j], HELLO, k) {
      HelloAllIs(TunnelOf(states[j], k), inputs[j].incoming.value.message.attributes);
    }
  }
}
