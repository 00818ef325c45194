/**
 * The session with the HAAP over whole runs: what an outage clears, what a surviving
 * tunnel keeps, and the acknowledgement of filter lists.
 */
module Session {
  import opened Bytes
  import opened Wrappers
  import opened Grecp
  import opened Control
  import opened Keepalive
  import opened Messages
  import opened Wire

  // ---------------------------------------------------------------- session lifetime

  /** Nothing of a session is left. */
  predicate NoSession(s: Runtime) {
    && s.haap.ip == s.haap.anycast && s.haap.bondingKey == 0 && s.haap.sessionId == 0
    && s.haap.commitCount == 0 && !s.acked
  }

  /** A tick that ends with both tunnels down leaves no session. */
  lemma {:induction false} OutageForgets(states: seq<Runtime>, inputs: seq<Input>, n: nat)
    requires IsRun(states, inputs) && n < |states|
    ensures BothDown(states[n]) ==> NoSession(states[n])
  {
    if n > 0 {
      assert StepAt(states, inputs, n - 1);
    }
  }

  /** No accept is handled in this iteration. */
  predicate NoAccept(s: Runtime, i: Input) {
    !Handles(s, i, ACCEPT, Lte) && !Handles(s, i, ACCEPT, Dsl)
  }

  /** Only an accept changes the address, the key or the session number. */
  lemma OnlyAcceptChangesSession(s: Runtime, i: Input)
    requires Sane(i) && NoAccept(s, i)
    ensures var r := Receive(s, i);
      r.haap.ip == s.haap.ip && r.haap.bondingKey == s.haap.bondingKey && r.haap.sessionId == s.haap.sessionId
  {
    if i.incoming.Some? && i.incoming.value.message.msgtype == NOTIFY {
      NotifyKeeps(s, i.incoming.value.message.attributes);
    }
  }

  /** A request goes where the state points, with its key and session number, for the tunnel wanted. */
  predicate Carries(s: Runtime, m: Sent) {
    m.body.Request? ==>
      && m.to == s.haap.ip && m.key == s.haap.bondingKey
      && m.body.session == SessionOf(s) && Wanted(s) == Some(m.body.kind)
  }

  predicate AllCarry(s: Runtime, ms: seq<Sent>) {
    forall m :: m in ms ==> Carries(s, m)
  }

  lemma CarryConcat(s: Runtime, a: seq<Sent>, b: seq<Sent>)
    requires AllCarry(s, a) && AllCarry(s, b)
    ensures AllCarry(s, a + b)
  {
  }

  /** So do all requests of a tick. */
  lemma RequestsCarrySession(s: Runtime, env: Env)
    ensures AllCarry(s, Outgoing(s, env))
  {
    var hellos := SendHello(s, Lte, env) + SendHello(s, Dsl, env);
    CarryConcat(s, SendHello(s, Lte, env), SendHello(s, Dsl, env));
    CarryConcat(s, SendRequest(s, env), SendAck(s, env));
    CarryConcat(s, SendRequest(s, env) + SendAck(s, env), SendVerification(s, env));
    hide AllCarry, SendHello, SendRequest, SendAck, SendVerification;
    CarryConcat(s, SessionMessages(s, env), hellos);
  }

  /** On the network: what a receiver reads from a request is the session of the state. */
  lemma RequestsAreRead(s: Runtime, env: Env, d: Datagram)
    requires d in Datagrams(Outgoing(s, env))
    ensures |d.frame| >= 9
    ensures IsRequest(Seen(d)) ==>
      && d.to == s.haap.ip && Seen(d).key == s.haap.bondingKey && HasSession(Seen(d), s.haap.sessionId)
      && Seen(d).tuntype == (if !s.lte.established then 0 else 8)
  {
    var m := DatagramIsSent(Outgoing(s, env), d);
    RequestsCarrySession(s, env);
    hide Outgoing, Datagrams, Seen, IsRequest, HasSession, DatagramOf;
    SentIsRead(m);
  }

  /**
   * From the second tick of an outage on, every datagram that asks for a tunnel goes to
   * the anycast address with key 0, for LTE, and without a session number.
   */
  lemma OutageRequests(states: seq<Runtime>, inputs: seq<Input>, n: nat)
    requires IsRun(states, inputs) && n < |inputs|
    requires BothDown(states[n]) && NoAccept(states[n], inputs[n])
    ensures forall d :: d in Datagrams(Sends(states[n], inputs[n])) ==> |d.frame| >= 9
    ensures forall d :: d in Datagrams(Sends(states[n], inputs[n])) && IsRequest(Seen(d)) ==>
      && d.to == states[n].haap.anycast && Seen(d).key == 0 && Seen(d).tuntype == 0
      && LastOf(Seen(d).attributes, 4) == None
  {
    var r := Receive(states[n], inputs[n]);
    OutageForgets(states, inputs, n);
    OnlyAcceptChangesSession(states[n], inputs[n]);
    MessageEffect(states[n], inputs[n], Lte);
    hide Datagrams, Seen, Receive, Outgoing, IsRequest;
    forall d | d in Datagrams(Sends(states[n], inputs[n]))
      ensures |d.frame| >= 9
      ensures IsRequest(Seen(d)) ==>
        && d.to == states[n].haap.anycast && Seen(d).key == 0 && Seen(d).tuntype == 0
        && LastOf(Seen(d).attributes, 4) == None
    {
      RequestsAreRead(r, inputs[n].env, d);
    }
  }

  /** Some tunnel is up after the `i`-th tick. */
  ghost predicate UpAt(states: seq<Runtime>, i: nat)
    requires i < |states|
  {
    !BothDown(states[i])
  }

  ghost predicate NoAcceptAt(states: seq<Runtime>, inputs: seq<Input>, i: nat)
    requires i < |inputs| < |states|
  {
    NoAccept(states[i], inputs[i])
  }

  /** The datagram, if it asks for a tunnel, carries the session of `s`. */
  predicate AsksWith(s: Runtime, d: Datagram) {
    |d.frame| >= 9 &&
    (IsRequest(Seen(d)) ==>
       d.to == s.haap.ip && Seen(d).key == s.haap.bondingKey && HasSession(Seen(d), s.haap.sessionId))
  }

  /**
   * While some tunnel stays up and no accept is handled, the session stays: every
   * datagram that asks for a tunnel in the meantime goes to the same address, with
   * the same key and the same session number.
   */
  lemma {:induction false} SessionIsKept(states: seq<Runtime>, inputs: seq<Input>, n: nat)
    requires IsSegment(states, inputs) && n <= |inputs|
    requires forall i :: 0 <= i < n ==> NoAcceptAt(states, inputs, i)
    requires forall i :: 0 <= i < n ==> UpAt(states, i)
    ensures n < |inputs| && NoAcceptAt(states, inputs, n) && UpAt(states, n) ==>
      forall d :: d in Datagrams(Sends(states[n], inputs[n])) ==> AsksWith(states[0], d)
    ensures UpAt(states, n) ==>
      states[n].haap.ip == states[0].haap.ip && states[n].haap.bondingKey == states[0].haap.bondingKey
      && states[n].haap.sessionId == states[0].haap.sessionId
  {
    hide Datagrams, Outgoing, Seen, HasSession;
    if n > 0 {
      SessionIsKept(states, inputs, n - 1);
      assert StepAt(states, inputs, n - 1) && NoAcceptAt(states, inputs, n - 1) && UpAt(states, n - 1);
      OnlyAcceptChangesSession(states[n - 1], inputs[n - 1]);
    }
    if n < |inputs| && NoAcceptAt(states, inputs, n) && UpAt(states, n) {
      OnlyAcceptChangesSession(states[n], inputs[n]);
      hide Receive;
      forall d | d in Datagrams(Sends(states[n], inputs[n]))
        ensures AsksWith(states[0], d)
      {
        RequestsAreRead(Receive(states[n], inputs[n]), inputs[n].env, d);
      }
    }
  }

  // ---------------------------------------------------------------- filter list acknowledgements

  /** The filter list packages among attributes. */
  function Packages(attrs: seq<Attribute>): nat {
    if attrs == [] then 0 else (if attrs[0].id == FILTER_LIST_PACKAGE then 1 else 0) + Packages(attrs[1..])
  }

  /** That is how many attributes have type 8. */
  lemma {:induction false} PackagesCount(attrs: seq<Attribute>)
    ensures Packages(attrs) == |set i | 0 <= i < |attrs| && attrs[i].id == 8|
  {
    if attrs != [] {
      var n := |attrs| - 1;
      var before, last := attrs[..n], attrs[n];
      PackagesCount(before);
      PackagesAppend(before, last);
      assert before + [last] == attrs;
      var ours, theirs := set i | 0 <= i < |attrs| && attrs[i].id == 8, set i | 0 <= i < n && before[i].id == 8;
      assert ours == theirs + if last.id == 8 then {n} else {};
    }
  }

  lemma {:induction false} PackagesAppend(attrs: seq<Attribute>, a: Attribute)
    ensures Packages(attrs + [a]) == Packages(attrs) + if a.id == 8 then 1 else 0
  {
    if attrs == [] {
      assert attrs + [a] == [a] && [a][1..] == [];
    } else {
      PackagesAppend(attrs[1..], a);
      assert (attrs + [a])[1..] == attrs[1..] + [a];
    }
  }

  predicate HandlesNotify(s: Runtime, i: Input) {
    Handles(s, i, NOTIFY, Lte) || Handles(s, i, NOTIFY, Dsl)
  }

  function PackagesIn(s: Runtime, i: Input): nat {
    if HandlesNotify(s, i) then Packages(i.incoming.value.message.attributes) else 0
  }

  function Acks(ms: seq<Sent>): nat {
    if ms == [] then 0 else (if ms[0].body.FilterListAck? then 1 else 0) + Acks(ms[1..])
  }

  /** A filter list waits for its ack. */
  function Pending(s: Runtime): nat {
    if s.haap.commitCount != 0 && !s.acked then 1 else 0
  }

  /** Packages received, acks sent, and the newest package of the session, over a run. */
  datatype Ledger = Ledger(packages: nat, acks: nat, newest: Option<uint32>)

  /** The newest package once the message is handled. */
  function NewestAfter(s: Runtime, i: Input, newest: Option<uint32>): Option<uint32>
    requires Sane(i)
  {
    if HandlesNotify(s, i) && LastPackage(i.incoming.value.message.attributes).Some? then
      LastPackage(i.incoming.value.message.attributes)
    else newest
  }

  /** A session, and with it the newest package, ends when both tunnels are down. */
  function LedgerNext(l: Ledger, s: Runtime, i: Input): Ledger
    requires Sane(i)
  {
    Ledger(l.packages + PackagesIn(s, i), l.acks + Acks(Sends(s, i)),
           if BothDown(Next(s, i)) then None else NewestAfter(s, i, l.newest))
  }

  ghost function LedgerAfter(states: seq<Runtime>, inputs: seq<Input>, n: nat): Ledger
    requires n <= |inputs| < |states| && AllSane(inputs)
  {
    if n == 0 then Ledger(0, 0, None)
    else LedgerNext(LedgerAfter(states, inputs, n - 1), states[n - 1], inputs[n - 1])
  }

  /** Acks and the pending one are covered by packages, and what is pending is the newest. */
  predicate Balanced(l: Ledger, s: Runtime) {
    && l.acks + Pending(s) <= l.packages
    && (s.haap.commitCount != 0 ==> l.newest == Some(s.haap.commitCount))
  }

  lemma {:induction false} AcksConcat(a: seq<Sent>, b: seq<Sent>)
    ensures Acks(a + b) == Acks(a) + Acks(b)
  {
    if a == [] {
      assert a + b == b;
    } else {
      AcksConcat(a[1..], b);
      assert (a + b)[1..] == a[1..] + b;
    }
  }

  predicate AcksCommit(s: Runtime, ms: seq<Sent>) {
    forall m :: m in ms && m.body.FilterListAck? ==> AckDue(s) && m.body.commitCount == s.haap.commitCount
  }

  lemma AcksCommitConcat(s: Runtime, a: seq<Sent>, b: seq<Sent>)
    requires AcksCommit(s, a) && AcksCommit(s, b)
    ensures AcksCommit(s, a + b)
  {
  }

  lemma AcksOfParts(s: Runtime, env: Env)
    ensures Acks(SendAck(s, env)) == if AckDue(s) && env.ackOk then 1 else 0
    ensures Acks(SendRequest(s, env)) == Acks(SendVerification(s, env)) == 0
    ensures Acks(SendHello(s, Lte, env)) == Acks(SendHello(s, Dsl, env)) == 0
    ensures AcksCommit(s, SendRequest(s, env)) && AcksCommit(s, SendAck(s, env))
    ensures AcksCommit(s, SendVerification(s, env))
    ensures AcksCommit(s, SendHello(s, Lte, env)) && AcksCommit(s, SendHello(s, Dsl, env))
  {
  }

  /** A tick acknowledges at most once, with the commit count of the state. */
  lemma AcksInTick(s: Runtime, env: Env)
    ensures Acks(Outgoing(s, env)) == if AckDue(s) && env.ackOk then 1 else 0
    ensures AcksCommit(s, Outgoing(s, env))
  {
    AcksOfParts(s, env);
    hide SendHello, SendRequest, SendAck, SendVerification, AcksCommit, Acks;
    AcksCommitConcat(s, SendHello(s, Lte, env), SendHello(s, Dsl, env));
    AcksCommitConcat(s, SendRequest(s, env), SendAck(s, env));
    AcksCommitConcat(s, SendRequest(s, env) + SendAck(s, env), SendVerification(s, env));
    AcksCommitConcat(s, SessionMessages(s, env), SendHello(s, Lte, env) + SendHello(s, Dsl, env));
    AcksConcat(SessionMessages(s, env), SendHello(s, Lte, env) + SendHello(s, Dsl, env));
    AcksConcat(SendHello(s, Lte, env), SendHello(s, Dsl, env));
    AcksConcat(SendRequest(s, env) + SendAck(s, env), SendVerification(s, env));
    AcksConcat(SendRequest(s, env), SendAck(s, env));
  }

  lemma {:induction false} PackagesFound(attrs: seq<Attribute>)
    ensures LastOf(attrs, 8).Some? <==> Packages(attrs) >= 1
  {
    if attrs != [] {
      PackagesFound(attrs[1..]);
    }
  }

  lemma NotifyAllIs(s: Runtime, attrs: seq<Attribute>)
    requires AllWellSized(NOTIFY, attrs)
    ensures var s', last := NotifyAll(s, attrs), LastPackage(attrs);
      && (if last.Some? then s'.haap.commitCount == last.value && !s'.acked && Packages(attrs) >= 1
          else s'.haap.commitCount == s.haap.commitCount && s'.acked == s.acked)
  {
    NotifyRecords(s, attrs);
    PackagesFound(attrs);
    hide Packages, LastOf, NotifyAll;
  }

  lemma MessageKeepsLedger(s: Runtime, i: Input, newest: Option<uint32>)
    requires Sane(i)
    requires s.haap.commitCount != 0 ==> newest == Some(s.haap.commitCount)
    ensures var r := Receive(s, i);
      && Pending(r) <= Pending(s) + PackagesIn(s, i)
      && (r.haap.commitCount != 0 ==> NewestAfter(s, i, newest) == Some(r.haap.commitCount))
  {
    if i.incoming.Some? {
      var m := i.incoming.value.message;
      if m.msgtype == ACCEPT {
        AcceptFillsLimits(s.haap, m.attributes);
      } else if m.msgtype == NOTIFY {
        NotifyAllIs(s, m.attributes);
      }
    }
  }

  /** A sent ack settles the pending package; a new commit count never appears in a tick. */
  lemma TickSettlesAck(s: Runtime, env: Env)
    ensures Acks(Outgoing(s, env)) + Pending(Tick(s, env)) <= Pending(s)
    ensures Tick(s, env).haap.commitCount != 0 ==>
      !BothDown(Tick(s, env)) && Tick(s, env).haap.commitCount == s.haap.commitCount
  {
    AcksInTick(s, env);
  }

  lemma StepKeepsBalance(l: Ledger, s: Runtime, i: Input)
    requires Sane(i) && Balanced(l, s)
    ensures Balanced(LedgerNext(l, s, i), Next(s, i))
  {
    MessageKeepsLedger(s, i, l.newest);
    TickSettlesAck(Receive(s, i), i.env);
    hide Tick, Receive, Outgoing, Acks, PackagesIn, NewestAfter, Pending, Sane, BothDown;
  }

  /**
   * Filter list acks over whole runs: the acks sent plus the one pending never exceed
   * the packages received, and a pending commit count is the newest of its session.
   */
  lemma {:induction false} AcksNeverExceedPackages(states: seq<Runtime>, inputs: seq<Input>, n: nat)
    requires IsRun(states, inputs) && n < |states|
    ensures var l := LedgerAfter(states, inputs, n);
      && l.acks + Pending(states[n]) <= l.packages
      && (states[n].haap.commitCount != 0 ==> l.newest == Some(states[n].haap.commitCount))
  {
    if n > 0 {
      AcksNeverExceedPackages(states, inputs, n - 1);
      assert StepAt(states, inputs, n - 1);
      hide Next, LedgerNext;
      StepKeepsBalance(LedgerAfter(states, inputs, n - 1), states[n - 1], inputs[n - 1]);
    }
  }

  /** How many of the datagrams acknowledge a filter list. */
  function AckDatagrams(ds: seq<Datagram>): nat
    requires forall d :: d in ds ==> |d.frame| >= 9
  {
    if ds == [] then 0 else (if IsAck(Seen(ds[0])) then 1 else 0) + AckDatagrams(ds[1..])
  }

  /** The acks of the ledger are those on the network. */
  lemma {:induction false} AcksAreDatagrams(ms: seq<Sent>)
    ensures forall d :: d in Datagrams(ms) ==> |d.frame| >= 9
    ensures AckDatagrams(Datagrams(ms)) == Acks(ms)
  {
    hide Seen, IsAck, DatagramOf;
    if ms != [] {
      AcksAreDatagrams(ms[1..]);
      SentIsRead(ms[0]);
      assert Datagrams(ms)[0] == DatagramOf(ms[0]) && Datagrams(ms)[1..] == Datagrams(ms[1..]);
      assert Datagrams(ms) == [DatagramOf(ms[0])] + Datagrams(ms[1..]);
    }
  }

  /** Every datagram that acknowledges a filter list carries the commit count of the newest package of the session. */
  lemma AcksCarryNewest(states: seq<Runtime>, inputs: seq<Input>, n: nat)
    requires IsRun(states, inputs) && n < |inputs|
    ensures forall d :: d in Datagrams(Sends(states[n], inputs[n])) ==> |d.frame| >= 9
    ensures forall d :: d in Datagrams(Sends(states[n], inputs[n])) && IsAck(Seen(d)) ==>
      var v := LastOf(Seen(d).attributes, 30).value;
      && |v| == 5 && v[4] == 2
      && NewestAfter(states[n], inputs[n], LedgerAfter(states, inputs, n).newest) == Some(FromBe32(v[..4]))
  {
    var s, i := states[n], inputs[n];
    var newest := NewestAfter(s, i, LedgerAfter(states, inputs, n).newest);
    AcksNeverExceedPackages(states, inputs, n);
    MessageKeepsLedger(s, i, LedgerAfter(states, inputs, n).newest);
    AcksInTick(Receive(s, i), i.env);
    hide Datagrams, Outgoing, Seen, IsAck, Receive, NewestAfter, FromBe32, LastOf;
    forall d | d in Datagrams(Sends(s, i))
      ensures |d.frame| >= 9
      ensures IsAck(Seen(d)) ==>
        var v := LastOf(Seen(d).attributes, 30).value;
        |v| == 5 && v[4] == 2 && newest == Some(FromBe32(v[..4]))
    {
      var m := DatagramIsSent(Sends(s, i), d);
      SentIsRead(m);
    }
  }
}
