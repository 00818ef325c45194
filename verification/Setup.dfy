/**
 * Setting the tunnels up against a HAAP behind a network that delays, reorders,
 * duplicates and loses messages.
 */
module Setup {
  import opened Bytes
  import opened Wrappers
  import opened Grecp
  import opened Control
  import opened Keepalive

  datatype Act = Requested(kind: Kind) | Accepted(kind: Kind)

  /**
   * The client; the tunnel types it has requested and those whose request reached
   * the HAAP; every message ever put on the way to the client; and the order of
   * the client's requests and handled accepts.
   */
  datatype World = World(
    client: Runtime,
    requested: set<Kind>,
    arrived: set<Kind>,
    inflight: set<Incoming>,
    log: seq<Act>)

  predicate Initial(w: World) {
    Configured(w.client) && w.requested == {} && w.arrived == {} && w.inflight == {} && w.log == []
  }

  /** The tunnel a message's sender means. */
  function Meant(m: Incoming): Kind {
    KindOf(m.message)
  }

  function AcceptActs(s: Runtime, i: Input): seq<Act> {
    if Handles(s, i, ACCEPT, Lte) then [Accepted(Lte)] else if Handles(s, i, ACCEPT, Dsl) then [Accepted(Dsl)] else []
  }

  function RequestActs(s: Runtime, env: Env): seq<Act> {
    if Wanted(s).Some? && env.requestOk then [Requested(Wanted(s).value)] else []
  }

  lemma OnlyRequestsAsk(s: Runtime, env: Env, m: Sent)
    requires m in Outgoing(s, env) && m.body.Request?
    ensures m in SendRequest(s, env)
  {
  }

  /** The acts are the requests the tick puts on the network. */
  lemma RequestsAreSent(s: Runtime, env: Env, k: Kind)
    ensures Requested(k) in RequestActs(s, env) <==>
      exists m :: m in Outgoing(s, env) && m.body.Request? && m.body.kind == k
  {
    if Requested(k) in RequestActs(s, env) {
      assert SendRequest(s, env)[0] == Sent(s.haap.ip, s.haap.bondingKey, Request(k, SessionOf(s)));
      assert Outgoing(s, env)[0] == SendRequest(s, env)[0];
    }
    hide Outgoing;
    forall m | m in Outgoing(s, env) && m.body.Request? && m.body.kind == k
      ensures Requested(k) in RequestActs(s, env)
    {
      OnlyRequestsAsk(s, env, m);
    }
  }

  /** The client takes a message from the network, or none, and then ticks. */
  predicate ClientStep(w: World, w': World, i: Input)
  {
    && Sane(i) && (i.incoming.Some? ==> i.incoming.value in w.inflight)
    && var acts := RequestActs(Receive(w.client, i), i.env);
    w' == w.(client := Next(w.client, i),
             requested := w.requested + (set a | a in acts :: a.kind),
             log := w.log + AcceptActs(w.client, i) + acts)
  }

  /** A request reaches the HAAP. */
  predicate Deliver(w: World, w': World, k: Kind) {
    k in w.requested && w' == w.(arrived := w.arrived + {k})
  }

  /** The HAAP sends any message, but accepts a tunnel type only after a request for it arrived. */
  predicate HaapSends(w: World, w': World, m: Incoming) {
    && (m.message.msgtype == ACCEPT ==> Meant(m) in w.arrived)
    && w' == w.(inflight := w.inflight + {m})
  }

  datatype Move = Iterate(input: Input) | Arrive(kind: Kind) | Answer(message: Incoming)

  predicate Step(w: World, w': World, v: Move) {
    match v
    case Iterate(i) => ClientStep(w, w', i)
    case Arrive(k) => Deliver(w, w', k)
    case Answer(m) => HaapSends(w, w', m)
  }

  ghost predicate StepAt(worlds: seq<World>, moves: seq<Move>, i: nat)
    requires i < |moves| < |worlds|
  {
    Step(worlds[i], worlds[i + 1], moves[i])
  }

  ghost predicate Reaches(worlds: seq<World>, moves: seq<Move>) {
    && |worlds| == |moves| + 1 && Initial(worlds[0])
    && forall i :: 0 <= i < |moves| ==> StepAt(worlds, moves, i)
  }

  /** `a` happened at `i`. */
  ghost predicate Did(w: World, i: int, a: Act) {
    0 <= i < |w.log| && w.log[i] == a
  }

  /** An LTE accept was handled before the DSL request at `j`. */
  ghost predicate AcceptedBefore(w: World, j: int) {
    exists i :: i < j && Did(w, i, Accepted(Lte))
  }

  ghost predicate Inv(w: World) {
    && w.arrived <= w.requested
    && (forall m :: m in w.inflight && m.message.msgtype == ACCEPT ==> Meant(m) in w.arrived)
    && (Dsl in w.requested ==> exists j :: Did(w, j, Requested(Dsl)))
    && (forall j :: Did(w, j, Requested(Dsl)) ==> w.client.bonding && AcceptedBefore(w, j))
    && (w.client.lte.established ==> exists i :: Did(w, i, Accepted(Lte)))
    && (w.client.dsl.established ==> DslAccepted(w))
  }

  /** A DSL accept was handled, after a DSL request, which came after a handled LTE accept. */
  ghost predicate DslAccepted(w: World) {
    exists j, l :: j < l && Did(w, j, Requested(Dsl)) && Did(w, l, Accepted(Dsl))
  }

  /** What happened stays happened. */
  lemma LogGrows(w: World, w': World)
    requires w.log <= w'.log
    ensures forall i, a :: Did(w, i, a) ==> Did(w', i, a)
    ensures forall i, a :: i < |w.log| && Did(w', i, a) ==> Did(w, i, a)
    ensures DslAccepted(w) ==> DslAccepted(w')
  {
    assert forall i :: 0 <= i < |w.log| ==> w.log[i] == w'.log[i];
    if DslAccepted(w) {
      var j, l :| j < l && Did(w, j, Requested(Dsl)) && Did(w, l, Accepted(Dsl));
      assert Did(w', j, Requested(Dsl)) && Did(w', l, Accepted(Dsl));
    }
  }

  /** After the message: the client knows of accepts only what the log says. */
  lemma MessageKeepsInv(w: World, i: Input, r: World)
    requires Inv(w) && Sane(i) && (i.incoming.Some? ==> i.incoming.value in w.inflight)
    requires r == w.(client := Receive(w.client, i), log := w.log + AcceptActs(w.client, i))
    ensures Inv(r)
  {
    MessageEffect(w.client, i, Lte);
    MessageEffect(w.client, i, Dsl);
    LogGrows(w, r);
    forall j | Did(r, j, Requested(Dsl))
      ensures AcceptedBefore(r, j)
    {
      assert Did(w, j, Requested(Dsl));
      var l :| l < j && Did(w, l, Accepted(Lte));
      assert Did(r, l, Accepted(Lte));
    }
    if Handles(w.client, i, ACCEPT, Lte) {
      assert Did(r, |w.log|, Accepted(Lte));
    } else if Handles(w.client, i, ACCEPT, Dsl) {
      var j :| Did(w, j, Requested(Dsl));
      assert Did(r, j, Requested(Dsl)) && Did(r, |w.log|, Accepted(Dsl));
    }
  }

  /** The timers request DSL only on an established LTE tunnel, and establish nothing. */
  lemma TickKeepsInv(r: World, env: Env, w': World)
    requires Inv(r)
    requires var acts := RequestActs(r.client, env);
      w' == r.(client := Tick(r.client, env),
               requested := r.requested + (set a | a in acts :: a.kind),
               log := r.log + acts)
    ensures Inv(w')
  {
    LogGrows(r, w');
    if r.client.lte.established {
      var i :| Did(r, i, Accepted(Lte));
      assert Did(w', i, Accepted(Lte));
    }
    forall j | Did(w', j, Requested(Dsl))
      ensures AcceptedBefore(w', j)
    {
      if j < |r.log| {
        assert Did(r, j, Requested(Dsl));
        var l :| l < j && Did(r, l, Accepted(Lte));
        assert Did(w', l, Accepted(Lte));
      } else {
        assert Wanted(r.client) == Some(Dsl);
      }
    }
    if Dsl in w'.requested {
      if Dsl in r.requested {
        var j :| Did(r, j, Requested(Dsl));
        assert Did(w', j, Requested(Dsl));
      } else {
        assert Did(w', |r.log|, Requested(Dsl));
      }
    }
  }

  lemma StepKeepsInv(w: World, w': World, v: Move)
    requires Inv(w) && Step(w, w', v)
    ensures Inv(w')
  {
    match v
    case Iterate(i) =>
      var r := w.(client := Receive(w.client, i), log := w.log + AcceptActs(w.client, i));
      MessageKeepsInv(w, i, r);
      TickKeepsInv(r, i.env, w');
    case Arrive(k) =>
      LogGrows(w, w');
      SameLog(w, w');
    case Answer(m) =>
      LogGrows(w, w');
      SameLog(w, w');
  }

  lemma SameLog(w: World, w': World)
    requires w.log == w'.log
    ensures forall j :: AcceptedBefore(w, j) ==> AcceptedBefore(w', j)
    ensures forall j, a :: Did(w, j, a) <==> Did(w', j, a)
  {
    forall j | AcceptedBefore(w, j)
      ensures AcceptedBefore(w', j)
    {
      var i :| i < j && Did(w, i, Accepted(Lte));
      assert Did(w', i, Accepted(Lte));
    }
  }

  lemma {:induction false} ReachableInv(worlds: seq<World>, moves: seq<Move>, n: nat)
    requires Reaches(worlds, moves) && n < |worlds|
    ensures Inv(worlds[n])
  {
    if n > 0 {
      ReachableInv(worlds, moves, n - 1);
      assert StepAt(worlds, moves, n - 1);
      StepKeepsInv(worlds[n - 1], worlds[n], moves[n - 1]);
    }
  }

  /**
   * Setup order. In every reachable state an established DSL tunnel means that
   * bonding is configured, that a DSL accept was handled after a DSL request was
   * sent, and that an LTE accept was handled before that request.
   */
  lemma DslComesAfterLte(worlds: seq<World>, moves: seq<Move>, n: nat) returns (i: nat, j: nat, l: nat)
    requires Reaches(worlds, moves) && n < |worlds|
    requires worlds[n].client.dsl.established
    ensures worlds[n].client.bonding
    ensures i < j < l < |worlds[n].log|
    ensures worlds[n].log[i] == Accepted(Lte) && worlds[n].log[j] == Requested(Dsl) && worlds[n].log[l] == Accepted(Dsl)
  {
    var w := worlds[n];
    ReachableInv(worlds, moves, n);
    var j0, l0 :| j0 < l0 && Did(w, j0, Requested(Dsl)) && Did(w, l0, Accepted(Dsl));
    var i0 :| i0 < j0 && Did(w, i0, Accepted(Lte));
    i, j, l := i0, j0, l0;
  }

  // ---------------------------------------------------------------- the setup can succeed

  /** Everything happens at once, and every send and device call succeeds. */
  function Smooth(incoming: Option<Incoming>): Input {
    Input(incoming, 0, Env(0, 0, 0, 0, 0, 0, true, true, true, true, true, true, true))
  }

  /** An accept from the address the client uses, pushing a limit of 3. */
  function AcceptFrom(s: Runtime, k: Kind): Incoming {
    Incoming(s.haap.ip, Message(Gre.FLAGS, 0, ACCEPT, TunType(k), [Attribute(HELLO_RETRY_TIMES, [0, 0, 0, 3])]))
  }

  /** A tick without tunnels requests LTE and leaves the configured state as it is. */
  lemma SmoothStart(s: Runtime)
    requires Configured(s)
    ensures Tick(s, Smooth(None).env) == s
    ensures RequestActs(s, Smooth(None).env) == [Requested(Lte)]
  {
  }

  /** What the accept leaves before the tick. */
  lemma SmoothAccept(s: Runtime, k: Kind)
    ensures Sane(Smooth(Some(AcceptFrom(s, k))))
    ensures var r := Receive(s, Smooth(Some(AcceptFrom(s, k))));
      && r == WithTunnel(s.(haap := r.haap), k, Establish(TunnelOf(s, k), 0))
      && r.haap == s.haap.(retryTimes := if s.haap.retryTimes != 0 then s.haap.retryTimes else 3)
    ensures AcceptActs(s, Smooth(Some(AcceptFrom(s, k)))) == [Accepted(k)]
  {
    var a := Attribute(HELLO_RETRY_TIMES, [0, 0, 0, 3]);
    assert FromBe32(a.value) == 3 by {
      assert a.value[..2] == [0, 0] && a.value[2..] == [0, 3];
    }
    assert AcceptAll(s.haap, [a]) == AcceptOne(s.haap, a) by {
      assert [a][1..] == [];
    }
  }

  /** After the first accept LTE stays up, and the tick asks for DSL. */
  lemma SmoothLte(s: Runtime)
    requires Configured(s) && s.bonding
    ensures var i := Smooth(Some(AcceptFrom(s, Lte)));
      var s' := Next(s, i);
      && s'.haap.ip == s.haap.ip && s'.bonding
      && s'.lte == Tunnel(true, 0, 0, 0) && s'.dsl == Tunnel(false, 0, 0, 0)
      && s'.haap.retryTimes >= 1
      && RequestActs(Receive(s, i), i.env) == [Requested(Dsl)]
  {
    SmoothAccept(s, Lte);
    hide Receive;
  }

  /** After the second both are up. */
  lemma SmoothDsl(s: Runtime)
    requires s.bonding && s.lte == Tunnel(true, 0, 0, 0) && s.dsl == Tunnel(false, 0, 0, 0)
    requires s.haap.retryTimes >= 1
    ensures var i := Smooth(Some(AcceptFrom(s, Dsl)));
      var s' := Next(s, i);
      s'.lte.established && s'.dsl.established && s'.bonding && RequestActs(Receive(s, i), i.env) == []
  {
    SmoothAccept(s, Dsl);
    hide Receive;
  }

  lemma Extend(worlds: seq<World>, moves: seq<Move>, v: Move, w': World)
    requires Reaches(worlds, moves) && Step(worlds[|moves|], w', v)
    ensures Reaches(worlds + [w'], moves + [v])
  {
    hide Step;
    forall i | 0 <= i < |moves + [v]|
      ensures StepAt(worlds + [w'], moves + [v], i)
    {
      if i < |moves| {
        assert StepAt(worlds, moves, i);
      }
    }
  }

  /** The client's move on a smooth input, from world to world. */
  lemma SmoothMove(w: World, incoming: Option<Incoming>, acts: seq<Act>) returns (w': World)
    requires Sane(Smooth(incoming)) && (incoming.Some? ==> incoming.value in w.inflight)
    requires RequestActs(Receive(w.client, Smooth(incoming)), Smooth(incoming).env) == acts
    ensures Step(w, w', Iterate(Smooth(incoming)))
    ensures w'.client == Next(w.client, Smooth(incoming)) && w'.inflight == w.inflight && w'.arrived == w.arrived
    ensures forall a :: a in acts ==> a.kind in w'.requested
  {
    var i := Smooth(incoming);
    w' := w.(client := Next(w.client, i),
             requested := w.requested + (set a | a in acts :: a.kind),
             log := w.log + AcceptActs(w.client, i) + acts);
  }

  /** The HAAP gets the request for `k` and accepts it. */
  lemma SmoothAnswer(worlds: seq<World>, moves: seq<Move>, k: Kind)
      returns (worlds': seq<World>, moves': seq<Move>)
    requires Reaches(worlds, moves) && k in worlds[|moves|].requested
    ensures Reaches(worlds', moves') && worlds <= worlds'
    ensures worlds'[|moves'|].client == worlds[|moves|].client
    ensures AcceptFrom(worlds[|moves|].client, k) in worlds'[|moves'|].inflight
  {
    var w := worlds[|moves|];
    var m := AcceptFrom(w.client, k);
    var arrived := w.(arrived := w.arrived + {k});
    var answered := arrived.(inflight := arrived.inflight + {m});
    Extend(worlds, moves, Arrive(k), arrived);
    worlds', moves' := worlds + [arrived], moves + [Arrive(k)];
    assert worlds'[|moves'|] == arrived;
    Extend(worlds', moves', Answer(m), answered);
    worlds', moves' := worlds' + [answered], moves' + [Answer(m)];
  }

  /**
   * Setup can succeed: from every configuration with bonding some run establishes both
   * tunnels.
   */
  lemma DslIsReachable(w0: World) returns (worlds: seq<World>, moves: seq<Move>)
    requires Initial(w0) && w0.client.bonding
    ensures Reaches(worlds, moves) && worlds[0] == w0
    ensures worlds[|moves|].client.lte.established && worlds[|moves|].client.dsl.established
  {
    var s0 := w0.client;
    SmoothStart(s0);
    SmoothLte(s0);
    SmoothAccept(s0, Lte);
    var s1 := Next(s0, Smooth(Some(AcceptFrom(s0, Lte))));
    SmoothDsl(s1);
    SmoothAccept(s1, Dsl);
    hide Tick, Receive, RequestActs, Configured, Sane, Reaches, Step;
    worlds, moves := [w0], [];
    StartReaches(w0);
    var w := SmoothMove(w0, None, [Requested(Lte)]);
    Extend(worlds, moves, Iterate(Smooth(None)), w);
    worlds, moves := worlds + [w], moves + [Iterate(Smooth(None))];
    worlds, moves := SmoothAnswer(worlds, moves, Lte);
    var first := Some(AcceptFrom(s0, Lte));
    w := SmoothMove(worlds[|moves|], first, [Requested(Dsl)]);
    Extend(worlds, moves, Iterate(Smooth(first)), w);
    worlds, moves := worlds + [w], moves + [Iterate(Smooth(first))];
    worlds, moves := SmoothAnswer(worlds, moves, Dsl);
    var second := Some(AcceptFrom(s1, Dsl));
    w := SmoothMove(worlds[|moves|], second, []);
    Extend(worlds, moves, Iterate(Smooth(second)), w);
    worlds, moves := worlds + [w], moves + [Iterate(Smooth(second))];
  }

  lemma StartReaches(w0: World)
    requires Initial(w0)
    ensures Reaches([w0], [])
  {
  }
}
