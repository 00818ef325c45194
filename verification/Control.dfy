/**
 * The control plane of the client: the state the message handlers and the timers
 * share, what one message and one timer tick do to it, and what a tick sends.
 */
module Control {
  import opened Bytes
  import opened Wrappers
  import opened Grecp
  import Gre

  datatype Kind = Lte | Dsl

  datatype Tunnel = Tunnel(established: bool, lastSent: int, lastReceived: int, missed: uint8)

  datatype Haap = Haap(
    anycast: Bytes,
    ip: Bytes,
    sessionId: uint32,
    bondingKey: uint32,
    helloInterval: uint32,
    retryTimes: uint32,
    commitCount: uint32)

  datatype Runtime = Runtime(
    haap: Haap,
    bonding: bool,
    acked: bool,
    created: bool,
    verify: bool,
    lte: Tunnel,
    dsl: Tunnel)

  function TunnelOf(s: Runtime, k: Kind): Tunnel {
    if k.Lte? then s.lte else s.dsl
  }

  function WithTunnel(s: Runtime, k: Kind, t: Tunnel): Runtime {
    if k.Lte? then s.(lte := t) else s.(dsl := t)
  }

  function TunType(k: Kind): nat {
    if k.Lte? then TUNTYPE_LTE else TUNTYPE_DSL
  }

  predicate BothDown(s: Runtime) {
    !s.lte.established && !s.dsl.established
  }

  // ---------------------------------------------------------------- messages

  /** The attributes a handler copies into a field have that field's size. */
  predicate WellSized(msgtype: nat, a: Attribute) {
    && (msgtype == ACCEPT ==>
          && (a.id == H_IPV6_ADDRESS ==> |a.value| == 16)
          && ((a.id == SESSION_ID || a.id == ACTIVE_HELLO_INTERVAL || a.id == HELLO_RETRY_TIMES
               || a.id == BONDING_KEY_VALUE) ==> |a.value| == 4))
    && (msgtype == HELLO ==> a.id == TIMESTAMP ==> |a.value| == 8)
    && (msgtype == NOTIFY ==> a.id == FILTER_LIST_PACKAGE ==> |a.value| >= 4)
    && (msgtype == TEARDOWN ==> a.id == ERROR_CODE ==> |a.value| == 4)
  }

  predicate AllWellSized(msgtype: nat, attrs: seq<Attribute>) {
    forall i :: 0 <= i < |attrs| ==> WellSized(msgtype, attrs[i])
  }

  /** One attribute of an accept; limits set before are kept. */
  function AcceptOne(h: Haap, a: Attribute): Haap
    requires WellSized(ACCEPT, a)
  {
    if a.id == H_IPV6_ADDRESS then h.(ip := a.value)
    else if a.id == SESSION_ID then h.(sessionId := FromBe32(a.value))
    else if a.id == ACTIVE_HELLO_INTERVAL && h.helloInterval == 0 then h.(helloInterval := FromBe32(a.value))
    else if a.id == HELLO_RETRY_TIMES && h.retryTimes == 0 then h.(retryTimes := FromBe32(a.value))
    else if a.id == BONDING_KEY_VALUE then h.(bondingKey := FromBe32(a.value))
    else h
  }

  function AcceptAll(h: Haap, attrs: seq<Attribute>): Haap
    requires AllWellSized(ACCEPT, attrs)
    decreases |attrs|
  {
    if attrs == [] then h else AcceptAll(AcceptOne(h, attrs[0]), attrs[1..])
  }

  /** One attribute of a hello: an echoed timestamp clears the count of missed hellos. */
  function HelloOne(t: Tunnel, a: Attribute): Tunnel
    requires WellSized(HELLO, a)
  {
    if a.id == TIMESTAMP then t.(lastReceived := FromBe32(a.value[..4]), missed := 0) else t
  }

  function HelloAll(t: Tunnel, attrs: seq<Attribute>): Tunnel
    requires AllWellSized(HELLO, attrs)
    decreases |attrs|
  {
    if attrs == [] then t else HelloAll(HelloOne(t, attrs[0]), attrs[1..])
  }

  /** One attribute of a notify. */
  function NotifyOne(s: Runtime, a: Attribute): Runtime
    requires WellSized(NOTIFY, a)
  {
    if a.id == FILTER_LIST_PACKAGE then s.(haap := s.haap.(commitCount := FromBe32(a.value[..4])), acked := false)
    else if a.id == TUNNEL_VERIFICATION then s.(verify := true)
    else s
  }

  function NotifyAll(s: Runtime, attrs: seq<Attribute>): Runtime
    requires AllWellSized(NOTIFY, attrs)
    decreases |attrs|
  {
    if attrs == [] then s else NotifyAll(NotifyOne(s, attrs[0]), attrs[1..])
  }

  /** The error code in the last error code attribute, or `code`. */
  function ErrorOf(attrs: seq<Attribute>, code: uint32): uint32
    requires AllWellSized(TEARDOWN, attrs)
    decreases |attrs|
  {
    if attrs == [] then code
    else
      assert WellSized(TEARDOWN, attrs[0]);
      ErrorOf(attrs[1..], if attrs[0].id == ERROR_CODE then FromBe32(attrs[0].value) else code)
  }

  /** An established tunnel counts its hellos from the moment of the accept. */
  function Establish(t: Tunnel, now: nat): Tunnel {
    Tunnel(true, now, now, t.missed)
  }

  /** The handler a message reaches, if any. */
  predicate Handled(s: Runtime, from: Bytes, m: Message) {
    && from == s.haap.ip
    && m.flags == Gre.FLAGS
    && (m.key == s.haap.bondingKey || m.msgtype == ACCEPT)
    && (m.tuntype == TUNTYPE_LTE || m.tuntype == TUNTYPE_DSL)
    && (m.msgtype == ACCEPT || m.msgtype == HELLO || m.msgtype == TEARDOWN || m.msgtype == NOTIFY)
  }

  function KindOf(m: Message): Kind {
    if m.tuntype == TUNTYPE_LTE then Lte else Dsl
  }

  /** What a received message does. */
  function Process(s: Runtime, from: Bytes, m: Message, now: nat): Runtime
    requires AllWellSized(m.msgtype, m.attributes)
  {
    if !Handled(s, from, m) then s
    else
      var k := KindOf(m);
      if m.msgtype == ACCEPT then
        WithTunnel(s.(haap := AcceptAll(s.haap, m.attributes)), k, Establish(TunnelOf(s, k), now))
      else if m.msgtype == HELLO then WithTunnel(s, k, HelloAll(TunnelOf(s, k), m.attributes))
      else if m.msgtype == NOTIFY then NotifyAll(s, m.attributes)
      else s.(lte := s.lte.(established := false), dsl := s.dsl.(established := false))
  }

  // ---------------------------------------------------------------- one timer tick

  /**
   * What a tick reads from outside: the clock at the hello check and at the hello's
   * timestamp of each tunnel, whether each send succeeds, and whether the tunnel
   * device exists after being created or destroyed.
   */
  datatype Env = Env(
    lteCheck: nat, lteStamp: nat, lteMs: uint32,
    dslCheck: nat, dslStamp: nat, dslMs: uint32,
    requestOk: bool, ackOk: bool, verifyOk: bool, lteHelloOk: bool, dslHelloOk: bool,
    createdUp: bool, createdDown: bool)

  function Check(env: Env, k: Kind): nat {
    if k.Lte? then env.lteCheck else env.dslCheck
  }

  function Stamp(env: Env, k: Kind): nat {
    if k.Lte? then env.lteStamp else env.dslStamp
  }

  /** Which tunnel a tick requests. */
  function Wanted(s: Runtime): Option<Kind> {
    if !s.lte.established then Some(Lte)
    else if s.bonding && !s.dsl.established then Some(Dsl)
    else None
  }

  predicate AckDue(s: Runtime) {
    s.lte.established && s.haap.commitCount > 0 && !s.acked
  }

  predicate HelloDue(t: Tunnel, check: nat, interval: uint32) {
    t.established && t.lastSent < check - interval
  }

  /** A hello is due: count a miss if the last one was not echoed, and send the next. */
  function AfterHello(t: Tunnel, check: nat, stamp: nat, interval: uint32): Tunnel {
    if HelloDue(t, check, interval) then
      t.(missed := if t.lastReceived != t.lastSent then (t.missed + 1) % 0x100 else t.missed,
         lastSent := ToUint32(stamp))
    else t
  }

  /** The limit of missed hellos. */
  function AfterVerdict(t: Tunnel, retryTimes: uint32): Tunnel {
    if t.established && t.missed >= retryTimes then t.(established := false) else t
  }

  /** The hello part of a tick, up to the verdict. */
  function Beat(s: Runtime, k: Kind, env: Env): Tunnel {
    AfterVerdict(AfterHello(TunnelOf(s, k), Check(env, k), Stamp(env, k), s.haap.helloInterval), s.haap.retryTimes)
  }

  /** Statistics are cleared only while the tunnel device exists. */
  function AfterReset(t: Tunnel, created: bool): Tunnel {
    if !t.established && created then Tunnel(false, 0, 0, 0) else t
  }

  function Forget(h: Haap): Haap {
    h.(ip := h.anycast, bondingKey := 0, sessionId := 0, commitCount := 0)
  }

  function Tick(s: Runtime, env: Env): Runtime {
    var lte, dsl := AfterReset(Beat(s, Lte, env), s.created), AfterReset(Beat(s, Dsl, env), s.created);
    var down := !lte.established && !dsl.established;
    Runtime(
      if down then Forget(s.haap) else s.haap,
      s.bonding,
      if down then false else if AckDue(s) then env.ackOk else s.acked,
      if !down && !s.created then env.createdUp else if down && s.created then env.createdDown else s.created,
      if !lte.established && s.created then false
      else if s.lte.established && s.verify then !env.verifyOk else s.verify,
      lte,
      dsl)
  }

  datatype Body =
    | Request(kind: Kind, session: Option<uint32>)
    | FilterListAck(commitCount: uint32)
    | Verification
    | Hello(kind: Kind, seconds: uint32, milliseconds: uint32)

  datatype Sent = Sent(to: Bytes, key: uint32, body: Body)

  /** One message to the HAAP as the state stands, if it is sent and the send succeeds. */
  function Send(s: Runtime, ok: bool, body: Body): seq<Sent> {
    if ok then [Sent(s.haap.ip, s.haap.bondingKey, body)] else []
  }

  function SessionOf(s: Runtime): Option<uint32> {
    if s.haap.sessionId != 0 then Some(s.haap.sessionId) else None
  }

  function SendRequest(s: Runtime, env: Env): seq<Sent> {
    if Wanted(s).Some? then Send(s, env.requestOk, Request(Wanted(s).value, SessionOf(s))) else []
  }

  function SendAck(s: Runtime, env: Env): seq<Sent> {
    if AckDue(s) then Send(s, env.ackOk, FilterListAck(s.haap.commitCount)) else []
  }

  function SendVerification(s: Runtime, env: Env): seq<Sent> {
    if s.lte.established && s.verify then Send(s, env.verifyOk, Verification) else []
  }

  /** The request, the filter list ack and the tunnel verification. */
  function SessionMessages(s: Runtime, env: Env): seq<Sent> {
    SendRequest(s, env) + SendAck(s, env) + SendVerification(s, env)
  }

  function SendHello(s: Runtime, k: Kind, env: Env): seq<Sent> {
    if HelloDue(TunnelOf(s, k), Check(env, k), s.haap.helloInterval) then
      Send(s, if k.Lte? then env.lteHelloOk else env.dslHelloOk,
           Hello(k, ToUint32(Stamp(env, k)), if k.Lte? then env.lteMs else env.dslMs))
    else []
  }

  /** What a tick puts on the network, in order. */
  function Outgoing(s: Runtime, env: Env): seq<Sent> {
    SessionMessages(s, env) + (SendHello(s, Lte, env) + SendHello(s, Dsl, env))
  }

  // ---------------------------------------------------------------- the main loop

  datatype Incoming = Incoming(from: Bytes, message: Message)

  /** One iteration of the main loop: at most one message, handled at `now`, then the timers. */
  datatype Input = Input(incoming: Option<Incoming>, now: nat, env: Env)

  predicate Sane(i: Input) {
    && (i.incoming.Some? ==> AllWellSized(i.incoming.value.message.msgtype, i.incoming.value.message.attributes))
    && i.now <= i.env.lteCheck <= i.env.lteStamp <= i.env.dslCheck <= i.env.dslStamp <= UINT32_MAX
  }

  /** The state between the message and the timers. */
  function Receive(s: Runtime, i: Input): Runtime
    requires Sane(i)
  {
    if i.incoming.Some? then Process(s, i.incoming.value.from, i.incoming.value.message, i.now) else s
  }

  function Next(s: Runtime, i: Input): Runtime
    requires Sane(i)
  {
    Tick(Receive(s, i), i.env)
  }

  function Sends(s: Runtime, i: Input): seq<Sent>
    requires Sane(i)
  {
    Outgoing(Receive(s, i), i.env)
  }

  /** The input's message reaches the handler of type `msgtype` for tunnel `k`. */
  predicate Handles(s: Runtime, i: Input, msgtype: nat, k: Kind) {
    && i.incoming.Some? && Handled(s, i.incoming.value.from, i.incoming.value.message)
    && i.incoming.value.message.msgtype == msgtype && KindOf(i.incoming.value.message) == k
  }

  /** The state the configuration file leaves. */
  predicate Configured(s: Runtime) {
    && s.haap.ip == s.haap.anycast
    && s.haap.sessionId == 0 && s.haap.bondingKey == 0 && s.haap.commitCount == 0
    && !s.acked && !s.created && !s.verify
    && s.lte == Tunnel(false, 0, 0, 0) && s.dsl == Tunnel(false, 0, 0, 0)
  }

  predicate AllSane(inputs: seq<Input>) {
    forall i :: 0 <= i < |inputs| ==> Sane(inputs[i])
  }

  ghost predicate StepAt(states: seq<Runtime>, inputs: seq<Input>, i: nat)
    requires i < |inputs| < |states| && AllSane(inputs)
  {
    && states[i + 1] == Next(states[i], inputs[i])
    && (i > 0 ==> inputs[i - 1].env.dslStamp <= inputs[i].now)
  }

  /** Consecutive iterations of the main loop, from any state. */
  ghost predicate IsSegment(states: seq<Runtime>, inputs: seq<Input>) {
    && |states| == |inputs| + 1 && AllSane(inputs)
    && forall i :: 0 <= i < |inputs| ==> StepAt(states, inputs, i)
  }

  /** A run of the program. */
  ghost predicate IsRun(states: seq<Runtime>, inputs: seq<Input>) {
    IsSegment(states, inputs) && Configured(states[0])
  }

  // ---------------------------------------------------------------- the octets of what is sent

  const CLIENT_NAME: Bytes := [79, 112, 101, 110, 72, 121, 98, 114, 105, 100] + Zeros(30)

  function Zeros(n: nat): (z: Bytes)
    ensures |z| == n
  {
    if n == 0 then [] else [0] + Zeros(n - 1)
  }

  const PAD := Attribute(PADDING, [])

  function AttributesOf(body: Body): (attrs: seq<Attribute>)
    ensures AllFit(attrs)
  {
    match body
    case Request(k, session) =>
      (if k.Lte? then [Attribute(CLIENT_IDENTIFICATION_NAME, CLIENT_NAME)] else [])
      + (if session.Some? then [Attribute(SESSION_ID, Be32(session.value))] else [])
      + [PAD]
    case FilterListAck(commitCount) => [Attribute(FILTER_LIST_PACKAGE_ACK, Be32(commitCount) + [2]), PAD]
    case Verification => [Attribute(TUNNEL_VERIFICATION, []), PAD]
    case Hello(k, seconds, milliseconds) => [Attribute(TIMESTAMP, Be32(seconds) + Be32(milliseconds)), PAD]
  }

  function TypeOf(body: Body): (t: nat)
    ensures t < 16
  {
    match body
    case Request(_, _) => REQUEST
    case Hello(_, _, _) => HELLO
    case _ => NOTIFY
  }

  function TunTypeOf(body: Body): (t: nat)
    ensures t < 16
  {
    match body
    case Request(k, _) => TunType(k)
    case Hello(k, _, _) => TunType(k)
    case _ => TUNTYPE_LTE
  }

  datatype Datagram = Datagram(to: Bytes, frame: Bytes)

  function DatagramOf(m: Sent): Datagram {
    Datagram(m.to, Frame(TypeOf(m.body), TunTypeOf(m.body), m.key, EncodeAll(AttributesOf(m.body))))
  }

  function Datagrams(ms: seq<Sent>): seq<Datagram> {
    seq(|ms|, i requires 0 <= i < |ms| => DatagramOf(ms[i]))
  }

  lemma DatagramsConcat(a: seq<Sent>, b: seq<Sent>)
    ensures Datagrams(a + b) == Datagrams(a) + Datagrams(b)
  {
  }

  /**
   * A message framed with the current key and received from the current HAAP
   * reaches the handler of its type, for its tunnel, with its attributes.
   */
  lemma FramedIsHandled(s: Runtime, msgtype: nat, k: Kind, attrs: seq<Attribute>, behind: Bytes)
    requires msgtype == HELLO || msgtype == NOTIFY || msgtype == TEARDOWN || msgtype == ACCEPT
    requires AllFit(attrs)
    ensures var frame := Frame(msgtype, TunType(k), s.haap.bondingKey, EncodeAll(attrs));
      var m := Decode(frame + behind, |frame|);
      Handled(s, s.haap.ip, m) && m.msgtype == msgtype && KindOf(m) == k && m.attributes == attrs
  {
    FramedDecodes(msgtype, TunType(k), s.haap.bondingKey, attrs, behind);
  }
}
