/**
 * What the client puts on the network, down to the octets: which messages a tick
 * sends, what their datagrams look like, and what a receiver reads from them.
 */
module Wire {
  import opened Bytes
  import opened Wrappers
  import opened Grecp
  import opened Control
  import opened Messages

  // ---------------------------------------------------------------- which messages a tick sends

  /**
   * A tick sends, in this order and as far as the sends succeed: one request, for LTE
   * if LTE is down, else for DSL if that is wanted and down; one ack of an
   * unacknowledged filter list and one verification that is asked for, while LTE is
   * up; and one hello for each established tunnel whose last is more than the
   * interval ago. It sends nothing else.
   */
  lemma TickSends(s: Runtime, env: Env)
    ensures Outgoing(s, env) ==
      (if env.requestOk && (!s.lte.established || (s.bonding && !s.dsl.established)) then
         [Sent(s.haap.ip, s.haap.bondingKey,
               Request(if !s.lte.established then Lte else Dsl,
                       if s.haap.sessionId == 0 then None else Some(s.haap.sessionId)))]
       else [])
      + (if env.ackOk && s.lte.established && s.haap.commitCount != 0 && !s.acked then
           [Sent(s.haap.ip, s.haap.bondingKey, FilterListAck(s.haap.commitCount))]
         else [])
      + (if env.verifyOk && s.lte.established && s.verify then
           [Sent(s.haap.ip, s.haap.bondingKey, Verification)]
         else [])
      + ((if env.lteHelloOk && s.lte.established && s.lte.lastSent < env.lteCheck - s.haap.helloInterval then
            [Sent(s.haap.ip, s.haap.bondingKey, Hello(Lte, ToUint32(env.lteStamp), env.lteMs))]
          else [])
         + (if env.dslHelloOk && s.dsl.established && s.dsl.lastSent < env.dslCheck - s.haap.helloInterval then
              [Sent(s.haap.ip, s.haap.bondingKey, Hello(Dsl, ToUint32(env.dslStamp), env.dslMs))]
            else []))
  {
  }

  /** A tunnel after a tick that checked its hellos at `check` and sent at `stamp`. */
  lemma TickLeavesTunnel(s: Runtime, env: Env, k: Kind, check: nat, stamp: nat)
    requires check == (if k == Lte then env.lteCheck else env.dslCheck)
    requires stamp == (if k == Lte then env.lteStamp else env.dslStamp) <= UINT32_MAX
    ensures var t, t' := if k == Lte then s.lte else s.dsl, if k == Lte then Tick(s, env).lte else Tick(s, env).dsl;
      var due := t.established && t.lastSent < check - s.haap.helloInterval;
      var missed: nat := (t.missed as int + if due && t.lastReceived != t.lastSent then 1 else 0) % 256;
      && t'.established == (t.established && missed < s.haap.retryTimes)
      && (t'.established || !s.created ==>
            && t'.lastSent == (if due then stamp else t.lastSent)
            && t'.missed == missed && t'.lastReceived == t.lastReceived)
      && (!t'.established && s.created ==> t'.lastSent == t'.lastReceived == t'.missed == 0)
  {
  }

  /** The rest of the state after a tick. */
  lemma TickLeavesSession(s: Runtime, env: Env)
    ensures var s' := Tick(s, env);
      var down := !s'.lte.established && !s'.dsl.established;
      && s'.bonding == s.bonding
      && s'.haap == (if down then s.haap.(ip := s.haap.anycast, bondingKey := 0, sessionId := 0, commitCount := 0)
                     else s.haap)
      && s'.acked == (!down && if s.lte.established && s.haap.commitCount != 0 && !s.acked then env.ackOk else s.acked)
      && (s'.verify <==> s.verify && !(s.lte.established && env.verifyOk) && !(!s'.lte.established && s.created))
      && s'.created == (if down == s.created then (if down then env.createdDown else env.createdUp) else s.created)
  {
  }

  // ---------------------------------------------------------------- the octets of a message

  lemma {:induction false} ZerosAre(n: nat)
    ensures Zeros(n) == seq(n, i => 0)
  {
    if n > 0 {
      ZerosAre(n - 1);
    }
  }

  lemma EncodeTwo(a: Attribute, b: Attribute)
    requires Fits(a) && Fits(b)
    ensures EncodeAll([a, b]) == Encode(a) + Encode(b)
  {
    EncodeAllAppend([a], b);
    EncodeAllAppend([], a);
    assert [] + [a] == [a] && [a] + [b] == [a, b];
  }

  /** The nine octets in front of the attributes. */
  lemma FrameOctets(msgtype: nat, tuntype: nat, key: uint32, attributes: Bytes)
    requires msgtype < 16 && tuntype < 16
    ensures Frame(msgtype, tuntype, key, attributes)
         == [0x20, 0x00, 0x01, 0x01] + Be32(key) + [msgtype * 16 + tuntype] + attributes
  {
    assert Be16(Gre.FLAGS) + Be16(PROTO) == [0x20, 0x00, 0x01, 0x01];
  }

  lemma EncodeOne(a: Attribute)
    requires Fits(a)
    ensures EncodeAll([a]) == Encode(a)
  {
    assert EncodeAll([]) == [] && [a][1..] == [];
  }

  lemma {:induction false} EncodeAllConcat(a: seq<Attribute>, b: seq<Attribute>)
    requires AllFit(a) && AllFit(b)
    ensures AllFit(a + b) && EncodeAll(a + b) == EncodeAll(a) + EncodeAll(b)
  {
    hide Encode;
    if a == [] {
      assert a + b == b;
    } else {
      EncodeAllConcat(a[1..], b);
      assert (a + b)[1..] == a[1..] + b;
    }
  }

  lemma NameOctets()
    ensures |CLIENT_NAME| == 40
    ensures EncodeAll([Attribute(3, CLIENT_NAME)])
         == [3, 0, 40] + ([79, 112, 101, 110, 72, 121, 98, 114, 105, 100] + seq(30, i => 0))
  {
    ZerosAre(30);
    hide Zeros;
    EncodeOne(Attribute(3, CLIENT_NAME));
    AttributeOctets(Attribute(3, CLIENT_NAME));
  }

  lemma NumberOctets(n: uint32)
    ensures EncodeAll([Attribute(4, Be32(n))]) == [4, 0, 4] + Be32(n)
  {
    hide Be32;
    EncodeOne(Attribute(4, Be32(n)));
    AttributeOctets(Attribute(4, Be32(n)));
  }

  lemma PadOctets()
    ensures EncodeAll([Attribute(255, [])]) == [255, 0, 0]
  {
    EncodeOne(Attribute(255, []));
    AttributeOctets(Attribute(255, []));
  }

  /** The attributes of a request, in the order they are written. */
  lemma RequestParts(k: Kind, session: Option<uint32>)
    ensures AttributesOf(Request(k, session)) ==
      (if k == Lte then [Attribute(3, CLIENT_NAME)] else [])
      + (if session.Some? then [Attribute(4, Be32(session.value))] else [])
      + [Attribute(255, [])]
  {
  }

  lemma RequestAttributes(k: Kind, session: Option<uint32>)
    ensures EncodeAll(AttributesOf(Request(k, session))) ==
      (if k == Lte then [3, 0, 40] + ([79, 112, 101, 110, 72, 121, 98, 114, 105, 100] + seq(30, i => 0)) else [])
      + (if session.Some? then [4, 0, 4] + Be32(session.value) else [])
      + [255, 0, 0]
  {
    hide Be32, Zeros, EncodeAll, Encode, AttributesOf;
    NameOctets();
    PadOctets();
    if session.Some? {
      NumberOctets(session.value);
    }
    RequestParts(k, session);
    EncodeNone();
    var name := if k == Lte then [Attribute(3, CLIENT_NAME)] else [];
    var number := if session.Some? then [Attribute(4, Be32(session.value))] else [];
    EncodeAllConcat(name, number);
    EncodeAllConcat(name + number, [Attribute(255, [])]);
  }

  lemma EncodeNone()
    ensures EncodeAll([]) == []
  {
  }

  /** A request: the client's name, padded to 40 octets, for LTE only, and the session number if there is one. */
  lemma RequestOctets(to: Bytes, key: uint32, k: Kind, session: Option<uint32>)
    ensures DatagramOf(Sent(to, key, Request(k, session))) == Datagram(to,
      [0x20, 0x00, 0x01, 0x01] + Be32(key) + [if k == Lte then 0x10 else 0x18]
      + ((if k == Lte then [3, 0, 40] + ([79, 112, 101, 110, 72, 121, 98, 114, 105, 100] + seq(30, i => 0)) else [])
         + (if session.Some? then [4, 0, 4] + Be32(session.value) else [])
         + [255, 0, 0]))
  {
    hide Be32, Frame, EncodeAll, AttributesOf;
    RequestAttributes(k, session);
    FrameOctets(1, if k == Lte then 0 else 8, key, EncodeAll(AttributesOf(Request(k, session))));
  }

  /** An ack: the commit count and the code 2. */
  lemma AckOctets(to: Bytes, key: uint32, commitCount: uint32)
    ensures DatagramOf(Sent(to, key, FilterListAck(commitCount))) == Datagram(to,
      [0x20, 0x00, 0x01, 0x01] + Be32(key) + [0x60] + ([30, 0, 5] + (Be32(commitCount) + [2]) + [255, 0, 0]))
  {
    hide Be32, Frame;
    var ack, pad := Attribute(FILTER_LIST_PACKAGE_ACK, Be32(commitCount) + [2]), Attribute(PADDING, []);
    AttributeOctets(ack);
    AttributeOctets(pad);
    assert Encode(pad) == [255, 0, 0];
    hide Encode;
    EncodeTwo(ack, pad);
    FrameOctets(6, 0, key, EncodeAll([ack, pad]));
  }

  lemma VerificationOctets(to: Bytes, key: uint32)
    ensures DatagramOf(Sent(to, key, Verification)) == Datagram(to,
      [0x20, 0x00, 0x01, 0x01] + Be32(key) + [0x60] + [35, 0, 0, 255, 0, 0])
  {
    hide Be32, Frame;
    var verification, pad := Attribute(TUNNEL_VERIFICATION, []), Attribute(PADDING, []);
    AttributeOctets(verification);
    AttributeOctets(pad);
    EncodeTwo(verification, pad);
    assert Encode(verification) + Encode(pad) == [35, 0, 0, 255, 0, 0];
    FrameOctets(6, 0, key, EncodeAll([verification, pad]));
  }

  /** A hello: seconds and milliseconds. */
  lemma HelloOctets(to: Bytes, key: uint32, k: Kind, seconds: uint32, milliseconds: uint32)
    ensures DatagramOf(Sent(to, key, Hello(k, seconds, milliseconds))) == Datagram(to,
      [0x20, 0x00, 0x01, 0x01] + Be32(key) + [if k == Lte then 0x40 else 0x48]
      + ([5, 0, 8] + (Be32(seconds) + Be32(milliseconds)) + [255, 0, 0]))
  {
    hide Be32, Frame;
    var timestamp, pad := Attribute(TIMESTAMP, Be32(seconds) + Be32(milliseconds)), Attribute(PADDING, []);
    AttributeOctets(timestamp);
    AttributeOctets(pad);
    assert Encode(pad) == [255, 0, 0];
    hide Encode;
    EncodeTwo(timestamp, pad);
    FrameOctets(4, if k == Lte then 0 else 8, key, EncodeAll([timestamp, pad]));
  }

  // ---------------------------------------------------------------- what a receiver reads

  /** What the dispatch of a receiver sees of a datagram. */
  function Seen(d: Datagram): Message
    requires |d.frame| >= 9
  {
    Decode(d.frame, |d.frame|)
  }

  lemma SeenIs(m: Sent)
    ensures var d := DatagramOf(m);
      && d.to == m.to && |d.frame| >= 9
      && Seen(d) == Message(Gre.FLAGS, m.key, TypeOf(m.body), TunTypeOf(m.body), AttributesOf(m.body))
  {
    var frame := DatagramOf(m).frame;
    FramedDecodes(TypeOf(m.body), TunTypeOf(m.body), m.key, AttributesOf(m.body), []);
    assert frame + [] == frame;
    assert |frame| >= 9 by {
      FrameOctets(TypeOf(m.body), TunTypeOf(m.body), m.key, EncodeAll(AttributesOf(m.body)));
    }
  }

  /** A request reads as one for its tunnel, with the name only for LTE and the session number only if there is one. */
  lemma RequestIsRead(to: Bytes, key: uint32, k: Kind, session: Option<uint32>)
    ensures var d := DatagramOf(Sent(to, key, Request(k, session)));
      && |d.frame| >= 9 && d.to == to
      && var m := Seen(d);
      && m.flags == 0x2000 && m.key == key && m.msgtype == 1 && m.tuntype == (if k == Lte then 0 else 8)
      && (LastOf(m.attributes, 3).Some? <==> k == Lte)
      && (k == Lte ==> |LastOf(m.attributes, 3).value| == 40)
      && match session
         case Some(n) => LastOf(m.attributes, 4).Some? && |LastOf(m.attributes, 4).value| == 4
           && FromBe32(LastOf(m.attributes, 4).value) == n
         case None => LastOf(m.attributes, 4) == None
  {
    SeenIs(Sent(to, key, Request(k, session)));
    if session.Some? {
      Be32RoundTrip(session.value);
    }
    hide Seen, DatagramOf, FromBe32, Be32, AttributesOf, Zeros;
    RequestParts(k, session);
    var head, tail := if k == Lte then [Attribute(3, CLIENT_NAME)] else [],
                      if session.Some? then [Attribute(4, Be32(session.value))] else [];
    LastOfConcat(head + tail, [Attribute(255, [])], 3);
    LastOfConcat(head + tail, [Attribute(255, [])], 4);
    LastOfConcat(head, tail, 3);
    LastOfConcat(head, tail, 4);
  }

  lemma {:induction false} LastOfConcat(a: seq<Attribute>, b: seq<Attribute>, id: uint8)
    ensures LastOf(a + b, id) == if LastOf(b, id).Some? then LastOf(b, id) else LastOf(a, id)
  {
    if a == [] {
      assert a + b == b;
    } else {
      LastOfConcat(a[1..], b, id);
      assert (a + b)[1..] == a[1..] + b;
    }
  }

  /** An ack reads as a notify for LTE with the commit count and code 2 in attribute 30. */
  lemma AckIsRead(to: Bytes, key: uint32, commitCount: uint32)
    ensures var d := DatagramOf(Sent(to, key, FilterListAck(commitCount)));
      && |d.frame| >= 9 && d.to == to
      && var m := Seen(d);
      && m.flags == 0x2000 && m.key == key && m.msgtype == 6 && m.tuntype == 0
      && match LastOf(m.attributes, 30)
         case Some(v) => |v| == 5 && FromBe32(v[..4]) == commitCount && v[4] == 2
         case None => false
  {
    SeenIs(Sent(to, key, FilterListAck(commitCount)));
    Be32RoundTrip(commitCount);
    assert (Be32(commitCount) + [2])[..4] == Be32(commitCount);
    hide Seen, DatagramOf, FromBe32, Be32;
    LastOfConcat([Attribute(30, Be32(commitCount) + [2])], [Attribute(255, [])], 30);
  }

  /** A verification reads as a notify for LTE with attribute 35 and no ack. */
  lemma VerificationIsRead(to: Bytes, key: uint32)
    ensures var d := DatagramOf(Sent(to, key, Verification));
      && |d.frame| >= 9 && d.to == to
      && var m := Seen(d);
      && m.flags == 0x2000 && m.key == key && m.msgtype == 6 && m.tuntype == 0
      && LastOf(m.attributes, 35).Some? && LastOf(m.attributes, 30) == None
  {
    SeenIs(Sent(to, key, Verification));
    hide Seen, DatagramOf;
    LastOfConcat([Attribute(35, [])], [Attribute(255, [])], 35);
    LastOfConcat([Attribute(35, [])], [Attribute(255, [])], 30);
  }

  /** A hello reads as one for its tunnel with both halves of its timestamp in attribute 5. */
  lemma HelloIsRead(to: Bytes, key: uint32, k: Kind, seconds: uint32, milliseconds: uint32)
    ensures var d := DatagramOf(Sent(to, key, Hello(k, seconds, milliseconds)));
      && |d.frame| >= 9 && d.to == to
      && var m := Seen(d);
      && m.flags == 0x2000 && m.key == key && m.msgtype == 4 && m.tuntype == (if k == Lte then 0 else 8)
      && match LastOf(m.attributes, 5)
         case Some(v) => |v| == 8 && FromBe32(v[..4]) == seconds && FromBe32(v[4..]) == milliseconds
         case None => false
  {
    SeenIs(Sent(to, key, Hello(k, seconds, milliseconds)));
    Be32RoundTrip(seconds);
    Be32RoundTrip(milliseconds);
    var v := Be32(seconds) + Be32(milliseconds);
    assert v[..4] == Be32(seconds) && v[4..] == Be32(milliseconds);
    hide Seen, DatagramOf, FromBe32, Be32;
    LastOfConcat([Attribute(5, v)], [Attribute(255, [])], 5);
  }

  // ---------------------------------------------------------------- telling datagrams apart

  /** The message asks for a tunnel. */
  predicate IsRequest(m: Message) {
    m.msgtype == 1
  }

  /** The message acknowledges a filter list. */
  predicate IsAck(m: Message) {
    m.msgtype == 6 && LastOf(m.attributes, 30).Some?
  }

  /** The message has the session number `n` exactly if that is not 0. */
  predicate HasSession(m: Message, n: uint32) {
    match LastOf(m.attributes, 4)
    case Some(v) => |v| == 4 && FromBe32(v) == n != 0
    case None => n == 0
  }

  /** From its datagram a message can be told to be a request or an ack, and what it says. */
  lemma SentIsRead(m: Sent)
    ensures var d := DatagramOf(m);
      && |d.frame| >= 9 && d.to == m.to && Seen(d).key == m.key
      && (IsRequest(Seen(d)) <==> m.body.Request?)
      && (IsAck(Seen(d)) <==> m.body.FilterListAck?)
      && (m.body.Request? ==>
            && Seen(d).tuntype == (if m.body.kind == Lte then 0 else 8)
            && (m.body.session != Some(0) ==>
                  HasSession(Seen(d), if m.body.session.Some? then m.body.session.value else 0)))
      && (m.body.FilterListAck? ==>
            var v := LastOf(Seen(d).attributes, 30).value;
            |v| == 5 && FromBe32(v[..4]) == m.body.commitCount && v[4] == 2)
  {
    hide Seen, DatagramOf, LastOf, FromBe32;
    match m.body
    case Request(k, session) => RequestIsRead(m.to, m.key, k, session);
    case FilterListAck(n) => AckIsRead(m.to, m.key, n);
    case Verification => VerificationIsRead(m.to, m.key);
    case Hello(k, seconds, milliseconds) => HelloIsRead(m.to, m.key, k, seconds, milliseconds);
  }

  /** Every datagram on the network is that of a message. */
  lemma DatagramIsSent(ms: seq<Sent>, d: Datagram) returns (m: Sent)
    requires d in Datagrams(ms)
    ensures m in ms && d == DatagramOf(m)
  {
    var i :| 0 <= i < |ms| && Datagrams(ms)[i] == d;
    m := ms[i];
  }
}
