/** The client as it runs: message handlers over the receive buffer, and the timers. */
module Client {
  import opened Bytes
  import opened Wrappers
  import opened Grecp
  import opened Control

  /** The receive buffer, of which a datagram filled the first `size` octets. */
  predicate Received(buffer: Bytes, size: nat) {
    |buffer| == Gre.MAX_PKT_SIZE && size <= |buffer|
  }

  class Client {
    var haap: Haap
    var bonding: bool
    var acked: bool
    var created: bool
    var verify: bool
    var lte: Tunnel
    var dsl: Tunnel
    var network: seq<Datagram>   // what was handed to the raw socket

    function State(): Runtime
      reads this
    {
      Runtime(haap, bonding, acked, created, verify, lte, dsl)
    }

    // ------------------------------------------------------------ message handlers

    method AcceptAttribute(attr: Attribute)
      requires WellSized(ACCEPT, attr)
      modifies this`haap
      ensures haap == AcceptOne(old(haap), attr)
    {
      if attr.id == H_IPV6_ADDRESS {
        haap := haap.(ip := attr.value);
      } else if attr.id == SESSION_ID {
        haap := haap.(sessionId := FromBe32(attr.value));
      } else if attr.id == ACTIVE_HELLO_INTERVAL {
        if haap.helloInterval == 0 {
          haap := haap.(helloInterval := FromBe32(attr.value));
        }
      } else if attr.id == HELLO_RETRY_TIMES {
        if haap.retryTimes == 0 {
          haap := haap.(retryTimes := FromBe32(attr.value));
        }
      } else if attr.id == BONDING_KEY_VALUE {
        haap := haap.(bondingKey := FromBe32(attr.value));
      }
    }

    method HandleAccept(k: Kind, buffer: Bytes, offset0: nat, size0: int, now: nat)
      requires offset0 <= |buffer| && offset0 + size0 <= |buffer|
      requires AllWellSized(ACCEPT, AttributesAt(buffer, offset0, size0))
      modifies this`haap, this`lte, this`dsl
      ensures State() == WithTunnel(old(State()).(haap := AcceptAll(old(haap), AttributesAt(buffer, offset0, size0))),
                                    k, Establish(old(TunnelOf(State(), k)), now))
    {
      hide AttributesAt, AcceptOne, WellSized;
      ghost var attrs := AttributesAt(buffer, offset0, size0);
      var offset, size := offset0, size0;
      var bytesRead, attr := ReadAttribute(buffer, offset, size);
      while bytesRead > 0
        invariant 0 <= offset <= |buffer| && offset + size <= |buffer|
        invariant attrs == AttributesAt(buffer, offset, size) && AllWellSized(ACCEPT, attrs)
        invariant AcceptAll(haap, attrs) == AcceptAll(old(haap), AttributesAt(buffer, offset0, size0))
        invariant lte == old(lte) && dsl == old(dsl)
        invariant 0 <= bytesRead && (bytesRead > 0 ==> bytesRead <= size)
        invariant attrs == if bytesRead == 0 then []
                           else [attr] + AttributesAt(buffer, offset + bytesRead, size - bytesRead)
        decreases size
      {
        assert attrs[0] == attr && attrs[1..] == AttributesAt(buffer, offset + bytesRead, size - bytesRead);
        AcceptAttribute(attr);
        attrs := attrs[1..];
        offset, size := offset + bytesRead, size - bytesRead;
        bytesRead, attr := ReadAttribute(buffer, offset, size);
      }
      if k.Lte? {
        lte := lte.(established := true);
        lte := lte.(lastSent := now);
        lte := lte.(lastReceived := lte.lastSent);
      } else {
        dsl := dsl.(established := true);
        dsl := dsl.(lastSent := now);
        dsl := dsl.(lastReceived := dsl.lastSent);
      }
    }

    method HelloAttribute(k: Kind, attr: Attribute)
      requires WellSized(HELLO, attr)
      modifies this`lte, this`dsl
      ensures State() == WithTunnel(old(State()), k, HelloOne(old(TunnelOf(State(), k)), attr))
    {
      if attr.id == TIMESTAMP {
        var seconds := FromBe32(attr.value[..4]);
        if k.Lte? {
          lte := lte.(lastReceived := seconds);
          lte := lte.(missed := 0);
        } else {
          dsl := dsl.(lastReceived := seconds);
          dsl := dsl.(missed := 0);
        }
      }
    }

    method HandleHello(k: Kind, buffer: Bytes, offset0: nat, size0: int)
      requires offset0 <= |buffer| && offset0 + size0 <= |buffer|
      requires AllWellSized(HELLO, AttributesAt(buffer, offset0, size0))
      modifies this`lte, this`dsl
      ensures State() == WithTunnel(old(State()), k,
                                    HelloAll(old(TunnelOf(State(), k)), AttributesAt(buffer, offset0, size0)))
    {
      hide AttributesAt, HelloOne, WellSized;
      ghost var attrs := AttributesAt(buffer, offset0, size0);
      var offset, size := offset0, size0;
      var bytesRead, attr := ReadAttribute(buffer, offset, size);
      while bytesRead > 0
        invariant 0 <= offset <= |buffer| && offset + size <= |buffer|
        invariant attrs == AttributesAt(buffer, offset, size) && AllWellSized(HELLO, attrs)
        invariant HelloAll(TunnelOf(State(), k), attrs)
               == HelloAll(old(TunnelOf(State(), k)), AttributesAt(buffer, offset0, size0))
        invariant State() == WithTunnel(old(State()), k, TunnelOf(State(), k))
        invariant 0 <= bytesRead && (bytesRead > 0 ==> bytesRead <= size)
        invariant attrs == if bytesRead == 0 then []
                           else [attr] + AttributesAt(buffer, offset + bytesRead, size - bytesRead)
        decreases size
      {
        assert attrs[0] == attr && attrs[1..] == AttributesAt(buffer, offset + bytesRead, size - bytesRead);
        HelloAttribute(k, attr);
        attrs := attrs[1..];
        offset, size := offset + bytesRead, size - bytesRead;
        bytesRead, attr := ReadAttribute(buffer, offset, size);
      }
    }

    method NotifyAttribute(attr: Attribute)
      requires WellSized(NOTIFY, attr)
      modifies this`haap, this`acked, this`verify
      ensures State() == NotifyOne(old(State()), attr)
    {
      if attr.id == FILTER_LIST_PACKAGE {
        haap := haap.(commitCount := FromBe32(attr.value[..4]));
        acked := false;
      } else if attr.id == TUNNEL_VERIFICATION {
        verify := true;
      }
    }

    method HandleNotify(buffer: Bytes, offset0: nat, size0: int)
      requires offset0 <= |buffer| && offset0 + size0 <= |buffer|
      requires AllWellSized(NOTIFY, AttributesAt(buffer, offset0, size0))
      modifies this`haap, this`acked, this`verify
      ensures State() == NotifyAll(old(State()), AttributesAt(buffer, offset0, size0))
    {
      hide AttributesAt, NotifyOne, WellSized;
      ghost var attrs := AttributesAt(buffer, offset0, size0);
      var offset, size := offset0, size0;
      var bytesRead, attr := ReadAttribute(buffer, offset, size);
      while bytesRead > 0
        invariant 0 <= offset <= |buffer| && offset + size <= |buffer|
        invariant attrs == AttributesAt(buffer, offset, size) && AllWellSized(NOTIFY, attrs)
        invariant NotifyAll(State(), attrs) == NotifyAll(old(State()), AttributesAt(buffer, offset0, size0))
        invariant 0 <= bytesRead && (bytesRead > 0 ==> bytesRead <= size)
        invariant attrs == if bytesRead == 0 then []
                           else [attr] + AttributesAt(buffer, offset + bytesRead, size - bytesRead)
        decreases size
      {
        assert attrs[0] == attr && attrs[1..] == AttributesAt(buffer, offset + bytesRead, size - bytesRead);
        NotifyAttribute(attr);
        attrs := attrs[1..];
        offset, size := offset + bytesRead, size - bytesRead;
        bytesRead, attr := ReadAttribute(buffer, offset, size);
      }
    }

    static lemma ErrorIsWellSized(attr: Attribute)
      requires WellSized(TEARDOWN, attr) && attr.id == ERROR_CODE
      ensures |attr.value| == 4
    {
    }

    method HandleTeardown(buffer: Bytes, offset0: nat, size0: int) returns (errorCode: uint32)
      requires offset0 <= |buffer| && offset0 + size0 <= |buffer|
      requires AllWellSized(TEARDOWN, AttributesAt(buffer, offset0, size0))
      modifies this`lte, this`dsl
      ensures errorCode == ErrorOf(AttributesAt(buffer, offset0, size0), 0)
      ensures State() == old(State()).(lte := old(lte).(established := false), dsl := old(dsl).(established := false))
    {
      hide AttributesAt, WellSized;
      errorCode := 0;
      ghost var attrs := AttributesAt(buffer, offset0, size0);
      var offset, size := offset0, size0;
      var bytesRead, attr := ReadAttribute(buffer, offset, size);
      while bytesRead > 0
        invariant 0 <= offset <= |buffer| && offset + size <= |buffer|
        invariant attrs == AttributesAt(buffer, offset, size) && AllWellSized(TEARDOWN, attrs)
        invariant ErrorOf(attrs, errorCode) == ErrorOf(AttributesAt(buffer, offset0, size0), 0)
        invariant lte == old(lte) && dsl == old(dsl)
        invariant 0 <= bytesRead && (bytesRead > 0 ==> bytesRead <= size)
        invariant attrs == if bytesRead == 0 then []
                           else [attr] + AttributesAt(buffer, offset + bytesRead, size - bytesRead)
        decreases size
      {
        assert attrs[0] == attr && attrs[1..] == AttributesAt(buffer, offset + bytesRead, size - bytesRead);
        if attr.id == ERROR_CODE {
          assert |attr.value| == 4 by { ErrorIsWellSized(attr); }
          errorCode := FromBe32(attr.value);
        }
        attrs := attrs[1..];
        offset, size := offset + bytesRead, size - bytesRead;
        bytesRead, attr := ReadAttribute(buffer, offset, size);
      }
      lte := lte.(established := false);
      dsl := dsl.(established := false);
    }

    /** process_grecpmessage behind the source address check of the main loop. */
    method ProcessMessage(source: Bytes, buffer: Bytes, size: nat, now: nat)
      requires Received(buffer, size)
      requires AllWellSized(Decode(buffer, size).msgtype, Decode(buffer, size).attributes)
      modifies this`haap, this`acked, this`verify, this`lte, this`dsl
      ensures State() == Process(old(State()), source, Decode(buffer, size), now)
    {
      hide Gre.FlagsOf, Gre.KeyOf, AttributesAt;
      if source != haap.ip {
        return;
      }
      if Gre.FlagsOf(buffer) != Gre.FLAGS {
        return;
      }
      var msgtype, tuntype := buffer[8] / 16, buffer[8] % 16;
      if Gre.KeyOf(buffer) != haap.bondingKey && msgtype != ACCEPT {
        return;
      } else if tuntype != TUNTYPE_LTE && tuntype != TUNTYPE_DSL {
        return;
      }
      var k := if tuntype == TUNTYPE_LTE then Lte else Dsl;
      if msgtype == ACCEPT {
        HandleAccept(k, buffer, HEADER_SIZE, size - HEADER_SIZE, now);
      } else if msgtype == HELLO {
        HandleHello(k, buffer, HEADER_SIZE, size - HEADER_SIZE);
      } else if msgtype == TEARDOWN {
        var _ := HandleTeardown(buffer, HEADER_SIZE, size - HEADER_SIZE);
      } else if msgtype == NOTIFY {
        HandleNotify(buffer, HEADER_SIZE, size - HEADER_SIZE);
      }
    }

    // ------------------------------------------------------------ sending

    method SendMessage(msgtype: nat, tuntype: nat, attributes: Bytes, ok: bool) returns (sent: bool)
      requires msgtype < 16 && tuntype < 16 && HEADER_SIZE + |attributes| <= Gre.MAX_PKT_SIZE
      modifies this`network
      ensures sent == ok
      ensures network == old(network) +
        (if ok then [Datagram(haap.ip, Frame(msgtype, tuntype, haap.bondingKey, attributes))] else [])
    {
      var frame := FrameMessage(msgtype, tuntype, haap.bondingKey, attributes);
      if ok {
        network := network + [Datagram(haap.ip, frame)];
      }
      sent := ok;
    }

    method SendRequest(k: Kind, ok: bool)
      modifies this`network
      ensures network == old(network) + Datagrams(Send(State(), ok, Request(k, SessionOf(State()))))
    {
      var buffer := new byte[Gre.MAX_PKT_SIZE];
      var size := 0;
      ghost var attrs: seq<Attribute> := [];
      if k.Lte? {
        size := AppendTo(buffer, size, attrs, Attribute(CLIENT_IDENTIFICATION_NAME, CLIENT_NAME));
        attrs := attrs + [Attribute(CLIENT_IDENTIFICATION_NAME, CLIENT_NAME)];
      }
      if haap.sessionId != 0 {
        size := AppendTo(buffer, size, attrs, Attribute(SESSION_ID, Be32(haap.sessionId)));
        attrs := attrs + [Attribute(SESSION_ID, Be32(haap.sessionId))];
      }
      size := AppendTo(buffer, size, attrs, PAD);
      attrs := attrs + [PAD];
      assert attrs == AttributesOf(Request(k, SessionOf(State())));
      var sent := SendMessage(REQUEST, TunType(k), buffer[..size], ok);
    }

    method SendFilterListAck(ok: bool) returns (sent: bool)
      modifies this`network
      ensures sent == ok
      ensures network == old(network) + Datagrams(Send(State(), ok, FilterListAck(haap.commitCount)))
    {
      var buffer := new byte[Gre.MAX_PKT_SIZE];
      var ack := Attribute(FILTER_LIST_PACKAGE_ACK, Be32(haap.commitCount) + [2]);
      var size := AppendTo(buffer, 0, [], ack);
      size := AppendTo(buffer, size, [] + [ack], PAD);
      assert [] + [ack] + [PAD] == AttributesOf(FilterListAck(haap.commitCount));
      sent := SendMessage(NOTIFY, TUNTYPE_LTE, buffer[..size], ok);
    }

    method SendVerification(ok: bool) returns (sent: bool)
      modifies this`network
      ensures sent == ok
      ensures network == old(network) + Datagrams(Send(State(), ok, Verification))
    {
      var buffer := new byte[Gre.MAX_PKT_SIZE];
      var verification := Attribute(TUNNEL_VERIFICATION, []);
      var size := AppendTo(buffer, 0, [], verification);
      size := AppendTo(buffer, size, [] + [verification], PAD);
      assert [] + [verification] + [PAD] == AttributesOf(Verification);
      sent := SendMessage(NOTIFY, TUNTYPE_LTE, buffer[..size], ok);
    }

    /** send_grecphello: the time of the hello is recorded even when the send fails. */
    method SendHelloMessage(k: Kind, stamp: nat, milliseconds: uint32, ok: bool)
      modifies this`network, this`lte, this`dsl
      ensures network == old(network) + Datagrams(Send(State(), ok, Hello(k, ToUint32(stamp), milliseconds)))
      ensures State() == WithTunnel(old(State()), k, old(TunnelOf(State(), k)).(lastSent := ToUint32(stamp)))
    {
      var buffer := new byte[Gre.MAX_PKT_SIZE];
      var seconds := ToUint32(stamp);
      var timestamp := Attribute(TIMESTAMP, Be32(seconds) + Be32(milliseconds));
      var size := AppendTo(buffer, 0, [], timestamp);
      size := AppendTo(buffer, size, [] + [timestamp], PAD);
      assert [] + [timestamp] + [PAD] == AttributesOf(Hello(k, seconds, milliseconds));
      var sent := SendMessage(HELLO, TunType(k), buffer[..size], ok);
      if k.Lte? {
        lte := lte.(lastSent := seconds);
      } else {
        dsl := dsl.(lastSent := seconds);
      }
    }

    // ------------------------------------------------------------ the timers

    /** Lines 79-85 and 86-92 of execute_timers. */
    method HelloTimer(k: Kind, env: Env)
      modifies this`network, this`lte, this`dsl
      ensures State() == WithTunnel(old(State()), k,
        AfterHello(old(TunnelOf(State(), k)), Check(env, k), Stamp(env, k), old(haap).helloInterval))
      ensures network == old(network) + Datagrams(SendHello(old(State()), k, env))
    {
      assert Datagrams([]) == [];
      hide Datagrams;
      var t := TunnelOf(State(), k);
      if t.established && t.lastSent < Check(env, k) - haap.helloInterval {
        if t.lastReceived != t.lastSent {
          if k.Lte? {
            lte := lte.(missed := (lte.missed as int + 1) % 0x100);
          } else {
            dsl := dsl.(missed := (dsl.missed as int + 1) % 0x100);
          }
        }
        SendHelloMessage(k, Stamp(env, k), if k.Lte? then env.lteMs else env.dslMs,
                         if k.Lte? then env.lteHelloOk else env.dslHelloOk);
      }
    }

    /** Lines 60-65: connect, if not connected. */
    method RequestTimer(env: Env)
      modifies this`network
      ensures network == old(network) + Datagrams(Control.SendRequest(State(), env))
    {
      if !lte.established {
        SendRequest(Lte, env.requestOk);
      } else if bonding && !dsl.established {
        SendRequest(Dsl, env.requestOk);
      }
    }

    /** Lines 67-71: acknowledge the filter list. */
    method AckTimer(env: Env)
      modifies this`network, this`acked
      ensures acked == if AckDue(old(State())) then env.ackOk else old(acked)
      ensures network == old(network) + Datagrams(SendAck(old(State()), env))
    {
      if lte.established && haap.commitCount > 0 && !acked {
        acked := SendFilterListAck(env.ackOk);
      }
    }

    /** Lines 73-76: answer a tunnel verification. */
    method VerificationTimer(env: Env)
      modifies this`network, this`verify
      ensures verify == if lte.established && old(verify) then !env.verifyOk else old(verify)
      ensures network == old(network) + Datagrams(Control.SendVerification(old(State()), env))
    {
      if lte.established && verify {
        var sent := SendVerification(env.verifyOk);
        verify := !sent;
      }
    }

    /** Lines 94-123: the verdict on missed hellos, and the reset of statistics. */
    method JudgeAndReset()
      modifies this`lte, this`dsl, this`verify
      ensures lte == AfterReset(AfterVerdict(old(lte), haap.retryTimes), created)
      ensures dsl == AfterReset(AfterVerdict(old(dsl), haap.retryTimes), created)
      ensures verify == if !lte.established && created then false else old(verify)
    {
      if lte.established && lte.missed >= haap.retryTimes {
        lte := lte.(established := false);
      }
      if dsl.established && dsl.missed >= haap.retryTimes {
        dsl := dsl.(established := false);
      }
      if !lte.established && created {
        lte := lte.(established := false, missed := 0, lastSent := 0, lastReceived := 0);
        verify := false;
      }
      if !dsl.established && created {
        dsl := dsl.(established := false, missed := 0, lastSent := 0, lastReceived := 0);
      }
    }

    /** Lines 60-76. */
    method SendSessionMessages(env: Env)
      modifies this`network, this`acked, this`verify
      ensures acked == if AckDue(old(State())) then env.ackOk else old(acked)
      ensures verify == if lte.established && old(verify) then !env.verifyOk else old(verify)
      ensures network == old(network) + Datagrams(SessionMessages(old(State()), env))
    {
      hide Datagrams, Send;
      ghost var s := State();
      RequestTimer(env);
      AckTimer(env);
      VerificationKeeps(s, State(), env);
      VerificationTimer(env);
      DatagramsConcat(Control.SendRequest(s, env), SendAck(s, env));
      DatagramsConcat(Control.SendRequest(s, env) + SendAck(s, env), Control.SendVerification(s, env));
    }

    static lemma VerificationKeeps(s: Runtime, s': Runtime, env: Env)
      requires s' == s.(acked := s'.acked)
      ensures Control.SendVerification(s', env) == Control.SendVerification(s, env)
    {
    }

    /** Lines 78-92. */
    method SendHellos(env: Env)
      modifies this`network, this`lte, this`dsl
      ensures lte == AfterHello(old(lte), env.lteCheck, env.lteStamp, haap.helloInterval)
      ensures dsl == AfterHello(old(dsl), env.dslCheck, env.dslStamp, haap.helloInterval)
      ensures network == old(network) + Datagrams(SendHello(old(State()), Lte, env) + SendHello(old(State()), Dsl, env))
    {
      hide Datagrams, AfterHello;
      ghost var s := State();
      HelloTimer(Lte, env);
      HelloTimer(Dsl, env);
      DatagramsConcat(SendHello(s, Lte, env), SendHello(s, Dsl, env));
    }

    /** Lines 60-92: everything a tick sends. */
    method SendTimers(env: Env)
      modifies this`network, this`acked, this`verify, this`lte, this`dsl
      ensures acked == if AckDue(old(State())) then env.ackOk else old(acked)
      ensures verify == if old(lte).established && old(verify) then !env.verifyOk else old(verify)
      ensures lte == AfterHello(old(lte), env.lteCheck, env.lteStamp, haap.helloInterval)
      ensures dsl == AfterHello(old(dsl), env.dslCheck, env.dslStamp, haap.helloInterval)
      ensures network == old(network) + Datagrams(Outgoing(old(State()), env))
    {
      hide Datagrams, AfterHello, SessionMessages;
      ghost var s := State();
      SendSessionMessages(env);
      SendHellos(env);
      DatagramsConcat(SessionMessages(s, env), SendHello(s, Lte, env) + SendHello(s, Dsl, env));
    }

    /** execute_timers, without device names, threads and DHCP. */
    method ExecuteTimers(env: Env)
      modifies this
      ensures State() == Tick(old(State()), env)
      ensures network == old(network) + Datagrams(Outgoing(old(State()), env))
    {
      ghost var s, n := State(), network;
      SendTimers(env);
      JudgeAndReset();
      if !lte.established && !dsl.established {
        haap := haap.(ip := haap.anycast, bondingKey := 0, sessionId := 0, commitCount := 0);
        acked := false;
      }
      if (lte.established || dsl.established) && !created {
        created := env.createdUp;
      } else if !lte.established && !dsl.established && created {
        created := env.createdDown;
      }
    }

    /** One iteration of the main loop: at most one datagram from the socket, then the timers. */
    method Iterate(received: Option<(Bytes, Bytes, nat)>, now: nat, env: Env)
      requires received.Some? ==> Received(received.value.1, received.value.2)
      requires Sane(InputOf(received, now, env))
      modifies this
      ensures State() == Next(old(State()), InputOf(received, now, env))
      ensures network == old(network) + Datagrams(Sends(old(State()), InputOf(received, now, env)))
      ensures received.None? ==>
        State() == Tick(old(State()), env) && network == old(network) + Datagrams(Outgoing(old(State()), env))
      ensures received.Some? ==>
        var (source, buffer, size) := received.value;
        var r := Process(old(State()), source, Decode(buffer, size), now);
        State() == Tick(r, env) && network == old(network) + Datagrams(Outgoing(r, env))
    {
      hide Tick, Process, Datagrams, Outgoing, Decode, AllWellSized;
      if received.Some? {
        var (source, buffer, size) := received.value;
        ProcessMessage(source, buffer, size, now);
      }
      ExecuteTimers(env);
    }
  }

  /** What an iteration sees of a datagram: its source and the decoded message. */
  function InputOf(received: Option<(Bytes, Bytes, nat)>, now: nat, env: Env): Input
    requires received.Some? ==> Received(received.value.1, received.value.2)
  {
    Input(if received.Some? then
            Some(Incoming(received.value.0, Decode(received.value.1, received.value.2)))
          else None, now, env)
  }
}
