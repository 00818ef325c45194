/**
 * What a received message does to the client, read off the octets of the datagram:
 * which messages are refused, and what each kind of message sets.
 */
module Messages {
  import opened Bytes
  import opened Wrappers
  import opened Grecp
  import opened Control

  // ---------------------------------------------------------------- attributes as numbers

  predicate FourOctets(attrs: seq<Attribute>, id: uint8) {
    forall i :: 0 <= i < |attrs| && attrs[i].id == id ==> |attrs[i].value| == 4
  }

  /** The number in the last attribute of type `id`, or `n`. */
  function LastNumber(attrs: seq<Attribute>, id: uint8, n: uint32): uint32
    requires FourOctets(attrs, id)
  {
    LastOfIs(attrs, id);
    match LastOf(attrs, id)
    case Some(v) => FromBe32(v)
    case None => n
  }

  /** The first number but 0 in an attribute of type `id`, or 0. */
  function FirstNonzero(attrs: seq<Attribute>, id: uint8): uint32
    requires FourOctets(attrs, id)
  {
    if attrs == [] then 0
    else if attrs[0].id == id && FromBe32(attrs[0].value) != 0 then FromBe32(attrs[0].value)
    else FirstNonzero(attrs[1..], id)
  }

  /** Attribute `i` has type `id` and is the first of that type with a number but 0. */
  ghost predicate IsFirstNonzero(attrs: seq<Attribute>, id: uint8, i: nat)
    requires FourOctets(attrs, id)
  {
    && i < |attrs| && attrs[i].id == id && FromBe32(attrs[i].value) != 0
    && forall j :: 0 <= j < i && attrs[j].id == id ==> FromBe32(attrs[j].value) == 0
  }

  lemma {:induction false} FirstNonzeroIs(attrs: seq<Attribute>, id: uint8)
    requires FourOctets(attrs, id)
    ensures FirstNonzero(attrs, id) == 0 ==>
      forall i :: 0 <= i < |attrs| && attrs[i].id == id ==> FromBe32(attrs[i].value) == 0
    ensures FirstNonzero(attrs, id) != 0 ==>
      exists i: nat :: IsFirstNonzero(attrs, id, i) && FirstNonzero(attrs, id) == FromBe32(attrs[i].value)
  {
    hide FromBe32;
    if attrs != [] {
      var rest := attrs[1..];
      assert forall j :: 1 <= j < |attrs| ==> attrs[j] == rest[j - 1];
      FirstNonzeroIs(rest, id);
      if attrs[0].id == id && FromBe32(attrs[0].value) != 0 {
        assert IsFirstNonzero(attrs, id, 0);
      } else if FirstNonzero(rest, id) != 0 {
        var i: nat :| IsFirstNonzero(rest, id, i) && FirstNonzero(rest, id) == FromBe32(rest[i].value);
        assert attrs[i + 1] == rest[i];
        forall j | 0 <= j < i + 1 && attrs[j].id == id
          ensures FromBe32(attrs[j].value) == 0
        {
          assert j > 0 ==> attrs[j] == rest[j - 1];
        }
        assert IsFirstNonzero(attrs, id, i + 1);
      }
    }
  }

  // ---------------------------------------------------------------- the handlers

  lemma AcceptSizes(attrs: seq<Attribute>)
    requires AllWellSized(ACCEPT, attrs)
    ensures FourOctets(attrs, 4) && FourOctets(attrs, 14) && FourOctets(attrs, 15) && FourOctets(attrs, 20)
  {
    assert forall i :: 0 <= i < |attrs| ==> WellSized(ACCEPT, attrs[i]);
  }

  /**
   * An accept leaves the address, the session number and the key of its last attributes
   * 2, 4 and 20, and fills an interval or limit of 0 from the first attribute 14 or 15
   * that is not 0. Nothing else of the session changes.
   */
  lemma {:induction false} AcceptAllIs(h: Haap, attrs: seq<Attribute>)
    requires AllWellSized(ACCEPT, attrs)
    ensures FourOctets(attrs, 4) && FourOctets(attrs, 14) && FourOctets(attrs, 15) && FourOctets(attrs, 20)
    ensures AcceptAll(h, attrs) == h.(
        ip := match LastOf(attrs, 2) case Some(v) => v case None => h.ip,
        sessionId := LastNumber(attrs, 4, h.sessionId),
        bondingKey := LastNumber(attrs, 20, h.bondingKey),
        helloInterval := if h.helloInterval != 0 then h.helloInterval else FirstNonzero(attrs, 14),
        retryTimes := if h.retryTimes != 0 then h.retryTimes else FirstNonzero(attrs, 15))
    decreases |attrs|
  {
    hide FromBe32;
    AcceptSizes(attrs);
    if attrs != [] {
      assert WellSized(ACCEPT, attrs[0]);
      AcceptAllIs(AcceptOne(h, attrs[0]), attrs[1..]);
      hide AllWellSized, WellSized;
    }
  }

  /** A hello records the seconds of its last timestamp, attribute 5, and clears the misses. */
  lemma {:induction false} HelloRecords(t: Tunnel, attrs: seq<Attribute>)
    requires AllWellSized(HELLO, attrs)
    ensures match LastOf(attrs, 5)
      case Some(v) => |v| == 8 && HelloAll(t, attrs) == t.(lastReceived := FromBe32(v[..4]), missed := 0)
      case None => HelloAll(t, attrs) == t
    decreases |attrs|
  {
    hide FromBe32;
    if attrs != [] {
      assert WellSized(HELLO, attrs[0]);
      HelloRecords(HelloOne(t, attrs[0]), attrs[1..]);
    }
  }

  /** A notify leaves the commit count of its last attribute 8, to be acknowledged, and notes an attribute 35. */
  lemma {:induction false} NotifyRecords(s: Runtime, attrs: seq<Attribute>)
    requires AllWellSized(NOTIFY, attrs)
    ensures var noted := s.(verify := s.verify || LastOf(attrs, 35).Some?);
      match LastOf(attrs, 8)
      case Some(v) => |v| >= 4
        && NotifyAll(s, attrs) == noted.(haap := s.haap.(commitCount := FromBe32(v[..4])), acked := false)
      case None => NotifyAll(s, attrs) == noted
    decreases |attrs|
  {
    hide FromBe32;
    if attrs != [] {
      assert WellSized(NOTIFY, attrs[0]);
      NotifyRecords(NotifyOne(s, attrs[0]), attrs[1..]);
    }
  }

  /** The seconds of the last timestamp of a hello. */
  function EchoOf(attrs: seq<Attribute>): Option<uint32>
    requires AllWellSized(HELLO, attrs)
  {
    HelloRecords(Tunnel(false, 0, 0, 0), attrs);
    match LastOf(attrs, 5)
    case Some(v) => Some(FromBe32(v[..4]))
    case None => None
  }

  /** The commit count of the last filter list package of a notify. */
  function LastPackage(attrs: seq<Attribute>): Option<uint32>
    requires AllWellSized(NOTIFY, attrs)
  {
    PackageSize(attrs);
    match LastOf(attrs, 8)
    case Some(v) => Some(FromBe32(v[..4]))
    case None => None
  }

  lemma PackageSize(attrs: seq<Attribute>)
    requires AllWellSized(NOTIFY, attrs)
    ensures LastOf(attrs, 8).Some? ==> |LastOf(attrs, 8).value| >= 4
  {
    LastOfIs(attrs, 8);
    assert forall i :: 0 <= i < |attrs| ==> WellSized(NOTIFY, attrs[i]);
  }

  /** A teardown reports the number in its last attribute 17, or 0. */
  lemma {:induction false} TeardownReports(attrs: seq<Attribute>, code: uint32)
    requires AllWellSized(TEARDOWN, attrs)
    ensures FourOctets(attrs, 17) && ErrorOf(attrs, code) == LastNumber(attrs, 17, code)
    decreases |attrs|
  {
    hide FromBe32;
    assert forall i :: 0 <= i < |attrs| ==> WellSized(TEARDOWN, attrs[i]);
    if attrs != [] {
      TeardownReports(attrs[1..], if attrs[0].id == ERROR_CODE then FromBe32(attrs[0].value) else code);
    }
  }

  // ---------------------------------------------------------------- the dispatch

  /** The attributes behind the nine octets of the headers. */
  function Carried(buffer: Bytes, size: nat): seq<Attribute>
    requires 9 <= |buffer| && size <= |buffer|
  {
    AttributesAt(buffer, 9, size - 9)
  }

  /** The handlers' assumption on the attributes of the message in the buffer. */
  predicate Readable(buffer: Bytes, size: nat)
    requires 9 <= |buffer| && size <= |buffer|
  {
    AllWellSized(Decode(buffer, size).msgtype, Decode(buffer, size).attributes)
  }

  /** The datagram in the buffer as the dispatch sees it, octet by octet. */
  lemma DecodeOctets(buffer: Bytes, size: nat)
    requires 9 <= |buffer| && size <= |buffer|
    ensures var m := Decode(buffer, size);
      && (m.flags == Gre.FLAGS <==> buffer[0] == 0x20 && buffer[1] == 0)
      && m.key == FromBe32(buffer[4..8])
      && m.msgtype == buffer[8] / 16 && m.tuntype == buffer[8] % 16
      && m.attributes == Carried(buffer, size)
  {
    Gre.FlagOctets(buffer);
  }

  /**
   * A datagram is refused if it has another source than the HAAP, other flags than
   * 20 00, a wrong key without being an accept, another tunnel type than 0 and 8, or
   * another message type than 2, 4, 5 and 6.
   */
  lemma RefusedChangesNothing(s: Runtime, source: Bytes, buffer: Bytes, size: nat, now: nat)
    requires 9 <= |buffer| && size <= |buffer| && Readable(buffer, size)
    requires || source != s.haap.ip
             || buffer[0] != 0x20 || buffer[1] != 0
             || (FromBe32(buffer[4..8]) != s.haap.bondingKey && buffer[8] / 16 != 2)
             || (buffer[8] % 16 != 0 && buffer[8] % 16 != 8)
             || (buffer[8] / 16 != 2 && !(4 <= buffer[8] / 16 <= 6))
    ensures Process(s, source, Decode(buffer, size), now) == s
  {
    DecodeOctets(buffer, size);
    hide Decode, AllWellSized, FromBe32;
  }

  /** An accept, whatever its key, establishes exactly the tunnel of its type, with both hello times set to now. */
  lemma AcceptEstablishes(s: Runtime, buffer: Bytes, size: nat, now: nat)
    requires 9 <= |buffer| && size <= |buffer| && Readable(buffer, size)
    requires buffer[0] == 0x20 && buffer[1] == 0 && (buffer[8] == 0x20 || buffer[8] == 0x28)
    ensures var attrs, s' := Carried(buffer, size), Process(s, s.haap.ip, Decode(buffer, size), now);
      && FourOctets(attrs, 4) && FourOctets(attrs, 14) && FourOctets(attrs, 15) && FourOctets(attrs, 20)
      && s'.lte == (if buffer[8] == 0x20 then Tunnel(true, now, now, s.lte.missed) else s.lte)
      && s'.dsl == (if buffer[8] == 0x28 then Tunnel(true, now, now, s.dsl.missed) else s.dsl)
      && s'.bonding == s.bonding && s'.acked == s.acked && s'.created == s.created && s'.verify == s.verify
      && s'.haap == s.haap.(
           ip := match LastOf(attrs, 2) case Some(v) => v case None => s.haap.ip,
           sessionId := LastNumber(attrs, 4, s.haap.sessionId),
           bondingKey := LastNumber(attrs, 20, s.haap.bondingKey),
           helloInterval := if s.haap.helloInterval != 0 then s.haap.helloInterval else FirstNonzero(attrs, 14),
           retryTimes := if s.haap.retryTimes != 0 then s.haap.retryTimes else FirstNonzero(attrs, 15))
  {
    DecodeOctets(buffer, size);
    hide Decode, AllWellSized, FromBe32, LastOf, LastNumber, FirstNonzero, AcceptAll, Carried, FourOctets;
    AcceptAllIs(s.haap, Carried(buffer, size));
  }

  /** A hello with the current key touches nothing but what its tunnel heard last and missed. */
  lemma HelloIsHeard(s: Runtime, buffer: Bytes, size: nat, now: nat)
    requires 9 <= |buffer| && size <= |buffer| && Readable(buffer, size)
    requires buffer[0] == 0x20 && buffer[1] == 0 && FromBe32(buffer[4..8]) == s.haap.bondingKey
    requires buffer[8] == 0x40 || buffer[8] == 0x48
    ensures var s' := Process(s, s.haap.ip, Decode(buffer, size), now);
      match LastOf(Carried(buffer, size), 5)
      case Some(v) => |v| == 8
        && s' == (if buffer[8] == 0x40 then s.(lte := s.lte.(lastReceived := FromBe32(v[..4]), missed := 0))
                  else s.(dsl := s.dsl.(lastReceived := FromBe32(v[..4]), missed := 0)))
      case None => s' == s
  {
    DecodeOctets(buffer, size);
    hide Decode, AllWellSized, FromBe32, LastOf, HelloAll, Carried;
    HelloRecords(s.lte, Carried(buffer, size));
    HelloRecords(s.dsl, Carried(buffer, size));
  }

  /** A teardown with the current key, for either tunnel, takes both down and changes nothing else. */
  lemma TeardownTakesDown(s: Runtime, buffer: Bytes, size: nat, now: nat)
    requires 9 <= |buffer| && size <= |buffer| && Readable(buffer, size)
    requires buffer[0] == 0x20 && buffer[1] == 0 && FromBe32(buffer[4..8]) == s.haap.bondingKey
    requires buffer[8] == 0x50 || buffer[8] == 0x58
    ensures Process(s, s.haap.ip, Decode(buffer, size), now)
         == s.(lte := s.lte.(established := false), dsl := s.dsl.(established := false))
  {
    DecodeOctets(buffer, size);
    hide Decode, AllWellSized, FromBe32;
  }

  /** A notify with the current key records its filter list package and its verification request, and nothing else. */
  lemma NotifyIsRecorded(s: Runtime, buffer: Bytes, size: nat, now: nat)
    requires 9 <= |buffer| && size <= |buffer| && Readable(buffer, size)
    requires buffer[0] == 0x20 && buffer[1] == 0 && FromBe32(buffer[4..8]) == s.haap.bondingKey
    requires buffer[8] == 0x60 || buffer[8] == 0x68
    ensures var attrs, s' := Carried(buffer, size), Process(s, s.haap.ip, Decode(buffer, size), now);
      var noted := s.(verify := s.verify || LastOf(attrs, 35).Some?);
      match LastOf(attrs, 8)
      case Some(v) => |v| >= 4
        && s' == noted.(haap := s.haap.(commitCount := FromBe32(v[..4])), acked := false)
      case None => s' == noted
  {
    DecodeOctets(buffer, size);
    hide Decode, AllWellSized, FromBe32, LastOf, NotifyAll, Carried;
    NotifyRecords(s, Carried(buffer, size));
  }
}
