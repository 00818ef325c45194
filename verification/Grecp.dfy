/**
 * GRE tunnel bonding control messages (section 5 of RFC 8157): a GRE header with
 * a key, one octet of message and tunnel type, and a list of attributes, each an
 * octet of type, two of length, and a value.
 */
module Grecp {
  import opened Bytes
  import opened Wrappers
  import Gre

  const PROTO: uint16 := 0x0101
  const HEADER_SIZE := 9

  const REQUEST := 1
  const ACCEPT := 2
  const DENY := 3
  const HELLO := 4
  const TEARDOWN := 5
  const NOTIFY := 6

  const H_IPV6_ADDRESS := 2
  const CLIENT_IDENTIFICATION_NAME := 3
  const SESSION_ID := 4
  const TIMESTAMP := 5
  const FILTER_LIST_PACKAGE := 8
  const ACTIVE_HELLO_INTERVAL := 14
  const HELLO_RETRY_TIMES := 15
  const ERROR_CODE := 17
  const BONDING_KEY_VALUE := 20
  const FILTER_LIST_PACKAGE_ACK := 30
  const TUNNEL_VERIFICATION := 35
  const PADDING := 255

  const TUNTYPE_LTE := 0
  const TUNTYPE_DSL := 8

  datatype Attribute = Attribute(id: uint8, value: Bytes)

  /** The value fits the 16-bit length field. */
  predicate Fits(a: Attribute) {
    |a.value| <= UINT16_MAX
  }

  predicate AllFit(attrs: seq<Attribute>) {
    forall i :: 0 <= i < |attrs| ==> Fits(attrs[i])
  }

  function Encode(a: Attribute): Bytes
    requires Fits(a)
  {
    [a.id] + Be16(|a.value|) + a.value
  }

  function EncodeAll(attrs: seq<Attribute>): Bytes
    requires AllFit(attrs)
  {
    if attrs == [] then [] else Encode(attrs[0]) + EncodeAll(attrs[1..])
  }

  /** The length an attribute at the start of `b` declares. */
  function DeclaredLength(b: Bytes): uint16
    requires |b| >= 3
  {
    FromBe16(b[1..3])
  }

  /** An attribute on the wire: an octet of type, two of length, the value. */
  lemma AttributeOctets(a: Attribute)
    requires Fits(a)
    ensures Encode(a) == [a.id, |a.value| / 0x100, |a.value| % 0x100] + a.value
  {
  }

  /** The value of the last attribute of type `id`. */
  function LastOf(attrs: seq<Attribute>, id: uint8): Option<Bytes> {
    if attrs == [] then None
    else
      var rest := LastOf(attrs[1..], id);
      if rest.Some? then rest else if attrs[0].id == id then Some(attrs[0].value) else None
  }

  /** `a` is in `attrs`, and no attribute behind it has its type. */
  ghost predicate IsLast(attrs: seq<Attribute>, a: Attribute) {
    exists i :: 0 <= i < |attrs| && attrs[i] == a && forall j :: i < j < |attrs| ==> attrs[j].id != a.id
  }

  lemma {:induction false} LastOfIs(attrs: seq<Attribute>, id: uint8)
    ensures match LastOf(attrs, id)
      case Some(v) => IsLast(attrs, Attribute(id, v))
      case None => forall i :: 0 <= i < |attrs| ==> attrs[i].id != id
  {
    if attrs != [] {
      var rest := attrs[1..];
      LastOfIs(rest, id);
      if LastOf(rest, id).Some? {
        var a := Attribute(id, LastOf(rest, id).value);
        var i :| 0 <= i < |rest| && rest[i] == a && forall j :: i < j < |rest| ==> rest[j].id != id;
        assert attrs[i + 1] == a;
        assert forall j :: i + 1 < j < |attrs| ==> attrs[j] == rest[j - 1];
      } else {
        assert forall j :: 1 <= j < |attrs| ==> attrs[j] == rest[j - 1];
        if attrs[0].id == id {
          assert IsLast(attrs, attrs[0]);
        }
      }
    }
  }

  /** No attribute can be read from `b`: it is too short for a header, or for the length declared. */
  predicate Unreadable(b: Bytes) {
    |b| < 3 || |b| - 3 < DeclaredLength(b)
  }

  function First(b: Bytes): (a: Attribute)
    requires !Unreadable(b)
    ensures Fits(a)
  {
    Attribute(b[0], b[3..3 + DeclaredLength(b)])
  }

  /** What the attribute loop of every handler reads from `b`. */
  function Parse(b: Bytes): (attrs: seq<Attribute>)
    ensures AllFit(attrs)
    decreases |b|
  {
    if Unreadable(b) then [] else [First(b)] + Parse(b[3 + DeclaredLength(b)..])
  }

  /** What it leaves unread. */
  function Unread(b: Bytes): Bytes
    decreases |b|
  {
    if Unreadable(b) then b else Unread(b[3 + DeclaredLength(b)..])
  }

  /** The attributes read tile a prefix of the input; the rest is empty, too short, or declares too much. */
  lemma {:induction false} ParseTiles(b: Bytes)
    ensures b == EncodeAll(Parse(b)) + Unread(b)
    ensures Unreadable(Unread(b))
    decreases |b|
  {
    hide FromBe16, Encode;
    if !Unreadable(b) {
      var tail := b[3 + DeclaredLength(b)..];
      ParseTiles(tail);
      EncodeFirst(b);
      hide DeclaredLength, First, Unreadable;
      assert Parse(b) == [First(b)] + Parse(tail) && Parse(b)[1..] == Parse(tail);
      Associates(Encode(First(b)), EncodeAll(Parse(tail)), Unread(tail));
    }
  }

  lemma Associates(a: Bytes, b: Bytes, c: Bytes)
    ensures a + (b + c) == (a + b) + c
  {
  }

  lemma Tail(b: Bytes, lo: nat, hi: nat)
    requires lo <= hi <= |b|
    ensures b[lo..][hi - lo..] == b[hi..]
  {
  }

  lemma SliceOfSlice(b: Bytes, lo: nat, hi: nat, i: nat, j: nat)
    requires lo <= hi <= |b| && i <= j <= hi - lo
    ensures b[lo..hi][i..j] == b[lo + i..lo + j]
  {
    var s := b[lo..hi];
    assert forall k :: i <= k < j ==> s[k] == b[lo + k];
    assert s[i..j] == b[lo + i..lo + j];
  }

  lemma EncodeFirst(b: Bytes)
    requires !Unreadable(b)
    ensures b == Encode(First(b)) + b[3 + DeclaredLength(b)..]
  {
    var h := b[1..3];
    assert h[0] == h[0] as int * 0x100 / 0x100 && Be16(FromBe16(h)) == h;
    assert b[1..3] == Be16(|First(b).value|);
  }

  lemma EncodedReadsBack(a: Attribute, rest: Bytes)
    requires Fits(a)
    ensures !Unreadable(Encode(a) + rest) && First(Encode(a) + rest) == a
    ensures (Encode(a) + rest)[3 + DeclaredLength(Encode(a) + rest)..] == rest
  {
    var b := Encode(a) + rest;
    assert b[1..3] == Be16(|a.value|);
    Be16RoundTrip(|a.value|);
    assert b[3..3 + |a.value|] == a.value;
  }

  /**
   * Reading undoes writing: whatever unreadable rest follows, the attributes that
   * were appended are exactly the ones read.
   */
  lemma {:induction false} EncodedParses(attrs: seq<Attribute>, rest: Bytes)
    requires AllFit(attrs) && Unreadable(rest)
    ensures Parse(EncodeAll(attrs) + rest) == attrs
    ensures Unread(EncodeAll(attrs) + rest) == rest
  {
    if attrs == [] {
      assert EncodeAll(attrs) + rest == rest;
    } else {
      var tail := EncodeAll(attrs[1..]) + rest;
      assert EncodeAll(attrs) + rest == Encode(attrs[0]) + tail;
      EncodedReadsBack(attrs[0], tail);
      EncodedParses(attrs[1..], rest);
    }
  }

  lemma {:induction false} EncodeAllAppend(attrs: seq<Attribute>, a: Attribute)
    requires AllFit(attrs) && Fits(a)
    ensures EncodeAll(attrs + [a]) == EncodeAll(attrs) + Encode(a)
  {
    if attrs == [] {
      assert attrs + [a] == [a] && EncodeAll([a][1..]) == [];
    } else {
      EncodeAllAppend(attrs[1..], a);
      assert (attrs + [a])[1..] == attrs[1..] + [a];
      hide Encode;
      Associates(Encode(attrs[0]), EncodeAll(attrs[1..]), Encode(a));
    }
  }

  // ---------------------------------------------------------------- reading

  /** The attributes in the `size` octets at `offset`; a message shorter than its header has none. */
  function AttributesAt(buffer: Bytes, offset: nat, size: int): (attrs: seq<Attribute>)
    requires offset <= |buffer| && offset + size <= |buffer|
    ensures AllFit(attrs)
  {
    if size < 0 then [] else Parse(buffer[offset..offset + size])
  }

  /**
   * read_grecpattribute: the attribute at `offset` when one can be read from the
   * `size` octets there, and the number of octets read, else 0.
   */
  method ReadAttribute(buffer: Bytes, offset: nat, size: int) returns (bytesRead: nat, attr: Attribute)
    requires offset <= |buffer| && offset + size <= |buffer|
    ensures size < 0 ==> bytesRead == 0
    ensures size >= 0 ==>
      var b := buffer[offset..offset + size];
      if Unreadable(b) then bytesRead == 0 else bytesRead == 3 + DeclaredLength(b) <= size && attr == First(b)
    ensures AttributesAt(buffer, offset, size) ==
      if bytesRead == 0 then [] else [attr] + AttributesAt(buffer, offset + bytesRead, size - bytesRead)
  {
    attr := Attribute(0, []);
    if size <= 0 {
      return 0, attr;
    } else if size < 3 {
      return 0, attr;
    }
    SliceOfSlice(buffer, offset, offset + size, 1, 3);
    var id := buffer[offset];
    var length := FromBe16(buffer[offset + 1..offset + 3]);
    if size - 3 < length {
      return 0, attr;
    }
    SliceOfSlice(buffer, offset, offset + size, 3, 3 + length as int);
    SliceOfSlice(buffer, offset, offset + size, 3 + length as int, size);
    attr := Attribute(id, buffer[offset + 3..offset + 3 + length]);
    bytesRead := 3 + length as int;
  }

  // ---------------------------------------------------------------- writing

  /** append_grecpattribute at `at`: returns the number of octets written. */
  method AppendAttribute(buffer: array<byte>, at: nat, a: Attribute) returns (written: nat)
    requires Fits(a) && at + 3 + |a.value| <= buffer.Length
    modifies buffer
    ensures written == 3 + |a.value|
    ensures buffer[..at + written] == old(buffer[..at]) + Encode(a)
    ensures buffer[at + written..] == old(buffer[at + 3 + |a.value|..])
  {
    hide Be16, Encode;
    ghost var end, b0 := at + 3 + |a.value|, buffer[..];
    EncodeParts(b0[..at], a);
    assert |Be16(|a.value|)| == 2 by { TwoOctets(|a.value|); }
    Copy(buffer, at, [a.id]);
    ghost var b1 := buffer[..];
    Copy(buffer, at + 1, Be16(|a.value|));
    ghost var b2 := buffer[..];
    Copy(buffer, at + 3, a.value);
    written := 3 + |a.value|;
    Tail(b0, at + 1, end);
    Tail(b1, at + 1, end);
    Tail(b1, at + 3, end);
    Tail(b2, at + 3, end);
  }

  lemma TwoOctets(n: uint16)
    ensures |Be16(n)| == 2
  {
  }

  lemma EncodeParts(before: Bytes, a: Attribute)
    requires Fits(a)
    ensures before + [a.id] + Be16(|a.value|) + a.value == before + Encode(a)
  {
  }

  /** Appending to a buffer that starts with the encoding of `attrs`. */
  method AppendTo(buffer: array<byte>, size: nat, ghost attrs: seq<Attribute>, a: Attribute) returns (newSize: nat)
    requires AllFit(attrs) && Fits(a) && size + 3 + |a.value| <= buffer.Length
    requires buffer[..size] == EncodeAll(attrs)
    modifies buffer
    ensures newSize == size + 3 + |a.value|
    ensures AllFit(attrs + [a]) && buffer[..newSize] == EncodeAll(attrs + [a])
  {
    EncodeAllAppend(attrs, a);
    var written := AppendAttribute(buffer, size, a);
    newSize := size + written;
  }

  /** The octets of a whole message. */
  function Frame(msgtype: nat, tuntype: nat, key: uint32, attributes: Bytes): Bytes
    requires msgtype < 16 && tuntype < 16
  {
    Gre.Header(Gre.FLAGS, PROTO, key) + [msgtype * 16 + tuntype] + attributes
  }

  /** The framing part of send_grecpmessage. */
  method FrameMessage(msgtype: nat, tuntype: nat, key: uint32, attributes: Bytes) returns (frame: Bytes)
    requires msgtype < 16 && tuntype < 16 && HEADER_SIZE + |attributes| <= Gre.MAX_PKT_SIZE
    ensures frame == Frame(msgtype, tuntype, key, attributes)
  {
    var buffer := new byte[Gre.MAX_PKT_SIZE];
    var size := 0;
    Copy(buffer, size, Gre.Header(Gre.FLAGS, PROTO, key));
    size := size + 8;
    Copy(buffer, size, [msgtype * 16 + tuntype]);
    size := size + 1;
    Copy(buffer, size, attributes);
    size := size + |attributes|;
    frame := buffer[..size];
  }

  // ---------------------------------------------------------------- what the receiver sees

  /** A received message; its source address is checked before it is read. */
  datatype Message = Message(flags: uint16, key: uint32, msgtype: nat, tuntype: nat, attributes: seq<Attribute>)

  /**
   * The fields process_grecpmessage looks at. They are read from the receive buffer
   * whatever the size of the datagram; only the attributes respect it.
   */
  function Decode(buffer: Bytes, size: nat): Message
    requires HEADER_SIZE <= |buffer| && size <= |buffer|
  {
    Message(Gre.FlagsOf(buffer), Gre.KeyOf(buffer), buffer[8] / 16, buffer[8] % 16,
            AttributesAt(buffer, HEADER_SIZE, size - HEADER_SIZE))
  }

  /**
   * A message framed by the sender reaches the receiver's dispatch with the same
   * key, message type, tunnel type and attributes, whatever the buffer held behind it.
   */
  lemma FramedDecodes(msgtype: nat, tuntype: nat, key: uint32, attrs: seq<Attribute>, behind: Bytes)
    requires msgtype < 16 && tuntype < 16 && AllFit(attrs)
    ensures var frame := Frame(msgtype, tuntype, key, EncodeAll(attrs));
      Decode(frame + behind, |frame|) == Message(Gre.FLAGS, key, msgtype, tuntype, attrs)
  {
    var frame := Frame(msgtype, tuntype, key, EncodeAll(attrs));
    HeaderDecodes(msgtype, tuntype, key, EncodeAll(attrs), behind);
    hide Frame, Gre.FlagsOf, Gre.KeyOf;
    EncodedParses(attrs, []);
    assert EncodeAll(attrs) + [] == EncodeAll(attrs);
  }

  lemma HeaderDecodes(msgtype: nat, tuntype: nat, key: uint32, attributes: Bytes, behind: Bytes)
    requires msgtype < 16 && tuntype < 16
    ensures var frame := Frame(msgtype, tuntype, key, attributes);
      var buffer := frame + behind;
      && |frame| == HEADER_SIZE + |attributes|
      && Gre.FlagsOf(buffer) == Gre.FLAGS && Gre.KeyOf(buffer) == key
      && buffer[8] / 16 == msgtype && buffer[8] % 16 == tuntype
      && buffer[HEADER_SIZE..|frame|] == attributes
  {
    var rest := [msgtype * 16 + tuntype] + attributes + behind;
    assert Frame(msgtype, tuntype, key, attributes) + behind == Gre.Header(Gre.FLAGS, PROTO, key) + rest;
    Gre.HeaderRoundTrip(Gre.FLAGS, PROTO, key, rest);
    hide Gre.FlagsOf, Gre.KeyOf, Gre.Header;
  }
}
