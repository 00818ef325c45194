/** The GRE header both planes share (section 2.1 of RFC 2890): flags, protocol, key, sequence number. */
module Gre {
  import opened Bytes

  const FLAGS: uint16 := 0x2000          // key present
  const FLAGS_WITH_SEQ: uint16 := 0x3000 // key and sequence number present
  const MAX_PKT_SIZE := 1500

  function Header(flags: uint16, proto: uint16, key: uint32): (h: Bytes)
    ensures |h| == 8
  {
    Be16(flags) + Be16(proto) + Be32(key)
  }

  /** A data packet with a sequence number. */
  function DataFrame(proto: uint16, key: uint32, number: uint32, payload: Bytes): Bytes {
    Header(FLAGS_WITH_SEQ, proto, key) + Be32(number) + payload
  }

  function FlagsOf(frame: Bytes): uint16
    requires |frame| >= 8
  {
    FromBe16(frame[..2])
  }

  function KeyOf(frame: Bytes): uint32
    requires |frame| >= 8
  {
    FromBe32(frame[4..8])
  }

  function NumberOf(frame: Bytes): uint32
    requires |frame| >= 12
  {
    FromBe32(frame[8..12])
  }

  /** The header on the wire: two octets of flags, two of protocol, four of key. */
  lemma HeaderOctets(flags: uint16, proto: uint16, key: uint32)
    ensures Header(flags, proto, key) ==
      [flags / 0x100, flags % 0x100, proto / 0x100, proto % 0x100,
       key / 0x100_0000, key / 0x1_0000 % 0x100, key / 0x100 % 0x100, key % 0x100]
  {
    Be32Octets(key);
  }

  /** An unnumbered packet starts with octets 20 00, a numbered one with 30 00. */
  lemma FlagOctets(frame: Bytes)
    requires |frame| >= 8
    ensures FlagsOf(frame) == FLAGS <==> frame[0] == 0x20 && frame[1] == 0
    ensures FlagsOf(frame) == FLAGS_WITH_SEQ <==> frame[0] == 0x30 && frame[1] == 0
  {
  }

  lemma HeaderRoundTrip(flags: uint16, proto: uint16, key: uint32, rest: Bytes)
    ensures FlagsOf(Header(flags, proto, key) + rest) == flags
    ensures KeyOf(Header(flags, proto, key) + rest) == key
  {
    var frame := Header(flags, proto, key) + rest;
    assert frame[..2] == Be16(flags) && frame[4..8] == Be32(key);
    Be16RoundTrip(flags);
    Be32RoundTrip(key);
  }

  /** The receiver reads back the number and the payload the sender framed. */
  lemma DataFrameRoundTrip(proto: uint16, key: uint32, number: uint32, payload: Bytes)
    ensures var frame := DataFrame(proto, key, number, payload);
      && |frame| == 12 + |payload|
      && FlagsOf(frame) == FLAGS_WITH_SEQ && KeyOf(frame) == key
      && NumberOf(frame) == number && frame[12..] == payload
  {
    var frame := DataFrame(proto, key, number, payload);
    assert frame == Header(FLAGS_WITH_SEQ, proto, key) + (Be32(number) + payload);
    HeaderRoundTrip(FLAGS_WITH_SEQ, proto, key, Be32(number) + payload);
    assert frame[8..12] == Be32(number);
    Be32RoundTrip(number);
  }
}
