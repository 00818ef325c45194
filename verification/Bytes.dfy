/** Octets, the C integer widths the client uses, and network byte order. */
module Bytes {
  const UINT8_MAX := 0xff
  const UINT16_MAX := 0xffff
  const UINT32_MAX := 0xffff_ffff

  type byte = x: int | 0 <= x <= UINT8_MAX
  type uint8 = byte
  type uint16 = x: int | 0 <= x <= UINT16_MAX
  type uint32 = x: int | 0 <= x <= UINT32_MAX
  type Bytes = seq<byte>

  /** C's conversion of a non-negative value to uint32_t. */
  function ToUint32(n: nat): uint32 {
    n % 0x1_0000_0000
  }

  /** Incrementing in 32 bits is incrementing modulo 2^32. */
  lemma NextUint32(n: nat)
    ensures ToUint32(ToUint32(n) + 1) == ToUint32(n + 1)
  {
  }

  /** Incrementing in 16 bits is incrementing modulo 2^16. */
  lemma NextUint16(n: nat)
    ensures (n % 0x1_0000 + 1) % 0x1_0000 == (n + 1) % 0x1_0000
  {
  }

  /** htons, as the two octets it puts in memory. */
  function Be16(n: uint16): Bytes {
    [n / 0x100, n % 0x100]
  }

  /** ntohs of two octets. */
  function FromBe16(b: Bytes): uint16
    requires |b| == 2
  {
    b[0] as int * 0x100 + b[1]
  }

  /** htonl, as the four octets it puts in memory. */
  function Be32(n: uint32): (b: Bytes)
    ensures |b| == 4
  {
    Be16(n / 0x1_0000) + Be16(n % 0x1_0000)
  }

  /** ntohl of four octets. */
  function FromBe32(b: Bytes): uint32
    requires |b| == 4
  {
    FromBe16(b[..2]) as int * 0x1_0000 + FromBe16(b[2..])
  }

  lemma Be16RoundTrip(n: uint16)
    ensures FromBe16(Be16(n)) == n
  {
  }

  lemma Be32RoundTrip(n: uint32)
    ensures FromBe32(Be32(n)) == n
  {
    assert Be32(n)[..2] == Be16(n / 0x1_0000) && Be32(n)[2..] == Be16(n % 0x1_0000);
    Be16RoundTrip(n / 0x1_0000);
    Be16RoundTrip(n % 0x1_0000);
  }

  lemma HalvesOf(n: uint32)
    ensures n / 0x1_0000 / 0x100 == n / 0x100_0000
    ensures n % 0x1_0000 / 0x100 == n / 0x100 % 0x100
    ensures n % 0x1_0000 % 0x100 == n % 0x100
  {
    var high, low := n / 0x1_0000, n % 0x1_0000;
    var a, b := low / 0x100, low % 0x100;
    assert n == (high * 0x100 + a) * 0x100 + b;
    assert n / 0x100 == high * 0x100 + a;
  }

  /** The most significant octet comes first. */
  lemma Be32Octets(n: uint32)
    ensures Be32(n) == [n / 0x100_0000, n / 0x1_0000 % 0x100, n / 0x100 % 0x100, n % 0x100]
  {
    HalvesOf(n);
    assert Be32(n) == Be16(n / 0x1_0000) + Be16(n % 0x1_0000);
  }

  lemma FromBe32Octets(b: Bytes)
    requires |b| == 4
    ensures FromBe32(b) == b[0] as int * 0x100_0000 + b[1] as int * 0x1_0000 + b[2] as int * 0x100 + b[3]
  {
  }

  /** memcpy(buffer + at, src, |src|) */
  method Copy(buffer: array<byte>, at: nat, src: Bytes)
    requires at + |src| <= buffer.Length
    modifies buffer
    ensures buffer[..at] == old(buffer[..at])
    ensures buffer[at..at + |src|] == src
    ensures buffer[at + |src|..] == old(buffer[at + |src|..])
    ensures buffer[..at + |src|] == old(buffer[..at]) + src
  {
    forall i | 0 <= i < |src| {
      buffer[at + i] := src[i];
    }
  }
}
