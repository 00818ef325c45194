/** The send loop: packets read from the tun device are numbered, framed and sent. */
module Tun2Gre {
  import opened Bytes
  import Gre

  const ETHERTYPE_IP: uint16 := 0x0800
  const ETHERTYPE_IPV6: uint16 := 0x86dd

  /** What one packet left the client as. */
  datatype Sent = Sent(proto: uint16, key: uint32, payload: Bytes)

  /** The version nibble of an IP packet. */
  function Version(packet: Bytes): nat
    requires packet != []
  {
    packet[0] / 0x10
  }

  lemma VersionIsHighHalf(packet: Bytes)
    requires packet != []
    ensures Version(packet) == 4 <==> 0x40 <= packet[0] <= 0x4f
    ensures Version(packet) == 6 <==> 0x60 <= packet[0] <= 0x6f
  {
  }

  lemma FrameOctets(key: uint32, number: uint32, packet: Bytes)
    ensures Gre.DataFrame(ETHERTYPE_IP, key, number, packet)
         == [0x30, 0x00, 0x08, 0x00] + Be32(key) + Be32(number) + packet
    ensures Gre.DataFrame(ETHERTYPE_IPV6, key, number, packet)
         == [0x30, 0x00, 0x86, 0xdd] + Be32(key) + Be32(number) + packet
  {
    hide Be32;
    assert Be16(Gre.FLAGS_WITH_SEQ) + Be16(ETHERTYPE_IP) == [0x30, 0x00, 0x08, 0x00];
    assert Be16(Gre.FLAGS_WITH_SEQ) + Be16(ETHERTYPE_IPV6) == [0x30, 0x00, 0x86, 0xdd];
  }

  class Sender {
    var sequence: uint32
    var sent: seq<Bytes>       // the frames handed to the raw socket
    ghost var log: seq<Sent>   // what they carry

    constructor ()
      ensures Valid() && sent == [] && log == []
    {
      sequence := 0;
      sent := [];
      log := [];
    }

    /** The k-th frame carries number k (in 32 bits) and the k-th accepted packet. */
    ghost predicate Valid()
      reads this
    {
      && |sent| == |log|
      && sequence == ToUint32(|sent|)
      && (forall k :: 0 <= k < |log| ==> 0 < |log[k].payload| <= Gre.MAX_PKT_SIZE - 12)
      && forall k :: 0 <= k < |sent| ==>
        sent[k] == Gre.DataFrame(log[k].proto, log[k].key, ToUint32(k), log[k].payload)
    }

    /** send_gre: the frame is filled in at a growing offset. */
    method SendGre(proto: uint16, key: uint32, number: uint32, includeSequence: bool, payload: Bytes)
      requires 12 + |payload| <= Gre.MAX_PKT_SIZE
      modifies this`sent
      ensures sent == old(sent) + [if includeSequence then Gre.DataFrame(proto, key, number, payload)
                                   else Gre.Header(Gre.FLAGS, proto, key) + payload]
    {
      var buffer := new byte[Gre.MAX_PKT_SIZE];
      var size := 0;
      Copy(buffer, size, Gre.Header(Gre.FLAGS, proto, key));
      size := size + 8;
      if includeSequence {
        ghost var header := buffer[..size];
        Copy(buffer, 0, Be16(Gre.FLAGS_WITH_SEQ));
        assert buffer[2..size] == buffer[2..][..size - 2] == header[2..];
        assert buffer[..size] == buffer[..2] + buffer[2..size] == Gre.Header(Gre.FLAGS_WITH_SEQ, proto, key);
        Copy(buffer, size, Be32(number));
        size := size + 4;
      }
      Copy(buffer, size, payload);
      size := size + |payload|;
      sent := sent + [buffer[..size]];
    }

    /**
     * One iteration on a packet read from the tun device. Every packet counts as
     * DHCP traffic, so only the LTE tunnel is used; a packet takes a number only
     * when it is sent.
     */
    method Forward(packet: Bytes, lteEstablished: bool, key: uint32)
      requires Valid() && |packet| <= Gre.MAX_PKT_SIZE - 12
      modifies this
      ensures Valid() && old(sent) <= sent
      ensures log == if packet != [] && (Version(packet) == 4 || Version(packet) == 6) && lteEstablished
                     then old(log) + [Sent(if Version(packet) == 4 then ETHERTYPE_IP else ETHERTYPE_IPV6, key, packet)]
                     else old(log)
      // the same in octets: the version is the high half of the first, the protocol is 08 00 or 86 dd
      ensures |packet| > 0 && lteEstablished && 0x40 <= packet[0] <= 0x4f ==>
        sent == old(sent) + [[0x30, 0x00, 0x08, 0x00] + Be32(key) + Be32(old(sequence)) + packet]
      ensures |packet| > 0 && lteEstablished && 0x60 <= packet[0] <= 0x6f ==>
        sent == old(sent) + [[0x30, 0x00, 0x86, 0xdd] + Be32(key) + Be32(old(sequence)) + packet]
      ensures packet == [] || !lteEstablished || !(0x40 <= packet[0] <= 0x4f || 0x60 <= packet[0] <= 0x6f) ==>
        sent == old(sent) && sequence == old(sequence)
    {
      hide ToUint32, Gre.DataFrame;
      if |packet| > 0 {
        VersionIsHighHalf(packet);
        FrameOctets(key, sequence, packet);
        var etherproto;
        if Version(packet) == 4 {
          etherproto := ETHERTYPE_IP;
        } else if Version(packet) == 6 {
          etherproto := ETHERTYPE_IPV6;
        } else {
          return;
        }
        if lteEstablished {
          SendGre(etherproto, key, sequence, true, packet);
          NextUint32(|log|);
          sequence := ToUint32(sequence + 1);
          log := log + [Sent(etherproto, key, packet)];
        }
      }
    }
  }
}
