/** The fields of a received ARP payload (src/arp/arp.c), read where they lie. */
module ArpPacket {
  import opened Words

  const LEN: nat := 28
  const HRD_ETHERNET: u16 := 1
  const PRO_IPV4: u16 := 0x0800
  const HLN_ETHERNET: nat := 6
  const PLN_IPV4: nat := 4
  const OP_REQUEST: u16 := 1
  const OP_REPLY: u16 := 2

  /** IDEMIP_ARP_LEN octets behind the Ethernet header. */
  type Packet = p: seq<u8> | |p| == LEN witness seq(LEN, _ => 0)

  /** An Ethernet hardware address. */
  type Mac = s: seq<u8> | |s| == HLN_ETHERNET witness [0, 0, 0, 0, 0, 0]

  function Hrd(p: Packet): u16 { Rd16(p[0..2]) }
  function Pro(p: Packet): u16 { Rd16(p[2..4]) }
  function Op(p: Packet): u16 { Rd16(p[6..8]) }
  function Sha(p: Packet): (sha: seq<u8>) ensures |sha| == HLN_ETHERNET { p[8..14] }
  function Spa(p: Packet): u32 { Rd32(p[14..18]) }
  function Tpa(p: Packet): u32 { Rd32(p[24..28]) }

  predicate IsEthernetIpv4(p: Packet) {
    Hrd(p) == HRD_ETHERNET && Pro(p) == PRO_IPV4 && p[4] == HLN_ETHERNET && p[5] == PLN_IPV4
  }

  predicate IsRequest(p: Packet) { Op(p) == OP_REQUEST }
  predicate IsReply(p: Packet) { Op(p) == OP_REPLY }

  /** Bit 0 of the first octet marks a broadcast or multicast hardware address. */
  predicate IsGroup(sha: seq<u8>)
    requires |sha| == HLN_ETHERNET
  {
    sha[0] % 2 == 1
  }
}
