/** The parsed packet, and the payload shapes the two handshake bits stand for. */
module Packet {
  import opened Wire

  datatype Pkt = Pkt(
    src: Addr, dst: Addr,
    len: nat, now: u64,
    sport: bv16, dport: bv16,
    proto: bv8, tcpFlags: bv8,
    isV6: bool, isFrag: bool, havePorts: bool,
    isTls: bool, isQuic: bool,
    fpOff: nat)

  /** The all-zero packet the parser starts from. */
  const BLANK: Pkt :=
    Pkt(ZERO_ADDR, ZERO_ADDR, 0, 0, 0, 0, 0, 0, false, false, false, false, false, 0)

  datatype Parsed =
    | Understood(pkt: Pkt)
    | NotIp
    | VlanDepth
    | ExtHdrCap
    | Malformed

  const ETH_P_IP: bv16 := 0x0800
  const ETH_P_IPV6: bv16 := 0x86DD
  const ETH_P_8021Q: bv16 := 0x8100
  const ETH_P_8021AD: bv16 := 0x88A8

  const PROTO_HOPOPTS: bv8 := 0
  const PROTO_TCP: bv8 := 6
  const PROTO_UDP: bv8 := 17
  const PROTO_ROUTING: bv8 := 43
  const PROTO_FRAGMENT: bv8 := 44
  const PROTO_AH: bv8 := 51
  const PROTO_DSTOPTS: bv8 := 60
  const PROTO_MH: bv8 := 135

  const MAX_EXT_HDRS := 8

  predicate IsVlan(etherType: bv16) {
    etherType == ETH_P_8021Q || etherType == ETH_P_8021AD
  }

  /** The protocol numbers that name an IPv6 extension header rather than an upper layer. */
  predicate IsExt(kind: bv8) {
    || kind == PROTO_HOPOPTS || kind == PROTO_ROUTING || kind == PROTO_FRAGMENT
    || kind == PROTO_AH || kind == PROTO_DSTOPTS || kind == PROTO_MH
  }

  /** A TLS handshake record (section 5.1 of RFC 8446) whose first message is a ClientHello. */
  predicate OpensClientHello(payload: seq<bv8>) {
    |payload| >= 6 && payload[0] == 0x16 && payload[1] == 0x03 && payload[5] == 0x01
  }

  /** A QUIC version 1 long header of type Initial (section 17.2.2 of RFC 9000). */
  predicate OpensQuicInitial(payload: seq<bv8>) {
    |payload| >= 5 && payload[0] >> 4 == 0xC && payload[1..5] == [0, 0, 0, 1]
  }
}
