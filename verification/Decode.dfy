/**
 * What a frame means, stated without a cursor: the reference reader that the
 * in-place parser is proved against.
 */
module Decode {
  import opened Basics
  import opened Wire
  import opened Packet

  // ---------------------------------------------------------------- layer 4

  function ReadTcp(f: Frame, at: nat, pkt: Pkt): Option<Pkt>
    requires at <= |f|
  {
    if at + 20 > |f| then None
    else
      var p := pkt.(sport := Be16(f[at], f[at + 1]), dport := Be16(f[at + 2], f[at + 3]),
                    tcpFlags := f[at + 13], havePorts := true);
      var body := at + (f[at + 12] >> 4) as int * 4;
      if at + 20 <= body <= |f| && OpensClientHello(f[body..]) then Some(p.(isTls := true, fpOff := body))
      else Some(p)
  }

  function ReadUdp(f: Frame, at: nat, pkt: Pkt): Option<Pkt>
    requires at <= |f|
  {
    if at + 8 > |f| then None
    else
      var p := pkt.(sport := Be16(f[at], f[at + 1]), dport := Be16(f[at + 2], f[at + 3]), havePorts := true);
      if OpensQuicInitial(f[at + 8..]) then Some(p.(isQuic := true, fpOff := at + 8))
      else Some(p)
  }

  /** The transport header at `at`; only TCP and UDP have one that is read. */
  function ReadTransport(f: Frame, at: nat, pkt: Pkt): Option<Pkt>
    requires at <= |f|
  {
    if pkt.proto == PROTO_TCP then ReadTcp(f, at, pkt)
    else if pkt.proto == PROTO_UDP then ReadUdp(f, at, pkt)
    else Some(pkt)
  }

  // ------------------------------------------------- IPv6 extension headers

  datatype Header =
    | Cut                                             // truncated, or an AH length out of range
    | Skip(next: bv8, end: nat, fragment: bool)       // a whole header; the chain goes on at `end`
    | Tail(proto: bv8)                                // a fragment header with a non-zero offset

  /** One extension header of kind `kind` at `off`, by its whole size on the wire. */
  function ReadHeader(f: Frame, off: nat, kind: bv8): (h: Header)
    requires off <= |f| && IsExt(kind)
    ensures h.Skip? ==> off + 8 <= h.end <= |f|
  {
    if kind == PROTO_FRAGMENT then
      if off + 8 > |f| then Cut
      else if Be16(f[off + 2], f[off + 3]) & 0xFFF8 != 0 then Tail(f[off])
      else Skip(f[off], off + 8, true)
    else if kind == PROTO_AH then
      if off + 12 > |f| then Cut
      else
        var size := 4 * (f[off + 1] as int + 2);
        if !(12 <= size <= 12 + 0xFF) || off + size > |f| then Cut
        else Skip(f[off], off + size, false)
    else
      if off + 2 > |f| then Cut
      else
        var size := 8 * (f[off + 1] as int + 1);
        if off + size > |f| then Cut else Skip(f[off], off + size, false)
  }

  datatype ChainEnd =
    | Upper(proto: bv8, off: nat)
    | LaterFragment(proto: bv8)
    | Broken

  /** A whole chain: how many headers were passed, whether one was a fragment header, how it ends. */
  datatype Chain = Chain(passed: nat, fragment: bool, end: ChainEnd)

  /** Reads the chain to its end, however long it is. */
  function ReadChain(f: Frame, off: nat, kind: bv8): (c: Chain)
    requires off <= |f|
    ensures c.end.Upper? ==> off <= c.end.off <= |f| && !IsExt(c.end.proto)
    decreases |f| - off
  {
    if !IsExt(kind) then Chain(0, false, Upper(kind, off))
    else match ReadHeader(f, off, kind)
      case Cut => Chain(0, false, Broken)
      case Tail(proto) => Chain(0, true, LaterFragment(proto))
      case Skip(next, end, fragment) =>
        var rest := ReadChain(f, end, next);
        Chain(rest.passed + 1, fragment || rest.fragment, rest.end)
  }

  // ------------------------------------------------------------------ layer 3

  function FromTransport(r: Option<Pkt>): Parsed {
    match r
    case None => Malformed
    case Some(pkt) => Understood(pkt)
  }

  /** The fixed part of an IPv4 header: addresses, protocol, and whether the packet is a fragment at all. */
  function FieldsV4(f: Frame, off: nat): Pkt
    requires off + 20 <= |f|
  {
    BLANK.(src := LeftAlign(f[off + 12..off + 16]), dst := LeftAlign(f[off + 16..off + 20]),
           proto := f[off + 9], isFrag := Be16(f[off + 6], f[off + 7]) & 0x3FFF != 0)
  }

  /** An IPv4 packet starting at `off` (section 3.1 of RFC 791). */
  function DecodeV4(f: Frame, off: nat): Parsed
    requires off <= |f|
  {
    if off + 20 > |f| || f[off] >> 4 != 4 then Malformed
    else
      var size := (f[off] & 0x0F) as int * 4;
      if size < 20 || off + size > |f| then Malformed
      else
        var pkt := FieldsV4(f, off);
        if Be16(f[off + 6], f[off + 7]) & 0x1FFF != 0 then Understood(pkt)
        else FromTransport(ReadTransport(f, off + size, pkt))
  }

  /** An IPv6 packet starting at `off` (sections 3 and 4 of RFC 8200), extension headers capped at eight. */
  function DecodeV6(f: Frame, off: nat): Parsed
    requires off <= |f|
  {
    if off + 40 > |f| then Malformed
    else
      var chain := ReadChain(f, off + 40, f[off + 6]);
      var pkt := BLANK.(src := f[off + 8..off + 24], dst := f[off + 24..off + 40], isV6 := true,
                        isFrag := chain.fragment);
      if chain.passed >= MAX_EXT_HDRS then ExtHdrCap
      else match chain.end
        case Broken => Malformed
        case LaterFragment(proto) => Understood(pkt.(proto := proto))
        case Upper(proto, at) =>
          FromTransport(ReadTransport(f, at, pkt.(proto := proto)))
  }

  // ------------------------------------------------------------------ layer 2

  function DecodeNetwork(f: Frame, off: nat, etherType: bv16): Parsed
    requires off <= |f|
  {
    if IsVlan(etherType) then VlanDepth
    else if etherType == ETH_P_IP then DecodeV4(f, off)
    else if etherType == ETH_P_IPV6 then DecodeV6(f, off)
    else NotIp
  }

  /** A whole Ethernet frame with at most one VLAN tag. */
  function DecodeFrame(f: Frame): Parsed {
    if |f| < 14 then Malformed
    else
      var outer := Be16(f[12], f[13]);
      if !IsVlan(outer) then DecodeNetwork(f, 14, outer)
      else if |f| < 18 then Malformed
      else DecodeNetwork(f, 18, Be16(f[16], f[17]))
  }
}
