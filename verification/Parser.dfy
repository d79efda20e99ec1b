/** The in-place parser: a cursor over the frame, every read behind a bounds check. */
module Parser {
  import opened Basics
  import opened Wire
  import opened Packet
  import opened Decode

  /** Bounds-checked read of `size` octets at `off`; the cursor moves only on success. */
  method Pull(f: Frame, off: nat, size: nat) returns (ok: bool, next: nat)
    ensures ok <==> off + size <= |f|
    ensures next == if ok then off + size else off
  {
    ok := off + size <= |f|;
    next := if ok then off + size else off;
  }

  /** The flag octet put together again from its eight single-bit fields, FIN first. */
  function FlagByte(b: bv8): bv8 {
    (b & 1) | (((b >> 1) & 1) << 1) | (((b >> 2) & 1) << 2) | (((b >> 3) & 1) << 3)
    | (((b >> 4) & 1) << 4) | (((b >> 5) & 1) << 5) | (((b >> 6) & 1) << 6) | (((b >> 7) & 1) << 7)
  }

  lemma FlagByteIsTheOctet(b: bv8)
    ensures FlagByte(b) == b
  {}

  method ParseTcp(f: Frame, at: nat, pkt0: Pkt) returns (ok: bool, pkt: Pkt)
    requires at <= |f|
    ensures ok == ReadTcp(f, at, pkt0).Some?
    ensures ok ==> pkt == ReadTcp(f, at, pkt0).value
  {
    pkt := pkt0;
    var off: nat;
    ok, off := Pull(f, at, 20);
    if !ok { return; }
    FlagByteIsTheOctet(f[at + 13]);
    pkt := pkt.(sport := Be16(f[at], f[at + 1]), dport := Be16(f[at + 2], f[at + 3]),
                tcpFlags := FlagByte(f[at + 13]), havePorts := true);
    var hlen := (f[at + 12] >> 4) as int * 4;
    if hlen < 20 { return; }
    var payloadOff := off - 20 + hlen;
    var rec, _ := Pull(f, payloadOff, 6);
    if rec && f[payloadOff] == 0x16 && f[payloadOff + 1] == 0x03 && f[payloadOff + 5] == 0x01 {
      pkt := pkt.(isTls := true, fpOff := payloadOff);
    }
  }

  /** The five octets the QUIC test reads one by one. */
  lemma InitialOctets(p: seq<bv8>)
    requires |p| >= 5
    ensures OpensQuicInitial(p) <==> p[0] & 0xF0 == 0xC0 && p[1] == 0 && p[2] == 0 && p[3] == 0 && p[4] == 1
  {
    assert p[1..5] == [p[1], p[2], p[3], p[4]];
    assert p[0] >> 4 == 0xC <==> p[0] & 0xF0 == 0xC0;
  }

  method ParseUdp(f: Frame, at: nat, pkt0: Pkt) returns (ok: bool, pkt: Pkt)
    requires at <= |f|
    ensures ok == ReadUdp(f, at, pkt0).Some?
    ensures ok ==> pkt == ReadUdp(f, at, pkt0).value
  {
    pkt := pkt0;
    var off: nat;
    ok, off := Pull(f, at, 8);
    if !ok { return; }
    pkt := pkt.(sport := Be16(f[at], f[at + 1]), dport := Be16(f[at + 2], f[at + 3]), havePorts := true);
    var q, _ := Pull(f, off, 5);
    if !q { return; }
    InitialOctets(f[off..]);
    if f[off] & 0xF0 == 0xC0 && f[off + 1] == 0 && f[off + 2] == 0 && f[off + 3] == 0 && f[off + 4] == 1 {
      pkt := pkt.(isQuic := true, fpOff := off);
    }
  }

  method ParseL4(f: Frame, at: nat, pkt0: Pkt) returns (ok: bool, pkt: Pkt)
    requires at <= |f|
    ensures ok == ReadTransport(f, at, pkt0).Some?
    ensures ok ==> pkt == ReadTransport(f, at, pkt0).value
  {
    if pkt0.proto == PROTO_TCP {
      ok, pkt := ParseTcp(f, at, pkt0);
    } else if pkt0.proto == PROTO_UDP {
      ok, pkt := ParseUdp(f, at, pkt0);
    } else {
      ok, pkt := true, pkt0;
    }
  }

  datatype Code = OK | NOT_IP | VLAN_DEPTH | EXTHDR_CAP | MALFORMED

  /** The parser's return code and out-parameter, against the decoded frame. */
  ghost predicate Reports(rc: Code, pkt: Pkt, p: Parsed) {
    match p
    case Understood(q) => rc == OK && pkt == q
    case NotIp => rc == NOT_IP
    case VlanDepth => rc == VLAN_DEPTH
    case ExtHdrCap => rc == EXTHDR_CAP
    case Malformed => rc == MALFORMED
  }

  lemma LowNibble(b: bv8)
    ensures 0 <= (b & 0x0F) as int <= 15
  {}

  method FillV4(f: Frame, iph: nat) returns (pkt: Pkt)
    requires iph + 20 <= |f|
    ensures pkt == FieldsV4(f, iph)
  {
    pkt := BLANK.(src := LeftAlign(f[iph + 12..iph + 16]), dst := LeftAlign(f[iph + 16..iph + 20]),
                  proto := f[iph + 9]);
    if Be16(f[iph + 6], f[iph + 7]) & (0x2000 | 0x1FFF) != 0 {
      pkt := pkt.(isFrag := true);
    }
  }

  method ParseV4(f: Frame, at: nat) returns (rc: Code, pkt: Pkt)
    requires at <= |f|
    ensures Reports(rc, pkt, DecodeV4(f, at))
  {
    pkt := BLANK;
    var iph, off: nat := at, at;
    var ok: bool;
    ok, off := Pull(f, off, 20);
    if !ok { return MALFORMED, pkt; }
    if f[iph] >> 4 != 4 { return MALFORMED, pkt; }
    var ihl := (f[iph] & 0x0F) as int;
    LowNibble(f[iph]);
    if ihl < 5 { return MALFORMED, pkt; }
    var ihlBytes := ihl * 4;
    if ihlBytes > 20 {
      var optlen := ihlBytes - 20;
      if optlen > 40 { return MALFORMED, pkt; }
      ok, off := Pull(f, off, optlen);
      if !ok { return MALFORMED, pkt; }
    }
    pkt := FillV4(f, iph);
    if Be16(f[iph + 6], f[iph + 7]) & 0x1FFF != 0 {
      return OK, pkt;
    }
    ok, pkt := ParseL4(f, off, pkt);
    rc := if ok then OK else MALFORMED;
  }

  /** How the walk over the extension headers left its loop. */
  datatype Exit = Ended | LaterFrag | Truncated | Capped

  /** One header of the walk, read piece by piece as its length becomes known. */
  method PullHeader(f: Frame, hdr: nat, kind: bv8) returns (h: Header)
    requires hdr <= |f| && IsExt(kind)
    ensures h == ReadHeader(f, hdr, kind)
  {
    var ok: bool;
    var off: nat;
    if kind == PROTO_FRAGMENT {
      ok, off := Pull(f, hdr, 8);
      if !ok { return Cut; }
      if Be16(f[hdr + 2], f[hdr + 3]) & 0xFFF8 != 0 { return Tail(f[hdr]); }
      return Skip(f[hdr], off, true);
    }
    if kind == PROTO_AH {
      ok, off := Pull(f, hdr, 12);
      if !ok { return Cut; }
      var hdrlen := (f[hdr + 1] as int + 2) * 4;
      if hdrlen < 12 { return Cut; }
      hdrlen := hdrlen - 12;
      if hdrlen > 0xFF { return Cut; }
      if hdrlen != 0 {
        ok, off := Pull(f, off, hdrlen);
        if !ok { return Cut; }
      }
      return Skip(f[hdr], off, false);
    }
    ok, off := Pull(f, hdr, 2);
    if !ok { return Cut; }
    var hdrlen := f[hdr + 1] as int * 8 + 6;
    ok, off := Pull(f, off, hdrlen);
    if !ok { return Cut; }
    return Skip(f[hdr], off, false);
  }

  method WalkExtHeaders(f: Frame, at: nat, first: bv8) returns (exit: Exit, nexthdr: bv8, off: nat, isFrag: bool)
    requires at <= |f|
    ensures var chain := ReadChain(f, at, first);
      if chain.passed >= MAX_EXT_HDRS then exit == Capped
      else match chain.end
        case Broken => exit == Truncated
        case LaterFragment(proto) => exit == LaterFrag && nexthdr == proto && isFrag == chain.fragment
        case Upper(proto, end) => exit == Ended && nexthdr == proto && off == end && isFrag == chain.fragment
  {
    off, nexthdr, isFrag := at, first, false;
    ghost var whole := ReadChain(f, at, first);
    var i := 0;
    while i < MAX_EXT_HDRS
      invariant 0 <= i <= MAX_EXT_HDRS && off <= |f|
      invariant var rest := ReadChain(f, off, nexthdr);
                whole == Chain(i + rest.passed, isFrag || rest.fragment, rest.end)
    {
      if !IsExt(nexthdr) {
        break;
      }
      var h := PullHeader(f, off, nexthdr);
      match h {
        case Cut => exit := Truncated; return;
        case Tail(proto) => exit, nexthdr, isFrag := LaterFrag, proto, true; return;
        case Skip(next, end, fragment) => nexthdr, off, isFrag := next, end, isFrag || fragment;
      }
      i := i + 1;
    }
    exit := if i == MAX_EXT_HDRS then Capped else Ended;
  }

  method ParseV6(f: Frame, at: nat) returns (rc: Code, pkt: Pkt)
    requires at <= |f|
    ensures Reports(rc, pkt, DecodeV6(f, at))
  {
    pkt := BLANK;
    var ip6, off: nat := at, at;
    var ok: bool;
    ok, off := Pull(f, off, 40);
    if !ok { return MALFORMED, pkt; }
    pkt := pkt.(src := f[ip6 + 8..ip6 + 24], dst := f[ip6 + 24..ip6 + 40], isV6 := true);
    var exit, nexthdr, end, isFrag := WalkExtHeaders(f, off, f[ip6 + 6]);
    pkt := pkt.(isFrag := isFrag);
    match exit
    case Truncated => return MALFORMED, pkt;
    case Capped => return EXTHDR_CAP, pkt;
    case LaterFrag => return OK, pkt.(proto := nexthdr);
    case Ended =>
      ok, pkt := ParseL4(f, end, pkt.(proto := nexthdr));
      rc := if ok then OK else MALFORMED;
  }

  method Parse(f: Frame) returns (rc: Code, pkt: Pkt)
    ensures Reports(rc, pkt, DecodeFrame(f))
  {
    pkt := BLANK;
    var off: nat := 0;
    var ok: bool;
    ok, off := Pull(f, off, 14);
    if !ok { return MALFORMED, pkt; }
    var proto := Be16(f[12], f[13]);
    if IsVlan(proto) {
      var vh := off;
      ok, off := Pull(f, off, 4);
      if !ok { return MALFORMED, pkt; }
      proto := Be16(f[vh + 2], f[vh + 3]);
    }
    if IsVlan(proto) { return VLAN_DEPTH, pkt; }
    if proto == ETH_P_IP {
      rc, pkt := ParseV4(f, off);
      return;
    }
    if proto == ETH_P_IPV6 {
      rc, pkt := ParseV6(f, off);
      return;
    }
    return NOT_IP, pkt;
  }
}
