/** The rule matcher: one branch-free accumulator over 32- and 64-bit words in network order. */
module Matcher {
  import opened Basics
  import opened Wire
  import opened Packet

  datatype Rule = Rule(
    expiresAt: u64, ruleId: u32, profile: u32,
    src: Addr, dst: Addr, srcLen: bv8, dstLen: bv8,
    action: bv8, proto: bv8, tcpFlags: bv8, tcpMask: bv8, flags: bv8, matchExt: bv8,
    sport: bv16, dport: bv16)

  const RF_VALID: bv8 := 0x01
  const RF_SRC_ANY: bv8 := 0x02
  const RF_DST_ANY: bv8 := 0x04
  const RF_PROTO_ANY: bv8 := 0x08
  const RF_SPORT_ANY: bv8 := 0x10
  const RF_DPORT_ANY: bv8 := 0x20
  const RF_FRAGMENT: bv8 := 0x40
  const RF_IPV6: bv8 := 0x80
  const MX_TLS_CLIENT_HELLO: bv8 := 0x01
  const MX_QUIC_INITIAL: bv8 := 0x02

  const ONES64: bv64 := 0xFFFF_FFFF_FFFF_FFFF

  // -------------------------------------------------------- the words

  /** The loads the matcher makes, on a little-endian target. */
  function Load32(b0: bv8, b1: bv8, b2: bv8, b3: bv8): bv32 {
    (b0 as bv32) | ((b1 as bv32) << 8) | ((b2 as bv32) << 16) | ((b3 as bv32) << 24)
  }

  function Load64(lo: bv32, hi: bv32): bv64 {
    (lo as bv64) | ((hi as bv64) << 32)
  }

  function W32(a: Addr): bv32 { Load32(a[0], a[1], a[2], a[3]) }

  function W64(a: Addr, word: nat): bv64
    requires word < 2
  {
    var o := 8 * word;
    Load64(Load32(a[o], a[o + 1], a[o + 2], a[o + 3]), Load32(a[o + 4], a[o + 5], a[o + 6], a[o + 7]))
  }

  function Bswap32(x: bv32): bv32 {
    (x << 24) | ((x & 0xFF00) << 8) | ((x >> 8) & 0xFF00) | (x >> 24)
  }

  function Bswap64(x: bv64): bv64 {
    ((Bswap32((x & 0xFFFF_FFFF) as bv32) as bv64) << 32) | (Bswap32((x >> 32) as bv32) as bv64)
  }

  // -------------------------------------------------------- prefixes

  function ClampLen(bits: bv8, top: bv8): bv8 {
    if bits > top then top else bits
  }

  function Mask4(bits: bv8): bv32
    requires bits <= 32
  {
    ((ONES64 << (32 - bits)) & 0xFFFF_FFFF) as bv32
  }

  /** The mismatching bits of two IPv4 prefixes; zero when they agree. */
  function PfxBadV4(addr: Addr, pfx: Addr, bits: bv8): bv32 {
    (W32(addr) ^ W32(pfx)) & Bswap32(Mask4(ClampLen(bits, 32)))
  }

  /** `bits` leading ones, shifted in two steps so that zero stays defined. */
  function Mask8(bits: bv8): bv64
    requires bits <= 63
  {
    (ONES64 << (63 - bits)) << 1
  }

  function MaskHi(bits: bv8): bv64
    requires bits <= 128
  {
    if bits >= 64 then ONES64 else Bswap64(Mask8(bits))
  }

  function MaskLo(bits: bv8): bv64
    requires bits <= 128
  {
    if bits >= 64 then
      var lo := bits - 64;
      if lo >= 64 then ONES64 else Bswap64(Mask8(lo))
    else 0
  }

  /** The mismatching bits of two IPv6 prefixes, as two 64-bit halves. */
  function PfxBadV6(addr: Addr, pfx: Addr, bits: bv8): bv64 {
    var n := ClampLen(bits, 128);
    ((W64(addr, 0) ^ W64(pfx, 0)) & MaskHi(n)) | ((W64(addr, 1) ^ W64(pfx, 1)) & MaskLo(n))
  }

  /** All ones when a field must be tested, zero when its "any" bit is set. */
  function TestMask(flags: bv32, anyShift: bv8): bv64
    requires anyShift < 8
  {
    ((flags >> anyShift) & 1) as bv64 - 1
  }

  // ---------------------------------------------------- the accumulator

  function Bit(b: bool): bv32 { if b then 1 else 0 }

  /** Slot, family, fragment and payload terms. */
  function ShapeTerms(r: Rule, p: Pkt): bv32 {
    var f := r.flags as bv32;
    ((f & 1) ^ 1)
    | (((f >> 7) & 1) ^ Bit(p.isV6))
    | (((f >> 6) & 1) & (Bit(p.isFrag) ^ 1))
    | (((r.matchExt & MX_TLS_CLIENT_HELLO) as bv32) & (Bit(p.isTls) ^ 1))
    | ((((r.matchExt >> 1) & 1) as bv32) & (Bit(p.isQuic) ^ 1))
  }

  /** Protocol and port terms. */
  function FieldTerms(r: Rule, p: Pkt): bv64 {
    var f := r.flags as bv32;
    var noports := Bit(p.havePorts) ^ 1;
    ((((r.proto as bv32) ^ (p.proto as bv32)) as bv64) & TestMask(f, 3))
    | (((((r.sport as bv32) ^ (p.sport as bv32)) | noports) as bv64) & TestMask(f, 4))
    | (((((r.dport as bv32) ^ (p.dport as bv32)) | noports) as bv64) & TestMask(f, 5))
  }

  /** The TCP-flag term, switched off by a zero mask without a branch. */
  function FlagTerm(r: Rule, p: Pkt): bv64 {
    var tfm := r.tcpMask as bv32;
    var noports := Bit(p.havePorts) ^ 1;
    var nz := (tfm + 0xFF) >> 8;
    (((((p.tcpFlags as bv32) & tfm) ^ (r.tcpFlags as bv32))
      | ((p.proto as bv32) ^ (PROTO_TCP as bv32)) | noports) as bv64)
    & (0 - (nz as bv64))
  }

  /** Two prefix comparisons, each kept only when its field is tested. */
  function Joined(src: bv64, dst: bv64, flags: bv8): bv64 {
    (src & TestMask(flags as bv32, 1)) | (dst & TestMask(flags as bv32, 2))
  }

  function PrefixTerms(r: Rule, p: Pkt): bv64 {
    if p.isV6 then
      Joined(PfxBadV6(p.src, r.src, r.srcLen), PfxBadV6(p.dst, r.dst, r.dstLen), r.flags)
    else
      Joined(PfxBadV4(p.src, r.src, r.srcLen) as bv64, PfxBadV4(p.dst, r.dst, r.dstLen) as bv64, r.flags)
  }

  function Accumulator(r: Rule, p: Pkt): bv64 {
    (ShapeTerms(r, p) as bv64) | FieldTerms(r, p) | FlagTerm(r, p) | PrefixTerms(r, p)
  }

  predicate RuleMatch(r: Rule, p: Pkt) {
    Accumulator(r, p) == 0
  }

  // ---------------------------------------------------- what it decides

  /** The address lies inside the rule's prefix, whose length is cut to the family's width. */
  ghost predicate InPrefix(addr: Addr, pfx: Addr, len: bv8, isV6: bool) {
    AgreeOnTop(addr, pfx, Min(len as nat, if isV6 then 128 else 32))
  }

  ghost predicate ShapeFits(r: Rule, p: Pkt) {
    && r.flags & RF_VALID != 0
    && (r.flags & RF_IPV6 != 0 <==> p.isV6)
    && (r.flags & RF_FRAGMENT != 0 ==> p.isFrag)
    && (r.matchExt & MX_TLS_CLIENT_HELLO != 0 ==> p.isTls)
    && (r.matchExt & MX_QUIC_INITIAL != 0 ==> p.isQuic)
  }

  ghost predicate FieldsFit(r: Rule, p: Pkt) {
    && (r.flags & RF_PROTO_ANY != 0 || r.proto == p.proto)
    && (r.flags & RF_SPORT_ANY != 0 || (p.havePorts && r.sport == p.sport))
    && (r.flags & RF_DPORT_ANY != 0 || (p.havePorts && r.dport == p.dport))
  }

  /** Section 4.2.2.9 of RFC 8955 read as a bitmask match, plus a mask that can pin cleared bits. */
  ghost predicate FlagsFit(r: Rule, p: Pkt) {
    r.tcpMask != 0 ==> p.proto == PROTO_TCP && p.havePorts && p.tcpFlags & r.tcpMask == r.tcpFlags
  }

  ghost predicate PrefixesFit(r: Rule, p: Pkt) {
    && (r.flags & RF_SRC_ANY != 0 || InPrefix(p.src, r.src, r.srcLen, p.isV6))
    && (r.flags & RF_DST_ANY != 0 || InPrefix(p.dst, r.dst, r.dstLen, p.isV6))
  }

  /** The rule as an operator reads it. */
  ghost predicate Describes(r: Rule, p: Pkt) {
    ShapeFits(r, p) && FieldsFit(r, p) && FlagsFit(r, p) && PrefixesFit(r, p)
  }

  // ------------------------------------------------- one octet at a time

  /** The masked comparison of one octet. */
  predicate SameUnder(x: bv8, y: bv8, m: bv8) { (x ^ y) & m == 0 }

  lemma SameUnderBit(x: bv8, y: bv8, m: bv8, i: nat)
    requires i < 8 && SameUnder(x, y, m) && TopBit(m, i)
    ensures TopBit(x, i) == TopBit(y, i)
  {}

  lemma SameUnderBits(x: bv8, y: bv8, m: bv8)
    requires forall i: nat | i < 8 && TopBit(m, i) :: TopBit(x, i) == TopBit(y, i)
    ensures SameUnder(x, y, m)
  {
    assert TopBit(m, 0) ==> TopBit(x, 0) == TopBit(y, 0);
    assert TopBit(m, 1) ==> TopBit(x, 1) == TopBit(y, 1);
    assert TopBit(m, 2) ==> TopBit(x, 2) == TopBit(y, 2);
    assert TopBit(m, 3) ==> TopBit(x, 3) == TopBit(y, 3);
    assert TopBit(m, 4) ==> TopBit(x, 4) == TopBit(y, 4);
    assert TopBit(m, 5) ==> TopBit(x, 5) == TopBit(y, 5);
    assert TopBit(m, 6) ==> TopBit(x, 6) == TopBit(y, 6);
    assert TopBit(m, 7) ==> TopBit(x, 7) == TopBit(y, 7);
  }

  /** How many of the first `bits` bits fall in the octet that starts at bit `lo`. */
  function Inside(bits: bv8, lo: bv8): bv8 {
    if bits <= lo then 0 else if bits - lo >= 8 then 8 else bits - lo
  }

  function TopMask(bits: bv8, lo: bv8): bv8
    requires Inside(bits, lo) <= 8
  {
    0xFF << (8 - Inside(bits, lo))
  }

  lemma InsideFits(bits: bv8, lo: bv8)
    ensures Inside(bits, lo) <= 8
  {}

  /** The number `lo + i`, still as an octet. */
  function Shifted(lo: bv8, i: nat): bv8
    requires i < 8
  {
    if i == 0 then lo else if i == 1 then lo + 1 else if i == 2 then lo + 2 else if i == 3 then lo + 3
    else if i == 4 then lo + 4 else if i == 5 then lo + 5 else if i == 6 then lo + 6 else lo + 7
  }

  /** `k` leading ones of an octet, one bit at a time. */
  lemma LeadingOnes(k: bv8)
    requires k <= 8
    ensures var m: bv8 := 0xFF << (8 - k);
      && (m & 0x80 != 0 <==> k > 0) && (m & 0x40 != 0 <==> k > 1) && (m & 0x20 != 0 <==> k > 2)
      && (m & 0x10 != 0 <==> k > 3) && (m & 0x08 != 0 <==> k > 4) && (m & 0x04 != 0 <==> k > 5)
      && (m & 0x02 != 0 <==> k > 6) && (m & 0x01 != 0 <==> k > 7)
  {}

  /** Bit `i` of the octet is inside exactly when the prefix goes past it. */
  lemma InsideReaches(bits: bv8, lo: bv8)
    requires lo <= 120
    ensures var k := Inside(bits, lo);
      && (k > 0 <==> bits > lo) && (k > 1 <==> bits > lo + 1) && (k > 2 <==> bits > lo + 2)
      && (k > 3 <==> bits > lo + 3) && (k > 4 <==> bits > lo + 4) && (k > 5 <==> bits > lo + 5)
      && (k > 6 <==> bits > lo + 6) && (k > 7 <==> bits > lo + 7)
  {}

  lemma MaskReaches(bits: bv8, lo: bv8, i: nat)
    requires i < 8 && lo <= 120 && Inside(bits, lo) <= 8
    ensures TopBit(TopMask(bits, lo), i) <==> bits > Shifted(lo, i)
  {
    hide Inside;
    LeadingOnes(Inside(bits, lo));
    InsideReaches(bits, lo);
  }

  lemma OctetOrder(x: bv8, y: bv8)
    ensures x <= y <==> x as int <= y as int
  {}

  lemma OctetSucc(x: bv8)
    requires x != 0xFF
    ensures (x + 1) as int == x as int + 1
  {}

  lemma ShiftedSteps(lo: bv8, i: nat)
    requires 0 < i < 8 && lo <= 120
    ensures Shifted(lo, i) == Shifted(lo, i - 1) + 1 && Shifted(lo, i - 1) != 0xFF
  {}

  lemma ShiftedCounts(lo: bv8, i: nat)
    requires lo <= 120 && i < 8
    ensures Shifted(lo, i) as int == lo as int + i
  {
    if i != 0 {
      hide Shifted;
      ShiftedCounts(lo, i - 1);
      ShiftedSteps(lo, i);
      OctetSucc(Shifted(lo, i - 1));
    }
  }

  /** The mask covers exactly the bits the prefix reaches. */
  lemma MaskBit(bits: bv8, lo: bv8, i: nat)
    requires i < 8 && lo <= 120
    ensures Inside(bits, lo) <= 8
    ensures TopBit(TopMask(bits, lo), i) <==> bits as int > lo as int + i
  {
    hide TopMask, TopBit, Inside, Shifted;
    InsideFits(bits, lo);
    ShiftedCounts(lo, i);
    OctetOrder(bits, Shifted(lo, i));
    MaskReaches(bits, lo, i);
  }

  lemma MaskBits(bits: bv8, lo: bv8)
    requires lo <= 120
    ensures Inside(bits, lo) <= 8
    ensures forall i: nat | i < 8 :: TopBit(TopMask(bits, lo), i) <==> lo as int + i < bits as int
  {
    hide TopMask, TopBit, Inside;
    InsideFits(bits, lo);
    forall i: nat | i < 8 ensures TopBit(TopMask(bits, lo), i) <==> lo as int + i < bits as int {
      MaskBit(bits, lo, i);
    }
  }

  /** Octet `j` agrees on its share of the first `n` bits. */
  ghost predicate OctetOk(a: Addr, p: Addr, n: nat, j: nat)
    requires j < 16
  {
    forall i: nat | i < 8 && 8 * j + i < n :: TopBit(a[j], i) == TopBit(p[j], i)
  }

  ghost predicate OctetsOk(a: Addr, p: Addr, n: nat, from: nat, to: nat)
    requires to <= 16
  {
    forall j: nat | from <= j < to :: OctetOk(a, p, n, j)
  }

  lemma MaskedOctet(a: Addr, p: Addr, n: nat, j: nat, m: bv8)
    requires j < 16
    requires forall i: nat | i < 8 :: TopBit(m, i) <==> 8 * j + i < n
    ensures SameUnder(a[j], p[j], m) <==> OctetOk(a, p, n, j)
  {
    hide TopBit, SameUnder;
    if SameUnder(a[j], p[j], m) {
      forall i: nat | i < 8 && TopBit(m, i) ensures TopBit(a[j], i) == TopBit(p[j], i) {
        SameUnderBit(a[j], p[j], m, i);
      }
    } else if OctetOk(a, p, n, j) {
      SameUnderBits(a[j], p[j], m);
    }
  }

  lemma OctetTest(a: Addr, p: Addr, bits: bv8, j: nat, lo: bv8)
    requires j < 16 && lo <= 120 && lo as int == 8 * j
    ensures Inside(bits, lo) <= 8
    ensures SameUnder(a[j], p[j], TopMask(bits, lo)) <==> OctetOk(a, p, bits as nat, j)
  {
    hide TopMask, TopBit, Inside, SameUnder, OctetOk;
    MaskBits(bits, lo);
    MaskedOctet(a, p, bits as nat, j, TopMask(bits, lo));
  }

  /** Agreement on the first `n` bits, split into octets. */
  lemma OctetsAgree(a: Addr, p: Addr, n: nat, octets: nat)
    requires octets <= 16 && n <= 8 * octets
    ensures AgreeOnTop(a, p, n) <==> OctetsOk(a, p, n, 0, octets)
  {
    if OctetsOk(a, p, n, 0, octets) {
      forall k: nat | k < n ensures NetBit(a, k) == NetBit(p, k) {
        assert OctetOk(a, p, n, k / 8);
      }
    }
    if AgreeOnTop(a, p, n) {
      forall j: nat | j < octets ensures OctetOk(a, p, n, j) {
        forall i: nat | i < 8 && 8 * j + i < n ensures TopBit(a[j], i) == TopBit(p[j], i) {
          assert NetBit(a, 8 * j + i) == NetBit(p, 8 * j + i);
        }
      }
    }
  }

  // --------------------------------------------- words against octets

  predicate SameUnder32(x: bv32, y: bv32, m: bv32) { (x ^ y) & m == 0 }

  lemma WordSame(a0: bv8, a1: bv8, a2: bv8, a3: bv8, p0: bv8, p1: bv8, p2: bv8, p3: bv8,
                 m0: bv8, m1: bv8, m2: bv8, m3: bv8)
    requires SameUnder32(Load32(a0, a1, a2, a3), Load32(p0, p1, p2, p3), Load32(m0, m1, m2, m3))
    ensures SameUnder(a0, p0, m0)
    ensures SameUnder(a1, p1, m1)
    ensures SameUnder(a2, p2, m2)
    ensures SameUnder(a3, p3, m3)
  {}

  lemma OctetsSame(a0: bv8, a1: bv8, a2: bv8, a3: bv8, p0: bv8, p1: bv8, p2: bv8, p3: bv8,
                   m0: bv8, m1: bv8, m2: bv8, m3: bv8)
    requires SameUnder(a0, p0, m0) && SameUnder(a1, p1, m1) && SameUnder(a2, p2, m2) && SameUnder(a3, p3, m3)
    ensures SameUnder32(Load32(a0, a1, a2, a3), Load32(p0, p1, p2, p3), Load32(m0, m1, m2, m3))
  {}

  /** The mask of four octets starting at bit `lo`, as it lies in memory. */
  function MaskWord(bits: bv8, lo: bv8): bv32
    requires lo <= 96
  {
    InsideFits(bits, lo); InsideFits(bits, lo + 8); InsideFits(bits, lo + 16); InsideFits(bits, lo + 24);
    Load32(TopMask(bits, lo), TopMask(bits, lo + 8), TopMask(bits, lo + 16), TopMask(bits, lo + 24))
  }

  function Word(a: Addr, w: nat): bv32
    requires w < 4
  {
    Load32(a[4 * w], a[4 * w + 1], a[4 * w + 2], a[4 * w + 3])
  }

  /** One masked word passes exactly when its four masked octets do. */
  lemma WordOctets(a0: bv8, a1: bv8, a2: bv8, a3: bv8, p0: bv8, p1: bv8, p2: bv8, p3: bv8,
                   m0: bv8, m1: bv8, m2: bv8, m3: bv8)
    ensures SameUnder32(Load32(a0, a1, a2, a3), Load32(p0, p1, p2, p3), Load32(m0, m1, m2, m3)) <==>
            SameUnder(a0, p0, m0) && SameUnder(a1, p1, m1) && SameUnder(a2, p2, m2) && SameUnder(a3, p3, m3)
  {
    hide Load32, SameUnder, SameUnder32;
    if SameUnder32(Load32(a0, a1, a2, a3), Load32(p0, p1, p2, p3), Load32(m0, m1, m2, m3)) {
      WordSame(a0, a1, a2, a3, p0, p1, p2, p3, m0, m1, m2, m3);
    } else if SameUnder(a0, p0, m0) && SameUnder(a1, p1, m1) && SameUnder(a2, p2, m2) && SameUnder(a3, p3, m3) {
      OctetsSame(a0, a1, a2, a3, p0, p1, p2, p3, m0, m1, m2, m3);
    }
  }

  /** Four octets under their masks, the first of them octet `j` of the address. */
  lemma OctetTests(a: Addr, p: Addr, bits: bv8, j: nat, lo: bv8)
    requires j + 4 <= 16 && lo <= 96 && lo as int == 8 * j
    ensures Inside(bits, lo) <= 8 && Inside(bits, lo + 8) <= 8
    ensures Inside(bits, lo + 16) <= 8 && Inside(bits, lo + 24) <= 8
    ensures OctetsOk(a, p, bits as nat, j, j + 4) <==>
            && SameUnder(a[j], p[j], TopMask(bits, lo))
            && SameUnder(a[j + 1], p[j + 1], TopMask(bits, lo + 8))
            && SameUnder(a[j + 2], p[j + 2], TopMask(bits, lo + 16))
            && SameUnder(a[j + 3], p[j + 3], TopMask(bits, lo + 24))
  {
    hide SameUnder, TopMask, Inside, OctetOk, OctetsOk;
    OctetPlus8(lo);
    OctetTest(a, p, bits, j, lo);
    OctetTest(a, p, bits, j + 1, lo + 8);
    OctetTest(a, p, bits, j + 2, lo + 16);
    OctetTest(a, p, bits, j + 3, lo + 24);
    FourOctets(a, p, bits as nat, j);
  }

  /** One masked word of the comparison passes exactly when its four octets agree on their share of the prefix. */
  lemma WordTest(a: Addr, p: Addr, bits: bv8, w: nat, lo: bv8)
    requires w < 4 && lo <= 96 && lo as int == 32 * w
    ensures SameUnder32(Word(a, w), Word(p, w), MaskWord(bits, lo)) <==>
            OctetsOk(a, p, bits as nat, 4 * w, 4 * w + 4)
  {
    hide Load32, SameUnder, SameUnder32, TopMask, Inside, OctetsOk;
    var j := 4 * w;
    OctetTests(a, p, bits, j, lo);
    WordOctets(a[j], a[j + 1], a[j + 2], a[j + 3], p[j], p[j + 1], p[j + 2], p[j + 3],
               TopMask(bits, lo), TopMask(bits, lo + 8), TopMask(bits, lo + 16), TopMask(bits, lo + 24));
  }

  lemma FourOctets(a: Addr, p: Addr, n: nat, j: nat)
    requires j + 4 <= 16
    ensures OctetsOk(a, p, n, j, j + 4) <==>
            OctetOk(a, p, n, j) && OctetOk(a, p, n, j + 1) && OctetOk(a, p, n, j + 2) && OctetOk(a, p, n, j + 3)
  {
    hide OctetOk;
  }

  lemma OctetsJoin(a: Addr, p: Addr, n: nat, from: nat, mid: nat, to: nat)
    requires from <= mid <= to <= 16
    ensures OctetsOk(a, p, n, from, to) <==> OctetsOk(a, p, n, from, mid) && OctetsOk(a, p, n, mid, to)
  {
    hide OctetOk;
  }

  lemma OctetPlus8(lo: bv8)
    requires lo <= 96
    ensures lo + 8 <= 120 && lo + 16 <= 120 && lo + 24 <= 120
    ensures (lo + 8) as int == lo as int + 8
    ensures (lo + 16) as int == lo as int + 16
    ensures (lo + 24) as int == lo as int + 24
  {
    Plus8(lo);
    Plus8(lo + 8);
    Plus8(lo + 16);
  }

  lemma Plus8(lo: bv8)
    requires lo <= 112
    ensures (lo + 8) as int == lo as int + 8
  {
    ShiftedCounts(lo, 7);
    OctetSucc(lo + 7);
  }

  lemma ClampedTo(bits: bv8, top: bv8)
    ensures ClampLen(bits, top) <= top
    ensures ClampLen(bits, top) as int == Min(bits as int, top as int)
  {
    OctetOrder(bits, top);
  }

  // ----------------------------------------------------------- IPv4

  /** Swapping a mask of leading ones puts the ones in the leading octets. */
  lemma SwappedMask4(bits: bv8)
    requires bits <= 32
    ensures Bswap32(Mask4(bits)) == MaskWord(bits, 0)
  {}

  lemma PfxBadV4Words(addr: Addr, pfx: Addr, len: bv8)
    ensures ClampLen(len, 32) <= 32
    ensures PfxBadV4(addr, pfx, len) == 0 <==>
            SameUnder32(W32(addr), W32(pfx), Bswap32(Mask4(ClampLen(len, 32))))
  {
    hide Mask4, Bswap32, W32;
  }

  lemma PfxV4(addr: Addr, pfx: Addr, len: bv8)
    ensures PfxBadV4(addr, pfx, len) == 0 <==> InPrefix(addr, pfx, len, false)
  {
    hide PfxBadV4, Load32, Mask4, Bswap32, MaskWord, SameUnder32, OctetOk, OctetsOk, AgreeOnTop, ClampLen;
    var n := ClampLen(len, 32);
    ClampedTo(len, 32);
    PfxBadV4Words(addr, pfx, len);
    SwappedMask4(n);
    WordTest(addr, pfx, n, 0, 0);
    OctetsAgree(addr, pfx, n as nat, 4);
  }

  // ----------------------------------------------------------- IPv6

  predicate SameUnder64(x: bv64, y: bv64, m: bv64) { (x ^ y) & m == 0 }

  lemma WideSame(x0: bv32, x1: bv32, y0: bv32, y1: bv32, m0: bv32, m1: bv32)
    requires SameUnder64(Load64(x0, x1), Load64(y0, y1), Load64(m0, m1))
    ensures SameUnder32(x0, y0, m0)
    ensures SameUnder32(x1, y1, m1)
  {}

  lemma HalvesSame(x0: bv32, x1: bv32, y0: bv32, y1: bv32, m0: bv32, m1: bv32)
    requires SameUnder32(x0, y0, m0) && SameUnder32(x1, y1, m1)
    ensures SameUnder64(Load64(x0, x1), Load64(y0, y1), Load64(m0, m1))
  {}

  /** The same for eight octets. */
  lemma SwappedMask8(bits: bv8)
    requires bits <= 63
    ensures Bswap64(Mask8(bits)) == Load64(MaskWord(bits, 0), MaskWord(bits, 32))
  {}

  lemma FullWord(bits: bv8, lo: bv8)
    requires lo <= 96 && bits >= lo + 32
    ensures MaskWord(bits, lo) == 0xFFFF_FFFF
  {}

  /** A word whose octets the prefix reaches 64 bits later is masked as the word 64 bits before it. */
  lemma LaterWord(bits: bv8, lo: bv8)
    requires lo <= 32 && 64 <= bits <= 128
    ensures MaskWord(bits, lo + 64) == MaskWord(bits - 64, lo)
  {}

  lemma EmptyWord(bits: bv8, lo: bv8)
    requires lo <= 96 && bits <= lo
    ensures MaskWord(bits, lo) == 0
  {}

  lemma SwappedMaskHi(bits: bv8)
    requires bits <= 128
    ensures MaskHi(bits) == Load64(MaskWord(bits, 0), MaskWord(bits, 32))
  {
    hide MaskWord, Mask8, Bswap64;
    if bits >= 64 {
      FullWord(bits, 0);
      FullWord(bits, 32);
    } else {
      SwappedMask8(bits);
    }
  }

  lemma SwappedMaskLo(bits: bv8)
    requires bits <= 128
    ensures MaskLo(bits) == Load64(MaskWord(bits, 64), MaskWord(bits, 96))
  {
    hide MaskWord, Mask8, Bswap64;
    if bits < 64 {
      EmptyWord(bits, 64);
      EmptyWord(bits, 96);
    } else if bits == 128 {
      FullWord(bits, 64);
      FullWord(bits, 96);
    } else {
      SwappedMask8(bits - 64);
      LaterWord(bits, 0);
      LaterWord(bits, 32);
    }
  }

  lemma WideWords(a: Addr, h: nat)
    requires h < 2
    ensures W64(a, h) == Load64(Word(a, 2 * h), Word(a, 2 * h + 1))
  {
    hide Load32;
  }

  /** One masked half passes exactly when its two words do. */
  lemma HalfTest(a: Addr, p: Addr, h: nat, m0: bv32, m1: bv32)
    requires h < 2
    ensures SameUnder64(W64(a, h), W64(p, h), Load64(m0, m1)) <==>
            SameUnder32(Word(a, 2 * h), Word(p, 2 * h), m0) && SameUnder32(Word(a, 2 * h + 1), Word(p, 2 * h + 1), m1)
  {
    hide Load64, W64, Word, SameUnder32, SameUnder64;
    var w := 2 * h;
    WideWords(a, h);
    WideWords(p, h);
    if SameUnder64(W64(a, h), W64(p, h), Load64(m0, m1)) {
      WideSame(Word(a, w), Word(a, w + 1), Word(p, w), Word(p, w + 1), m0, m1);
    } else if SameUnder32(Word(a, w), Word(p, w), m0) && SameUnder32(Word(a, w + 1), Word(p, w + 1), m1) {
      HalvesSame(Word(a, w), Word(a, w + 1), Word(p, w), Word(p, w + 1), m0, m1);
    }
  }

  lemma PfxBadV6Words(addr: Addr, pfx: Addr, len: bv8)
    ensures ClampLen(len, 128) <= 128
    ensures PfxBadV6(addr, pfx, len) == 0 <==>
            && SameUnder64(W64(addr, 0), W64(pfx, 0), MaskHi(ClampLen(len, 128)))
            && SameUnder64(W64(addr, 1), W64(pfx, 1), MaskLo(ClampLen(len, 128)))
  {
    hide MaskHi, MaskLo, W64;
  }

  lemma PfxV6(addr: Addr, pfx: Addr, len: bv8)
    ensures PfxBadV6(addr, pfx, len) == 0 <==> InPrefix(addr, pfx, len, true)
  {
    hide PfxBadV6, Load64, W64, Word, MaskHi, MaskLo, MaskWord, SameUnder32, SameUnder64, OctetsOk, AgreeOnTop,
         ClampLen;
    var n := ClampLen(len, 128);
    ClampedTo(len, 128);
    PfxBadV6Words(addr, pfx, len);
    SwappedMaskHi(n);
    SwappedMaskLo(n);
    HalfTest(addr, pfx, 0, MaskWord(n, 0), MaskWord(n, 32));
    HalfTest(addr, pfx, 1, MaskWord(n, 64), MaskWord(n, 96));
    WordTest(addr, pfx, n, 0, 0);
    WordTest(addr, pfx, n, 1, 32);
    WordTest(addr, pfx, n, 2, 64);
    WordTest(addr, pfx, n, 3, 96);
    OctetsJoin(addr, pfx, n as nat, 0, 4, 8);
    OctetsJoin(addr, pfx, n as nat, 8, 12, 16);
    OctetsJoin(addr, pfx, n as nat, 0, 8, 16);
    OctetsAgree(addr, pfx, n as nat, 16);
  }

  // -------------------------------------------------- term by term

  lemma ShapeZero(r: Rule, p: Pkt)
    requires ShapeTerms(r, p) == 0
    ensures ShapeFits(r, p)
  {}

  lemma ShapeFitting(r: Rule, p: Pkt)
    requires ShapeFits(r, p)
    ensures ShapeTerms(r, p) == 0
  {}

  lemma FieldsZero(r: Rule, p: Pkt)
    requires FieldTerms(r, p) == 0
    ensures FieldsFit(r, p)
  {}

  lemma FieldsFitting(r: Rule, p: Pkt)
    requires FieldsFit(r, p)
    ensures FieldTerms(r, p) == 0
  {}

  lemma FlagsZero(r: Rule, p: Pkt)
    requires FlagTerm(r, p) == 0
    ensures FlagsFit(r, p)
  {}

  lemma FlagsFitting(r: Rule, p: Pkt)
    requires FlagsFit(r, p)
    ensures FlagTerm(r, p) == 0
  {}

  /** A test mask is all ones, or nothing at all, as the flag bit says. */
  lemma SrcMask(f: bv8)
    ensures TestMask(f as bv32, 1) == if f & RF_SRC_ANY != 0 then 0 else ONES64
  {}

  lemma DstMask(f: bv8)
    ensures TestMask(f as bv32, 2) == if f & RF_DST_ANY != 0 then 0 else ONES64
  {}

  lemma OrParts(x: bv64, y: bv64)
    requires x | y == 0
    ensures x == 0 && y == 0
  {}

  lemma AllOnes(x: bv64)
    ensures x & ONES64 == x
  {}

  lemma Masked(x: bv64, m: bv64)
    requires x == 0 || m == 0
    ensures x & m == 0
  {}

  lemma JoinedZero(x: bv64, y: bv64, f: bv8)
    requires Joined(x, y, f) == 0
    ensures f & RF_SRC_ANY != 0 || x == 0
    ensures f & RF_DST_ANY != 0 || y == 0
  {
    hide TestMask;
    SrcMask(f);
    DstMask(f);
    OrParts(x & TestMask(f as bv32, 1), y & TestMask(f as bv32, 2));
    AllOnes(x);
    AllOnes(y);
  }

  lemma ZeroJoined(x: bv64, y: bv64, f: bv8)
    requires f & RF_SRC_ANY != 0 || x == 0
    requires f & RF_DST_ANY != 0 || y == 0
    ensures Joined(x, y, f) == 0
  {
    hide TestMask;
    SrcMask(f);
    DstMask(f);
    Masked(x, TestMask(f as bv32, 1));
    Masked(y, TestMask(f as bv32, 2));
  }

  /** The two prefix words of the accumulator, whichever family the packet has. */
  function PrefixWord(addr: Addr, pfx: Addr, len: bv8, isV6: bool): bv64 {
    if isV6 then PfxBadV6(addr, pfx, len) else PfxBadV4(addr, pfx, len) as bv64
  }

  lemma WidenZero(x: bv32)
    ensures (x as bv64) == 0 <==> x == 0
  {}

  lemma PrefixWordTest(addr: Addr, pfx: Addr, len: bv8, isV6: bool)
    ensures PrefixWord(addr, pfx, len, isV6) == 0 <==> InPrefix(addr, pfx, len, isV6)
  {
    hide PfxBadV4, PfxBadV6, InPrefix;
    if isV6 {
      PfxV6(addr, pfx, len);
    } else {
      PfxV4(addr, pfx, len);
      WidenZero(PfxBadV4(addr, pfx, len));
    }
  }

  lemma PrefixesZero(r: Rule, p: Pkt)
    ensures PrefixTerms(r, p) == 0 <==> PrefixesFit(r, p)
  {
    hide PfxBadV4, PfxBadV6, InPrefix, Joined;
    var x, y := PrefixWord(p.src, r.src, r.srcLen, p.isV6), PrefixWord(p.dst, r.dst, r.dstLen, p.isV6);
    PrefixWordTest(p.src, r.src, r.srcLen, p.isV6);
    PrefixWordTest(p.dst, r.dst, r.dstLen, p.isV6);
    if Joined(x, y, r.flags) == 0 {
      JoinedZero(x, y, r.flags);
    } else if PrefixesFit(r, p) {
      ZeroJoined(x, y, r.flags);
    }
  }

  lemma OrZero(a: bv32, b: bv64, c: bv64, d: bv64)
    requires (a as bv64) | b | c | d == 0
    ensures a == 0
    ensures b == 0
    ensures c == 0
    ensures d == 0
  {}

  lemma ZeroOr(a: bv32, b: bv64, c: bv64, d: bv64)
    requires a == 0 && b == 0 && c == 0 && d == 0
    ensures (a as bv64) | b | c | d == 0
  {}

  /** The accumulator is zero exactly when the rule, as written, describes the packet. */
  lemma MatchIsDescription(r: Rule, p: Pkt)
    ensures RuleMatch(r, p) <==> Describes(r, p)
  {
    hide ShapeTerms, FieldTerms, FlagTerm, PrefixTerms, ShapeFits, FieldsFit, FlagsFit, PrefixesFit;
    PrefixesZero(r, p);
    if RuleMatch(r, p) {
      OrZero(ShapeTerms(r, p), FieldTerms(r, p), FlagTerm(r, p), PrefixTerms(r, p));
      ShapeZero(r, p);
      FieldsZero(r, p);
      FlagsZero(r, p);
    } else if Describes(r, p) {
      ShapeFitting(r, p);
      FieldsFitting(r, p);
      FlagsFitting(r, p);
      ZeroOr(ShapeTerms(r, p), FieldTerms(r, p), FlagTerm(r, p), PrefixTerms(r, p));
    }
  }
}
