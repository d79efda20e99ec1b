/**
 * Which frames the parser accepts: exactly those a sender can write from the
 * layouts, and which ones trip the extension-header cap.
 */
module Written {
  import opened Basics
  import opened Wire
  import opened Packet
  import opened Decode
  import opened Layout

  lemma Be16Splits(hi: bv8, lo: bv8)
    ensures Hi(Be16(hi, lo)) == hi && Lo(Be16(hi, lo)) == lo
  {}

  // ---------------------------------------------------------------- layer 4

  lemma NibblesJoin(o: bv8)
    ensures ((o >> 4) << 4) | (o & 0x0F) == o && o & 0x0F <= 0x0F && o >> 4 <= 0x0F
  {}

  /** The data offset of a TCP header, in words. */
  function DataOffset(o: bv8): nat { (o >> 4) as int }

  ghost function TcpAt(f: Frame, at: nat): Transport
    requires at + 20 <= |f|
  {
    var sport, dport := Be16(f[at], f[at + 1]), Be16(f[at + 2], f[at + 3]);
    var body := at + DataOffset(f[at + 12]) * 4;
    if at + 20 <= body <= |f| then
      Tcp(sport, dport, f[at + 4..at + 12], f[at + 12] & 0x0F, f[at + 13], f[at + 14..at + 20],
          f[at + 20..body], f[body..])
    else
      Stub(sport, dport, f[at + 4..at + 12], f[at + 12], f[at + 13], f[at + 14..at + 20], f[at + 20..])
  }

  /** The 20 octets every TCP header has, cut where the fields are. */
  lemma FixedPart(f: Frame, at: nat)
    requires at + 20 <= |f|
    ensures f[at..] == f[at..at + 4] + f[at + 4..at + 12] + [f[at + 12], f[at + 13]] + f[at + 14..at + 20] + f[at + 20..]
    ensures f[at..at + 4] == [f[at], f[at + 1], f[at + 2], f[at + 3]]
  {}

  lemma SizeOctet(o: bv8)
    ensures DataOffset(o) <= 15 && (DataOffset(o) as bv8 << 4) | (o & 0x0F) == o && o & 0x0F <= 0x0F
  {
    NibblesJoin(o);
    assert DataOffset(o) as bv8 == o >> 4;
  }

  /** A TCP header with its data offset within the frame. */
  lemma WholeTcp(f: Frame, at: nat, t: Transport, body: nat)
    requires at + 20 <= body <= |f| && t.Tcp? && t.Valid() && body - at == 4 * t.Words()
    requires [Hi(t.sport), Lo(t.sport), Hi(t.dport), Lo(t.dport)] == [f[at], f[at + 1], f[at + 2], f[at + 3]]
    requires (t.Words() as bv8 << 4) | t.res == f[at + 12] && t.flags == f[at + 13]
    requires t.numbers == f[at + 4..at + 12] && t.tail == f[at + 14..at + 20]
    requires t.options == f[at + 20..body] && t.payload == f[body..]
    ensures t.Encode() == f[at..]
  {
    hide Hi, Lo, Transport.Words, Transport.Valid;
    FixedPart(f, at);
    Halves(f, at + 20, body);
    var front := f[at..at + 4] + f[at + 4..at + 12] + [f[at + 12], f[at + 13]] + f[at + 14..at + 20];
    assert t.Encode() == front + t.options + t.payload;
    assert front + t.options + t.payload == front + (t.options + t.payload);
  }

  lemma WholeWritten(f: Frame, at: nat)
    requires at + 20 <= |f| && TcpAt(f, at).Tcp?
    ensures var t := TcpAt(f, at); t.Valid() && t.Encode() == f[at..]
  {
    hide Be16, Hi, Lo, DataOffset, Transport.Encode;
    var t, o := TcpAt(f, at), f[at + 12];
    Be16Splits(f[at], f[at + 1]);
    Be16Splits(f[at + 2], f[at + 3]);
    SizeOctet(o);
    assert t.Words() == DataOffset(o);
    WholeTcp(f, at, t, at + DataOffset(o) * 4);
  }

  lemma StubWritten(f: Frame, at: nat)
    requires at + 20 <= |f| && TcpAt(f, at).Stub?
    ensures var t := TcpAt(f, at); t.Valid() && t.Encode() == f[at..]
  {
    hide Be16, Hi, Lo;
    var t, o := TcpAt(f, at), f[at + 12];
    Be16Splits(f[at], f[at + 1]);
    Be16Splits(f[at + 2], f[at + 3]);
    FixedPart(f, at);
    assert t.Encode() == f[at..at + 4] + t.numbers + [o, t.flags] + t.tail + t.rest;
  }

  lemma Halves(f: Frame, a: nat, b: nat)
    requires a <= b <= |f|
    ensures f[a..] == f[a..b] + f[b..]
  {}

  lemma TcpWritten(f: Frame, at: nat)
    requires at + 20 <= |f|
    ensures var t := TcpAt(f, at); t.Valid() && t.Proto() == PROTO_TCP && t.Encode() == f[at..]
  {
    hide Transport.Encode, Transport.Valid;
    if TcpAt(f, at).Tcp? {
      WholeWritten(f, at);
    } else {
      StubWritten(f, at);
    }
  }

  ghost function UdpAt(f: Frame, at: nat): Transport
    requires at + 8 <= |f|
  {
    Udp(Be16(f[at], f[at + 1]), Be16(f[at + 2], f[at + 3]), f[at + 4..at + 8], f[at + 8..])
  }

  lemma UdpWritten(f: Frame, at: nat)
    requires at + 8 <= |f|
    ensures var t := UdpAt(f, at); t.Valid() && t.Proto() == PROTO_UDP && t.Encode() == f[at..]
  {
    hide Be16, Hi, Lo;
    Be16Splits(f[at], f[at + 1]);
    Be16Splits(f[at + 2], f[at + 3]);
  }

  ghost predicate SomeTransport(proto: bv8, octets: seq<bv8>) {
    exists t: Transport :: t.Valid() && t.Proto() == proto && t.Encode() == octets
  }

  /** A transport header is readable exactly when the octets are some written transport header. */
  lemma TransportWritten(f: Frame, at: nat, pkt: Pkt)
    requires at <= |f|
    ensures ReadTransport(f, at, pkt).Some? <==> SomeTransport(pkt.proto, f[at..])
  {
    if ReadTransport(f, at, pkt).Some? {
      var t :=
        if pkt.proto == PROTO_TCP then TcpAt(f, at)
        else if pkt.proto == PROTO_UDP then UdpAt(f, at)
        else Other(pkt.proto, f[at..]);
      if pkt.proto == PROTO_TCP { TcpWritten(f, at); }
      if pkt.proto == PROTO_UDP { UdpWritten(f, at); }
      assert t.Valid() && t.Proto() == pkt.proto && t.Encode() == f[at..];
    }
    if t: Transport :| t.Valid() && t.Proto() == pkt.proto && t.Encode() == f[at..] {
      TransportReads(f, at, t, pkt);
    }
  }

  // ------------------------------------------------------- IPv6 chains

  ghost function ExtAt(f: Frame, off: nat, kind: bv8): Ext
    requires off <= |f| && IsExt(kind) && ReadHeader(f, off, kind).Skip?
  {
    var end := ReadHeader(f, off, kind).end;
    if kind == PROTO_FRAGMENT then FirstFragment(f[off + 1], Be16(f[off + 2], f[off + 3]), f[off + 4..off + 8])
    else if kind == PROTO_AH then Auth(f[off + 1], f[off + 2..end])
    else Options(kind, f[off + 1], f[off + 2..end])
  }

  lemma ExtWritten(f: Frame, off: nat, kind: bv8)
    requires off <= |f| && IsExt(kind) && ReadHeader(f, off, kind).Skip?
    ensures var x, h := ExtAt(f, off, kind), ReadHeader(f, off, kind);
            && x.Valid() && x.Kind() == kind && x.Size() == h.end - off && x.FirstFragment? == h.fragment
            && x.Encode(h.next) == f[off..h.end]
  {
    hide Be16, Hi, Lo;
    if kind == PROTO_FRAGMENT {
      Be16Splits(f[off + 2], f[off + 3]);
    }
  }

  ghost function RemainderAt(f: Frame, off: nat): Body
    requires off + 8 <= |f|
  {
    Remainder(f[off], f[off + 1], Be16(f[off + 2], f[off + 3]), f[off + 4..off + 8], f[off + 8..])
  }

  lemma RemainderWritten(f: Frame, off: nat)
    requires off <= |f| && ReadHeader(f, off, PROTO_FRAGMENT).Tail?
    ensures var b := RemainderAt(f, off); b.Valid() && b.Kind() == PROTO_FRAGMENT && b.Encode() == f[off..]
  {
    hide Be16, Hi, Lo;
    Be16Splits(f[off + 2], f[off + 3]);
  }

  /** The headers the chain reader passes, and what it stops at. */
  lemma {:induction false} ChainWritten(f: Frame, off: nat, kind: bv8) returns (exts: seq<Ext>, body: Body)
    requires off <= |f| && !ReadChain(f, off, kind).end.Broken?
    requires var end := ReadChain(f, off, kind).end; end.Upper? ==> SomeTransport(end.proto, f[end.off..])
    ensures ValidExts(exts) && body.Valid() && |exts| == ReadChain(f, off, kind).passed
    ensures FirstKind(exts, body) == kind && EncodeChain(exts, body) == f[off..]
    decreases |f| - off
  {
    hide Be16, Hi, Lo, Transport.Encode, Transport.Valid, Transport.Proto, Ext.Encode, Ext.Valid;
    if !IsExt(kind) {
      var t: Transport :| t.Valid() && t.Proto() == kind && t.Encode() == f[off..];
      exts, body := [], Whole(t);
    } else if ReadHeader(f, off, kind).Tail? {
      RemainderWritten(f, off);
      exts, body := [], RemainderAt(f, off);
    } else {
      hide ReadHeader;
      var h := ReadHeader(f, off, kind);
      ExtWritten(f, off, kind);
      var rest;
      rest, body := ChainWritten(f, h.end, h.next);
      exts := [ExtAt(f, off, kind)] + rest;
      assert exts[1..] == rest;
      assert f[off..] == f[off..h.end] + f[h.end..];
    }
  }

  ghost predicate SomeChain(kind: bv8, octets: seq<bv8>, passed: nat) {
    exists exts: seq<Ext>, body: Body ::
      ValidExts(exts) && body.Valid() && |exts| == passed && FirstKind(exts, body) == kind
      && EncodeChain(exts, body) == octets
  }

  /**
   * Reading a chain succeeds, with a readable transport header at its end,
   * exactly when the octets are some written chain of that many headers.
   */
  lemma ChainWrittenIff(f: Frame, off: nat, kind: bv8, passed: nat)
    requires off <= |f|
    ensures SomeChain(kind, f[off..], passed) <==>
            var c := ReadChain(f, off, kind);
            c.passed == passed && !c.end.Broken? && (c.end.Upper? ==> SomeTransport(c.end.proto, f[c.end.off..]))
  {
    hide ReadChain, EncodeChain, ValidExts, Transport.Encode, Transport.Valid, Transport.Proto, Body.Valid, FirstKind;
    var c := ReadChain(f, off, kind);
    if c.passed == passed && !c.end.Broken? && (c.end.Upper? ==> SomeTransport(c.end.proto, f[c.end.off..])) {
      var exts, body := ChainWritten(f, off, kind);
    }
    if exts: seq<Ext>, body: Body :|
      ValidExts(exts) && body.Valid() && |exts| == passed && FirstKind(exts, body) == kind
      && EncodeChain(exts, body) == f[off..]
    {
      ChainReads(f, off, exts, body);
      if body.Whole? {
        BodyTransport(body);
      }
    }
  }

  lemma BodyTransport(body: Body)
    requires body.Valid() && body.Whole?
    ensures SomeTransport(body.t.Proto(), body.Encode())
  {
    assert body.t.Valid();
  }

  // --------------------------------------------------- the eight-header cap

  /** The octets of a run of headers, the last of which announces `last`. */
  ghost function EncodeExts(exts: seq<Ext>, last: bv8): seq<bv8>
    requires ValidExts(exts)
  {
    if exts == [] then []
    else exts[0].Encode(if |exts| == 1 then last else exts[1].Kind()) + EncodeExts(exts[1..], last)
  }

  ghost predicate OpensWith(exts: seq<Ext>, kind: bv8, last: bv8, octets: seq<bv8>) {
    && ValidExts(exts)
    && kind == (if exts == [] then last else exts[0].Kind())
    && EncodeExts(exts, last) <= octets
  }

  ghost predicate OpensWithSome(kind: bv8, octets: seq<bv8>, count: nat) {
    exists exts: seq<Ext>, last: bv8 :: |exts| == count && OpensWith(exts, kind, last, octets)
  }

  lemma EncodeExtsCons(x: Ext, rest: seq<Ext>, next: bv8, last: bv8)
    requires x.Valid() && ValidExts(rest) && next == if rest == [] then last else rest[0].Kind()
    ensures ValidExts([x] + rest) && EncodeExts([x] + rest, last) == x.Encode(next) + EncodeExts(rest, last)
  {
    hide Ext.Encode, Ext.Valid;
    assert ([x] + rest)[1..] == rest;
  }

  lemma {:induction false} PassedIsWritten(f: Frame, off: nat, kind: bv8, count: nat) returns (exts: seq<Ext>, last: bv8)
    requires off <= |f| && count <= ReadChain(f, off, kind).passed
    ensures |exts| == count && OpensWith(exts, kind, last, f[off..])
    decreases count
  {
    if count == 0 {
      exts, last := [], kind;
    } else {
      hide ReadHeader, Ext.Encode, Ext.Valid, EncodeExts, ExtAt;
      var h := ReadHeader(f, off, kind);
      var x := ExtAt(f, off, kind);
      ExtWritten(f, off, kind);
      var rest;
      rest, last := PassedIsWritten(f, h.end, h.next, count - 1);
      exts := [x] + rest;
      EncodeExtsCons(x, rest, h.next, last);
      Halves(f, off, h.end);
    }
  }

  lemma OpensSplits(f: Frame, off: nat, kind: bv8, exts: seq<Ext>, last: bv8) returns (next: bv8, end: nat)
    requires off <= |f| && exts != [] && OpensWith(exts, kind, last, f[off..])
    ensures IsExt(kind) && ReadHeader(f, off, kind) == Skip(next, end, exts[0].FirstFragment?)
    ensures off < end <= |f| && OpensWith(exts[1..], next, last, f[end..])
  {
    hide ReadHeader, Ext.Encode, Ext.Valid, EncodeExts, Ext.Size, Ext.Kind, IsExt;
    var x, rest := exts[0], exts[1..];
    next, end := if rest == [] then last else rest[0].Kind(), off + x.Size();
    assert exts == [x] + rest;
    EncodeExtsCons(x, rest, next, last);
    Peel(x.Encode(next), EncodeExts(rest, last), f[off..]);
    assert f[off..][x.Size()..] == f[end..];
    HeaderReads(f, off, x, next);
  }

  lemma {:induction false} WrittenIsPassed(f: Frame, off: nat, kind: bv8, exts: seq<Ext>, last: bv8)
    requires off <= |f| && OpensWith(exts, kind, last, f[off..])
    ensures |exts| <= ReadChain(f, off, kind).passed
    decreases |exts|
  {
    if exts == [] {
    } else {
      hide ReadHeader, ReadChain, OpensWith, IsExt;
      var next, end := OpensSplits(f, off, kind, exts, last);
      ChainUnfolds(f, off, kind, next, end, exts[0].FirstFragment?);
      WrittenIsPassed(f, end, next, exts[1..], last);
    }
  }

  /** The chain reader passes at least `count` headers exactly when the octets start with `count` written ones. */
  lemma PassesIff(f: Frame, off: nat, kind: bv8, count: nat)
    requires off <= |f|
    ensures count <= ReadChain(f, off, kind).passed <==> OpensWithSome(kind, f[off..], count)
  {
    hide OpensWith, ReadChain;
    if count <= ReadChain(f, off, kind).passed {
      var exts, last := PassedIsWritten(f, off, kind, count);
    }
    if exts: seq<Ext>, last: bv8 :| |exts| == count && OpensWith(exts, kind, last, f[off..]) {
      WrittenIsPassed(f, off, kind, exts, last);
    }
  }

  // ------------------------------------------------------------ whole frames

  lemma VersionOctet(o: bv8, words: nat)
    requires o >> 4 == 4 && words == (o & 0x0F) as int
    ensures words <= 15 && 0x40 | (words as bv8) == o
  {
    assert o & 0x0F <= 0x0F;
    assert words as bv8 == o & 0x0F;
    assert 0x40 | (o & 0x0F) == o;
  }

  /** An IPv4 packet, cut where the fields are. */
  lemma CutV4(f: Frame, at: nat, size: nat)
    requires 20 <= size && at + size <= |f|
    ensures f[at..] == [f[at]] + f[at + 1..at + 6] + [f[at + 6], f[at + 7], f[at + 8], f[at + 9]] + f[at + 10..at + 12]
                       + f[at + 12..at + 16] + f[at + 16..at + 20] + f[at + 20..at + size] + f[at + size..]
  {
    Halves(f, at, at + 20);
    Halves(f, at + 20, at + size);
    assert f[at..at + 20] == [f[at]] + f[at + 1..at + 6] + [f[at + 6], f[at + 7], f[at + 8], f[at + 9]]
                             + f[at + 10..at + 12] + f[at + 12..at + 16] + f[at + 16..at + 20];
  }

  /** The network packet whose fields are the pieces, over any body that writes the rest. */
  ghost function V4At(f: Frame, at: nat, size: nat, body: V4Body): Network
    requires 20 <= size && at + size <= |f|
  {
    V4(f[at + 1..at + 6], Be16(f[at + 6], f[at + 7]), f[at + 8], f[at + 10..at + 12],
       f[at + 12..at + 16], f[at + 16..at + 20], f[at + 20..at + size], body)
  }

  /** Written out, its first four lines are the octets they were read from. */
  lemma V4Front(f: Frame, at: nat, size: nat, body: V4Body)
    requires 20 <= size && at + size <= |f| && f[at] >> 4 == 4 && size == (f[at] & 0x0F) as int * 4
    requires body.Valid() && (body.Later? <==> Be16(f[at + 6], f[at + 7]) & 0x1FFF != 0)
    ensures var n := V4At(f, at, size, body);
      && n.Valid() && 0x40 | ((5 + |n.options| / 4) as bv8) == f[at]
      && Hi(n.place) == f[at + 6] && Lo(n.place) == f[at + 7]
  {
    hide Be16, Hi, Lo, V4Body.Valid;
    VersionOctet(f[at], (f[at] & 0x0F) as int);
    Be16Splits(f[at + 6], f[at + 7]);
    assert 5 + (size - 20) / 4 == (f[at] & 0x0F) as int;
  }

  lemma V4Rebuilt(f: Frame, at: nat, size: nat, body: V4Body) returns (n: Network)
    requires 20 <= size && at + size <= |f| && f[at] >> 4 == 4 && size == (f[at] & 0x0F) as int * 4
    requires body.Valid() && body.Encode() == f[at + size..] && body.Proto() == f[at + 9]
    requires body.Later? <==> Be16(f[at + 6], f[at + 7]) & 0x1FFF != 0
    ensures n.V4? && n.Valid() && n.Encode() == f[at..]
  {
    hide Be16, Hi, Lo, V4Body.Encode, V4Body.Valid, V4Body.Proto, Network.Valid;
    n := V4At(f, at, size, body);
    V4Front(f, at, size, body);
    CutV4(f, at, size);
  }

  lemma V4Written(f: Frame, at: nat) returns (n: Network)
    requires at <= |f| && DecodeV4(f, at).Understood?
    ensures n.V4? && n.Valid() && n.Encode() == f[at..]
  {
    hide Be16, Transport.Valid, Transport.Proto, Transport.Encode, ReadTransport, LeftAlign, Network.Encode,
         Network.Valid;
    var size := (f[at] & 0x0F) as int * 4;
    var body := Later(f[at + 9], f[at + size..]);
    if Be16(f[at + 6], f[at + 7]) & 0x1FFF == 0 {
      TransportWritten(f, at + size, FieldsV4(f, at));
      var t: Transport :| t.Valid() && t.Proto() == f[at + 9] && t.Encode() == f[at + size..];
      body := First(t);
    }
    n := V4Rebuilt(f, at, size, body);
  }

  lemma CutV6(f: Frame, at: nat)
    requires at + 40 <= |f|
    ensures f[at..] == f[at..at + 4] + f[at + 4..at + 6] + [f[at + 6], f[at + 7]]
                       + f[at + 8..at + 24] + f[at + 24..at + 40] + f[at + 40..]
  {}

  lemma V6Written(f: Frame, at: nat) returns (n: Network)
    requires at <= |f| && DecodeV6(f, at).Understood?
    ensures n.V6? && n.Valid() && n.UnderCap() && n.Encode() == f[at..]
  {
    hide ReadTransport, ReadChain, EncodeChain, ValidExts, Body.Valid, FirstKind, SomeTransport;
    var c := ReadChain(f, at + 40, f[at + 6]);
    if c.end.Upper? {
      TransportWritten(f, c.end.off, ChainPkt(f, at, c).(proto := c.end.proto));
    }
    var exts, body := ChainWritten(f, at + 40, f[at + 6]);
    CutV6(f, at);
    n := V6(f[at..at + 4], f[at + 4..at + 6], f[at + 7], f[at + 8..at + 24], f[at + 24..at + 40], exts, body);
  }

  ghost function ChainPkt(f: Frame, at: nat, c: Chain): Pkt
    requires at + 40 <= |f|
  {
    BLANK.(src := f[at + 8..at + 24], dst := f[at + 24..at + 40], isV6 := true, isFrag := c.fragment)
  }

  /** Some frame a sender writes, with fewer than eight extension headers. */
  ghost predicate SomeFrame(f: Frame) {
    exists w: EthFrame :: w.Valid() && w.net.UnderCap() && w.Encode() == f
  }

  /** A link header that announces neither IPv4, nor IPv6, nor another tag. */
  ghost predicate OtherProtocol(f: Frame) {
    exists link: Link, t: bv16, rest: seq<bv8> ::
      link.Valid() && f == link.Encode(t) + rest && !IsVlan(t) && t != ETH_P_IP && t != ETH_P_IPV6
  }

  /** A tagged link header that announces another tag. */
  ghost predicate SecondTag(f: Frame) {
    exists link: Link, t: bv16, rest: seq<bv8> ::
      link.Valid() && f == link.Encode(t) + rest && link.tag.Some? && IsVlan(t)
  }

  /** A link header, an IPv6 header, and at least eight whole extension headers. */
  ghost predicate EightHeaders(f: Frame) {
    exists link: Link, fixed: seq<bv8>, rest: seq<bv8> ::
      link.Valid() && |fixed| == 40 && f == link.Encode(ETH_P_IPV6) + (fixed + rest)
      && OpensWithSome(fixed[6], rest, MAX_EXT_HDRS)
  }

  /** A frame with a whole link header, taken apart. */
  lemma LinkWritten(f: Frame) returns (link: Link, t: bv16, rest: seq<bv8>)
    requires |f| >= 14 && (IsVlan(Be16(f[12], f[13])) ==> |f| >= 18)
    ensures link.Valid() && f == link.Encode(t) + rest && (link.tag.None? ==> !IsVlan(t))
  {
    hide Be16, Hi, Lo;
    var outer := Be16(f[12], f[13]);
    Be16Splits(f[12], f[13]);
    if IsVlan(outer) {
      Be16Splits(f[16], f[17]);
      link, t, rest := Link(f[..12], Some(Tag(outer, f[14..16]))), Be16(f[16], f[17]), f[18..];
      assert f == f[..12] + [f[12], f[13]] + f[14..16] + [f[16], f[17]] + f[18..];
    } else {
      link, t, rest := Link(f[..12], None), outer, f[14..];
      assert f == f[..12] + [f[12], f[13]] + f[14..];
    }
  }

  lemma AcceptedIsWritten(f: Frame)
    requires DecodeFrame(f).Understood?
    ensures SomeFrame(f)
  {
    hide DecodeV4, DecodeV6, Network.Encode, Network.Valid, Link.Encode, Link.Valid, IsVlan;
    var link, t, rest := LinkWritten(f);
    LinkDecodes(f, link, t, rest);
    var at := |link.Encode(t)|;
    var n: Network;
    if t == ETH_P_IP { n := V4Written(f, at); } else { n := V6Written(f, at); }
    var w := EthFrame(link, n);
    assert w.Valid() && w.net.UnderCap() && w.Encode() == f;
  }

  lemma CapIsEight(f: Frame, at: nat)
    requires at <= |f|
    ensures DecodeV6(f, at).ExtHdrCap? <==> at + 40 <= |f| && OpensWithSome(f[at + 6], f[at + 40..], MAX_EXT_HDRS)
  {
    hide ReadTransport, ReadChain, OpensWithSome;
    if at + 40 <= |f| {
      PassesIff(f, at + 40, f[at + 6], MAX_EXT_HDRS);
    }
  }

  lemma CappedIsEight(f: Frame)
    requires DecodeFrame(f).ExtHdrCap?
    ensures EightHeaders(f)
  {
    hide DecodeV4, DecodeV6, OpensWithSome, Link.Encode, Link.Valid, IsVlan;
    var link, t, rest := LinkWritten(f);
    LinkDecodes(f, link, t, rest);
    var at := |link.Encode(t)|;
    NeverCapped(f, at);
    CapIsEight(f, at);
    assert f[at..] == rest && f[at + 40..] == rest[40..] && rest[..40][6] == f[at + 6];
    assert rest == rest[..40] + rest[40..];
  }

  lemma NeverCapped(f: Frame, at: nat)
    requires at <= |f|
    ensures !DecodeV4(f, at).ExtHdrCap? && !DecodeV4(f, at).NotIp? && !DecodeV4(f, at).VlanDepth?
    ensures !DecodeV6(f, at).NotIp? && !DecodeV6(f, at).VlanDepth?
  {
    hide ReadTransport, ReadChain;
  }

  /**
   * Every outcome has its exact cause: a frame is understood when it is some
   * written frame under the cap, capped when eight whole extension headers
   * open its IPv6 payload, not IP when the link header announces something
   * else, too deep when it announces a second tag, and malformed when it is
   * none of these.
   */
  lemma OutcomesAreExact(f: Frame)
    ensures DecodeFrame(f).Understood? <==> SomeFrame(f)
    ensures DecodeFrame(f).ExtHdrCap? <==> EightHeaders(f)
    ensures DecodeFrame(f).NotIp? <==> OtherProtocol(f)
    ensures DecodeFrame(f).VlanDepth? <==> SecondTag(f)
    ensures DecodeFrame(f).Malformed? <==>
            !SomeFrame(f) && !EightHeaders(f) && !OtherProtocol(f) && !SecondTag(f)
  {
    hide DecodeFrame, SomeFrame, EightHeaders, OtherProtocol, SecondTag;
    if DecodeFrame(f).Understood? { AcceptedIsWritten(f); }
    if DecodeFrame(f).ExtHdrCap? { CappedIsEight(f); }
    if DecodeFrame(f).NotIp? || DecodeFrame(f).VlanDepth? { PassedOverIsWritten(f); }
    if SomeFrame(f) { WrittenIsAccepted(f); }
    if EightHeaders(f) { EightIsCapped(f); }
    if OtherProtocol(f) { OtherIsNotIp(f); }
    if SecondTag(f) { TagIsTooDeep(f); }
  }

  lemma WrittenIsAccepted(f: Frame)
    requires SomeFrame(f)
    ensures DecodeFrame(f).Understood?
  {
    hide DecodeFrame, EthFrame.Encode, EthFrame.Valid;
    var w: EthFrame :| w.Valid() && w.net.UnderCap() && w.Encode() == f;
    DecodeUndoesEncode(w);
  }

  lemma EightIsCapped(f: Frame)
    requires EightHeaders(f)
    ensures DecodeFrame(f).ExtHdrCap?
  {
    hide OpensWithSome, Link.Encode, Link.Valid, DecodeV4, DecodeV6, DecodeFrame;
    var link: Link, fixed: seq<bv8>, rest: seq<bv8> :|
      link.Valid() && |fixed| == 40 && f == link.Encode(ETH_P_IPV6) + (fixed + rest)
      && OpensWithSome(fixed[6], rest, MAX_EXT_HDRS);
    var at := |link.Encode(ETH_P_IPV6)|;
    LinkDecodes(f, link, ETH_P_IPV6, fixed + rest);
    assert f[at + 40..] == f[at..][40..] == rest;
    assert f[at + 6] == f[at..][6] == fixed[6];
    CapIsEight(f, at);
  }

  lemma OtherIsNotIp(f: Frame)
    requires OtherProtocol(f)
    ensures DecodeFrame(f).NotIp?
  {
    hide Link.Encode, Link.Valid, DecodeV4, DecodeV6, DecodeFrame;
    var link: Link, t: bv16, rest: seq<bv8> :|
      link.Valid() && f == link.Encode(t) + rest && !IsVlan(t) && t != ETH_P_IP && t != ETH_P_IPV6;
    LinkDecodes(f, link, t, rest);
  }

  lemma TagIsTooDeep(f: Frame)
    requires SecondTag(f)
    ensures DecodeFrame(f).VlanDepth?
  {
    hide Link.Encode, Link.Valid, DecodeV4, DecodeV6, DecodeFrame;
    var link: Link, t: bv16, rest: seq<bv8> :|
      link.Valid() && f == link.Encode(t) + rest && link.tag.Some? && IsVlan(t);
    LinkDecodes(f, link, t, rest);
  }

  lemma PassedOverIsWritten(f: Frame)
    requires DecodeFrame(f).NotIp? || DecodeFrame(f).VlanDepth?
    ensures DecodeFrame(f).NotIp? ==> OtherProtocol(f)
    ensures DecodeFrame(f).VlanDepth? ==> SecondTag(f)
  {
    hide DecodeV4, DecodeV6, Link.Encode, Link.Valid;
    var link, t, rest := LinkWritten(f);
    LinkDecodes(f, link, t, rest);
    NeverCapped(f, |link.Encode(t)|);
  }
}
