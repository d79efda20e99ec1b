/**
 * Frames as a sender writes them, and the proof that decoding undoes writing:
 * Ethernet with at most one VLAN tag, IPv4 with any options or IPv6 with any
 * chain of extension headers, then TCP, UDP, something else, or the rest of a
 * fragment.
 */
module Layout {
  import opened Basics
  import opened Wire
  import opened Packet
  import opened Decode

  /** A stub is a TCP header whose data offset points into the header or past the end of the frame. */
  datatype Transport =
    | Tcp(sport: bv16, dport: bv16, numbers: seq<bv8>, res: bv8, flags: bv8, tail: seq<bv8>,
          options: seq<bv8>, payload: seq<bv8>)
    | Stub(sport: bv16, dport: bv16, numbers: seq<bv8>, place: bv8, flags: bv8, tail: seq<bv8>, rest: seq<bv8>)
    | Udp(sport: bv16, dport: bv16, tail: seq<bv8>, payload: seq<bv8>)
    | Other(proto: bv8, octets: seq<bv8>)
  {
    predicate Valid() {
      match this
      case Tcp(_, _, numbers, res, _, tail, options, _) =>
        |numbers| == 8 && res <= 0x0F && |tail| == 6 && |options| <= 40 && |options| % 4 == 0
      case Stub(_, _, numbers, place, _, tail, rest) =>
        |numbers| == 8 && |tail| == 6 && !(20 <= (place >> 4) as int * 4 <= 20 + |rest|)
      case Udp(_, _, tail, _) => |tail| == 4
      case Other(proto, _) => proto != PROTO_TCP && proto != PROTO_UDP
    }

    function Proto(): bv8 {
      match this
      case Tcp(_, _, _, _, _, _, _, _) => PROTO_TCP
      case Stub(_, _, _, _, _, _, _) => PROTO_TCP
      case Udp(_, _, _, _) => PROTO_UDP
      case Other(proto, _) => proto
    }

    function Words(): nat
      requires Valid() && Tcp?
    {
      5 + |options| / 4
    }

    function Encode(): seq<bv8>
      requires Valid()
    {
      match this
      case Tcp(sport, dport, numbers, res, flags, tail, options, payload) =>
        [Hi(sport), Lo(sport), Hi(dport), Lo(dport)] + numbers
        + [(Words() as bv8 << 4) | res, flags] + tail + options + payload
      case Stub(sport, dport, numbers, place, flags, tail, rest) =>
        [Hi(sport), Lo(sport), Hi(dport), Lo(dport)] + numbers + [place, flags] + tail + rest
      case Udp(sport, dport, tail, payload) =>
        [Hi(sport), Lo(sport), Hi(dport), Lo(dport)] + tail + payload
      case Other(_, octets) => octets
    }

    /** What a reader should learn from this transport header when it starts at `at`. */
    function Fill(pkt: Pkt, at: nat): Pkt
      requires Valid()
    {
      match this
      case Tcp(sport, dport, _, _, flags, _, _, payload) =>
        var p := pkt.(proto := PROTO_TCP, sport := sport, dport := dport, tcpFlags := flags, havePorts := true);
        if OpensClientHello(payload) then p.(isTls := true, fpOff := at + 4 * Words()) else p
      case Stub(sport, dport, _, _, flags, _, _) =>
        pkt.(proto := PROTO_TCP, sport := sport, dport := dport, tcpFlags := flags, havePorts := true)
      case Udp(sport, dport, _, payload) =>
        var p := pkt.(proto := PROTO_UDP, sport := sport, dport := dport, havePorts := true);
        if OpensQuicInitial(payload) then p.(isQuic := true, fpOff := at + 8) else p
      case Other(proto, _) => pkt.(proto := proto)
    }
  }

  lemma WordsNibble(n: nat, res: bv8)
    requires 5 <= n <= 15 && res <= 0x0F
    ensures (((n as bv8 << 4) | res) >> 4) as int == n
  {
    var b := n as bv8;
    assert b as int == n;
    assert b <= 15;
    assert ((b << 4) | res) >> 4 == b;
  }

  lemma TcpFields(f: Frame, at: nat, t: Transport)
    requires at <= |f| && t.Valid() && t.Tcp? && f[at..] == t.Encode()
    ensures at + 4 * t.Words() <= |f|
    ensures f[at] == Hi(t.sport) && f[at + 1] == Lo(t.sport) && f[at + 2] == Hi(t.dport) && f[at + 3] == Lo(t.dport)
    ensures f[at + 12] == (t.Words() as bv8 << 4) | t.res && f[at + 13] == t.flags
    ensures f[at + 4 * t.Words()..] == t.payload
  {
    var e := t.Encode();
    assert f[at] == e[0] && f[at + 1] == e[1] && f[at + 2] == e[2] && f[at + 3] == e[3];
    assert f[at + 12] == e[12] && f[at + 13] == e[13];
    assert f[at + 4 * t.Words()..] == f[at..][4 * t.Words()..] == t.payload;
  }

  lemma TcpReads(f: Frame, at: nat, t: Transport, pkt: Pkt)
    requires at <= |f| && t.Valid() && t.Tcp? && f[at..] == t.Encode() && pkt.proto == PROTO_TCP
    ensures ReadTcp(f, at, pkt) == Some(t.Fill(pkt, at))
  {
    TcpFields(f, at, t);
    Be16RoundTrip(t.sport);
    Be16RoundTrip(t.dport);
    WordsNibble(t.Words(), t.res);
    var body := at + (f[at + 12] >> 4) as int * 4;
    assert body == at + 4 * t.Words();
    assert f[body..] == t.payload;
  }

  lemma StubReads(f: Frame, at: nat, t: Transport, pkt: Pkt)
    requires at <= |f| && t.Valid() && t.Stub? && f[at..] == t.Encode() && pkt.proto == PROTO_TCP
    ensures ReadTcp(f, at, pkt) == Some(t.Fill(pkt, at))
  {
    var e := t.Encode();
    Be16RoundTrip(t.sport);
    Be16RoundTrip(t.dport);
    assert f[at] == e[0] && f[at + 1] == e[1] && f[at + 2] == e[2] && f[at + 3] == e[3];
    assert f[at + 12] == e[12] && f[at + 13] == e[13];
  }

  lemma UdpReads(f: Frame, at: nat, t: Transport, pkt: Pkt)
    requires at <= |f| && t.Valid() && t.Udp? && f[at..] == t.Encode() && pkt.proto == PROTO_UDP
    ensures ReadUdp(f, at, pkt) == Some(t.Fill(pkt, at))
  {
    var e := t.Encode();
    Be16RoundTrip(t.sport);
    Be16RoundTrip(t.dport);
    assert f[at] == e[0] && f[at + 1] == e[1] && f[at + 2] == e[2] && f[at + 3] == e[3];
    assert f[at + 8..] == f[at..][8..] == t.payload;
  }

  lemma TransportReads(f: Frame, at: nat, t: Transport, pkt: Pkt)
    requires at <= |f| && t.Valid() && f[at..] == t.Encode() && pkt.proto == t.Proto()
    ensures ReadTransport(f, at, pkt) == Some(t.Fill(pkt, at))
  {
    match t
    case Tcp(_, _, _, _, _, _, _, _) => TcpReads(f, at, t, pkt);
    case Stub(_, _, _, _, _, _, _) => StubReads(f, at, t, pkt);
    case Udp(_, _, _, _) => UdpReads(f, at, t, pkt);
    case Other(_, _) =>
  }

  // ------------------------------------------------------- IPv6 chains

  datatype Ext =
    | Options(kind: bv8, hdrlen: bv8, body: seq<bv8>)
    | FirstFragment(reserved: bv8, more: bv16, id: seq<bv8>)
    | Auth(hdrlen: bv8, body: seq<bv8>)
  {
    predicate Valid() {
      match this
      case Options(kind, hdrlen, body) =>
        && (kind == PROTO_HOPOPTS || kind == PROTO_ROUTING || kind == PROTO_DSTOPTS || kind == PROTO_MH)
        && |body| == hdrlen as int * 8 + 6
      case FirstFragment(_, more, id) => more & 0xFFF8 == 0 && |id| == 4
      case Auth(hdrlen, body) => 1 <= hdrlen as int <= 64 && |body| == hdrlen as int * 4 + 6
    }

    function Kind(): bv8 {
      match this
      case Options(kind, _, _) => kind
      case FirstFragment(_, _, _) => PROTO_FRAGMENT
      case Auth(_, _) => PROTO_AH
    }

    function Size(): nat {
      if FirstFragment? then 8 else 2 + |body|
    }

    function Encode(next: bv8): (e: seq<bv8>)
      requires Valid()
      ensures |e| == Size()
    {
      match this
      case Options(_, hdrlen, body) => [next, hdrlen] + body
      case FirstFragment(reserved, more, id) => [next, reserved, Hi(more), Lo(more)] + id
      case Auth(hdrlen, body) => [next, hdrlen] + body
    }
  }

  /** What follows the headers that are passed over. */
  datatype Body =
    | Whole(t: Transport)
    | Remainder(proto: bv8, reserved: bv8, place: bv16, id: seq<bv8>, octets: seq<bv8>)
  {
    predicate Valid() {
      match this
      case Whole(t) => t.Valid() && !IsExt(t.Proto())
      case Remainder(_, _, place, id, _) => place & 0xFFF8 != 0 && |id| == 4
    }

    function Kind(): bv8 {
      match this
      case Whole(t) => t.Proto()
      case Remainder(_, _, _, _, _) => PROTO_FRAGMENT
    }

    function Encode(): seq<bv8>
      requires Valid()
    {
      match this
      case Whole(t) => t.Encode()
      case Remainder(proto, reserved, place, id, octets) =>
        [proto, reserved, Hi(place), Lo(place)] + id + octets
    }
  }

  ghost predicate ValidExts(exts: seq<Ext>) {
    forall i | 0 <= i < |exts| :: exts[i].Valid()
  }

  function FirstKind(exts: seq<Ext>, body: Body): bv8 {
    if exts == [] then body.Kind() else exts[0].Kind()
  }

  ghost function EncodeChain(exts: seq<Ext>, body: Body): seq<bv8>
    requires ValidExts(exts) && body.Valid()
  {
    if exts == [] then body.Encode()
    else exts[0].Encode(FirstKind(exts[1..], body)) + EncodeChain(exts[1..], body)
  }

  function HasFragment(exts: seq<Ext>): bool {
    exts != [] && (exts[0].FirstFragment? || HasFragment(exts[1..]))
  }

  function ExtsLength(exts: seq<Ext>): nat {
    if exts == [] then 0 else exts[0].Size() + ExtsLength(exts[1..])
  }

  lemma OctetAt(f: Frame, at: nat, e: seq<bv8>, k: nat)
    requires at <= |f| && e <= f[at..] && k < |e|
    ensures at + k < |f| && f[at + k] == e[k]
  {
    assert e[k] == f[at..][k];
  }

  lemma FragmentReads(f: Frame, at: nat, x: Ext, next: bv8)
    requires at <= |f| && x.Valid() && x.FirstFragment? && x.Encode(next) <= f[at..]
    ensures ReadHeader(f, at, PROTO_FRAGMENT) == Skip(next, at + 8, true)
  {
    hide Be16, Hi, Lo;
    var e := x.Encode(next);
    assert |e| == 8 <= |f| - at;
    Be16RoundTrip(x.more);
    OctetAt(f, at, e, 0);
    OctetAt(f, at, e, 2);
    OctetAt(f, at, e, 3);
  }

  lemma HeaderReads(f: Frame, at: nat, x: Ext, next: bv8)
    requires at <= |f| && x.Valid() && x.Encode(next) <= f[at..]
    ensures IsExt(x.Kind())
    ensures ReadHeader(f, at, x.Kind()) == Skip(next, at + x.Size(), x.FirstFragment?)
  {
    hide Be16, Hi, Lo;
    var e := x.Encode(next);
    assert |e| <= |f| - at;
    OctetAt(f, at, e, 0);
    OctetAt(f, at, e, 1);
    if x.FirstFragment? {
      FragmentReads(f, at, x, next);
    }
  }

  lemma BodyReads(f: Frame, at: nat, body: Body)
    requires at <= |f| && body.Valid() && f[at..] == body.Encode()
    ensures ReadChain(f, at, body.Kind()) ==
            if body.Whole? then Chain(0, false, Upper(body.t.Proto(), at))
            else Chain(0, true, LaterFragment(body.proto))
  {
    if body.Remainder? {
      var e := body.Encode();
      Be16RoundTrip(body.place);
      assert f[at] == e[0] && f[at + 2] == f[at..][2] == e[2] && f[at + 3] == f[at..][3] == e[3];
    }
  }

  lemma ChainUnfolds(f: Frame, at: nat, kind: bv8, next: bv8, end: nat, fragment: bool)
    requires at <= |f| && IsExt(kind) && ReadHeader(f, at, kind) == Skip(next, end, fragment)
    ensures end <= |f|
    ensures ReadChain(f, at, kind) ==
            var rest := ReadChain(f, end, next);
            Chain(rest.passed + 1, fragment || rest.fragment, rest.end)
  {}

  /** The front of an octet string, and what is left behind it. */
  lemma Peel(e: seq<bv8>, rest: seq<bv8>, s: seq<bv8>)
    requires e + rest <= s
    ensures e <= s && rest <= s[|e|..] && (e + rest == s ==> rest == s[|e|..])
  {
    assert e == (e + rest)[..|e|];
    assert rest == (e + rest)[|e|..];
  }

  lemma ChainSplits(f: Frame, at: nat, exts: seq<Ext>, body: Body)
    requires at <= |f| && ValidExts(exts) && body.Valid() && f[at..] == EncodeChain(exts, body) && exts != []
    ensures IsExt(exts[0].Kind()) && at + exts[0].Size() <= |f|
    ensures ReadHeader(f, at, exts[0].Kind()) ==
            Skip(FirstKind(exts[1..], body), at + exts[0].Size(), exts[0].FirstFragment?)
    ensures f[at + exts[0].Size()..] == EncodeChain(exts[1..], body)
  {
    var e, rest := exts[0].Encode(FirstKind(exts[1..], body)), EncodeChain(exts[1..], body);
    assert f[at..] == e + rest;
    hide EncodeChain, FirstKind, Ext.Encode, Ext.Valid, Ext.Size, Ext.Kind, ReadHeader, Body.Valid, Body.Encode;
    Peel(e, rest, f[at..]);
    assert f[at + |e|..] == f[at..][|e|..];
    HeaderReads(f, at, exts[0], FirstKind(exts[1..], body));
  }

  /** Reading a written chain passes every header and stops where the body starts. */
  lemma {:induction false} ChainReads(f: Frame, at: nat, exts: seq<Ext>, body: Body)
    requires at <= |f| && ValidExts(exts) && body.Valid() && f[at..] == EncodeChain(exts, body)
    ensures ReadChain(f, at, FirstKind(exts, body)) ==
            Chain(|exts|, HasFragment(exts) || body.Remainder?,
                  if body.Whole? then Upper(body.t.Proto(), at + ExtsLength(exts))
                  else LaterFragment(body.proto))
    ensures at + ExtsLength(exts) <= |f| && f[at + ExtsLength(exts)..] == body.Encode()
    decreases |exts|
  {
    hide ReadHeader, Ext.Encode, Body.Encode, Transport.Encode, Transport.Valid, Ext.Valid;
    if exts == [] {
      BodyReads(f, at, body);
    } else {
      var at' := at + exts[0].Size();
      ChainSplits(f, at, exts, body);
      ChainUnfolds(f, at, exts[0].Kind(), FirstKind(exts[1..], body), at', exts[0].FirstFragment?);
      ChainReads(f, at', exts[1..], body);
    }
  }

  // ------------------------------------------------------------ whole frames

  datatype Network =
    | V4(start: seq<bv8>, place: bv16, ttl: bv8, check: seq<bv8>, src: seq<bv8>, dst: seq<bv8>,
         options: seq<bv8>, body: V4Body)
    | V6(start: seq<bv8>, length: seq<bv8>, hops: bv8, src6: Addr, dst6: Addr, exts: seq<Ext>, body6: Body)
  {
    ghost predicate Valid() {
      match this
      case V4(start, place, _, check, src, dst, options, body) =>
        && |start| == 5 && |check| == 2 && |src| == 4 && |dst| == 4
        && |options| <= 40 && |options| % 4 == 0
        && body.Valid() && (body.Later? <==> place & 0x1FFF != 0)
      case V6(start, length, _, _, _, exts, body) =>
        |start| == 4 && |length| == 2 && ValidExts(exts) && body.Valid()
    }

    /** Fewer than eight extension headers; the eighth already trips the cap. */
    predicate UnderCap() {
      V6? ==> |exts| < MAX_EXT_HDRS
    }

    function EtherType(): bv16 {
      if V4? then ETH_P_IP else ETH_P_IPV6
    }

    ghost function Encode(): seq<bv8>
      requires Valid()
    {
      match this
      case V4(start, place, ttl, check, src, dst, options, body) =>
        [0x40 | ((5 + |options| / 4) as bv8)] + start + [Hi(place), Lo(place), ttl, body.Proto()] + check
        + src + dst + options + body.Encode()
      case V6(start, length, hops, src, dst, exts, body) =>
        start + length + [FirstKind(exts, body), hops] + src + dst + EncodeChain(exts, body)
    }

    /** The part of the meaning the network header alone carries. */
    ghost function Bare(): Pkt
      requires Valid()
    {
      match this
      case V4(_, place, _, _, src, dst, _, body) =>
        BLANK.(src := LeftAlign(src), dst := LeftAlign(dst), proto := body.Proto(), isFrag := place & 0x3FFF != 0)
      case V6(_, _, _, src, dst, exts, body) =>
        BLANK.(src := src, dst := dst, isV6 := true, isFrag := HasFragment(exts) || body.Remainder?,
               proto := if body.Remainder? then body.proto else body.t.Proto())
    }

    /** What the packet says, when its first octet is at `off`. */
    ghost function Meaning(off: nat): Pkt
      requires Valid()
    {
      match this
      case V4(_, _, _, _, _, _, options, body) =>
        if body.Later? then Bare() else body.t.Fill(Bare(), off + 20 + |options|)
      case V6(_, _, _, _, _, exts, body) =>
        if body.Remainder? then Bare() else body.t.Fill(Bare(), off + 40 + ExtsLength(exts))
    }
  }

  datatype V4Body =
    | First(t: Transport)
    | Later(proto: bv8, octets: seq<bv8>)
  {
    predicate Valid() { First? ==> t.Valid() }
    function Proto(): bv8 { if First? then t.Proto() else proto }
    function Encode(): seq<bv8> requires Valid() { if First? then t.Encode() else octets }
  }

  lemma SizeNibble(n: nat)
    requires 5 <= n <= 15
    ensures (0x40 | n as bv8) >> 4 == 4 && ((0x40 | n as bv8) & 0x0F) as int == n
  {
    var b := n as bv8;
    assert b as int == n;
    assert b <= 15;
    assert (0x40 | b) >> 4 == 4 && (0x40 | b) & 0x0F == b;
  }

  /** The octets of an IPv4 packet at `at`, field by field. */
  ghost predicate HoldsV4(f: Frame, at: nat, n: Network)
    requires n.V4? && n.Valid()
  {
    var size := 20 + |n.options|;
    && at + size <= |f|
    && f[at] >> 4 == 4 && (f[at] & 0x0F) as int * 4 == size
    && Be16(f[at + 6], f[at + 7]) == n.place
    && f[at + 9] == n.body.Proto()
    && f[at + 12..at + 16] == n.src && f[at + 16..at + 20] == n.dst
    && f[at + size..] == n.body.Encode()
  }

  lemma V4Fields(f: Frame, at: nat, n: Network)
    requires at <= |f| && n.V4? && n.Valid() && f[at..] == n.Encode()
    ensures HoldsV4(f, at, n)
  {
    hide Be16, Hi, Lo, V4Body.Encode, V4Body.Proto, Transport.Valid;
    var e := n.Encode();
    Be16RoundTrip(n.place);
    SizeNibble(5 + |n.options| / 4);
    assert f[at] == e[0] == 0x40 | ((5 + |n.options| / 4) as bv8);
    assert f[at + 6] == f[at..][6] == e[6] && f[at + 7] == f[at..][7] == e[7];
    assert f[at + 9] == f[at..][9] == e[9];
    assert f[at + 12..at + 16] == f[at..][12..16] == n.src;
    assert f[at + 16..at + 20] == f[at..][16..20] == n.dst;
    assert f[at + 20 + |n.options|..] == f[at..][20 + |n.options|..] == n.body.Encode();
  }

  lemma V4Decodes(f: Frame, at: nat, n: Network)
    requires at <= |f| && n.V4? && n.Valid() && HoldsV4(f, at, n)
    ensures DecodeV4(f, at) == Understood(n.Meaning(at))
  {
    hide ReadTransport, Transport.Fill, Transport.Encode, LeftAlign, Be16, Network.Encode;
    assert FieldsV4(f, at) == n.Bare();
    if n.body.First? {
      TransportReads(f, at + 20 + |n.options|, n.body.t, n.Bare());
    }
  }

  /** The same for IPv6. */
  ghost predicate HoldsV6(f: Frame, at: nat, n: Network)
    requires n.V6? && n.Valid()
  {
    && at + 40 <= |f|
    && f[at + 6] == FirstKind(n.exts, n.body6)
    && f[at + 8..at + 24] == n.src6 && f[at + 24..at + 40] == n.dst6
    && f[at + 40..] == EncodeChain(n.exts, n.body6)
  }

  lemma V6Fields(f: Frame, at: nat, n: Network)
    requires at <= |f| && n.V6? && n.Valid() && f[at..] == n.Encode()
    ensures HoldsV6(f, at, n)
  {
    hide EncodeChain, FirstKind, Body.Valid, ValidExts;
    var e := n.Encode();
    var kind, chain := FirstKind(n.exts, n.body6), EncodeChain(n.exts, n.body6);
    var front := n.start + n.length + [kind, n.hops];
    assert |front| == 8 && e == front + n.src6 + n.dst6 + chain;
    assert f[at + 6] == f[at..][6] == front[6] == kind;
    assert f[at + 8..at + 24] == f[at..][8..24] == n.src6;
    assert f[at + 24..at + 40] == f[at..][24..40] == n.dst6;
    assert f[at + 40..] == f[at..][40..] == chain;
  }

  lemma V6Decodes(f: Frame, at: nat, n: Network)
    requires at <= |f| && n.V6? && n.Valid() && HoldsV6(f, at, n)
    ensures DecodeV6(f, at) == if n.UnderCap() then Understood(n.Meaning(at)) else ExtHdrCap
  {
    hide ReadTransport, Transport.Fill, Transport.Encode, EncodeChain, Network.Encode, ReadChain;
    ChainReads(f, at + 40, n.exts, n.body6);
    if n.body6.Whole? {
      TransportReads(f, at + 40 + ExtsLength(n.exts), n.body6.t, n.Bare());
    }
  }

  datatype Tag = Tag(tpid: bv16, tci: seq<bv8>)

  /** The addresses and at most one VLAN tag in front of a network packet. */
  datatype Link = Link(macs: seq<bv8>, tag: Option<Tag>)
  {
    predicate Valid() {
      && |macs| == 12
      && (tag.Some? ==> (tag.value.tpid == 0x8100 || tag.value.tpid == 0x88A8) && |tag.value.tci| == 2)
    }

    function Encode(etherType: bv16): seq<bv8> {
      if tag.None? then macs + [Hi(etherType), Lo(etherType)]
      else macs + [Hi(tag.value.tpid), Lo(tag.value.tpid)] + tag.value.tci + [Hi(etherType), Lo(etherType)]
    }
  }

  datatype EthFrame = EthFrame(link: Link, net: Network)
  {
    ghost predicate Valid() {
      link.Valid() && net.Valid()
    }

    function Header(): seq<bv8> {
      link.Encode(net.EtherType())
    }

    ghost function Encode(): Frame
      requires Valid()
    {
      Header() + net.Encode()
    }
  }

  lemma LinkDecodes(f: Frame, link: Link, etherType: bv16, rest: seq<bv8>)
    requires link.Valid() && f == link.Encode(etherType) + rest && (link.tag.None? ==> !IsVlan(etherType))
    ensures DecodeFrame(f) == DecodeNetwork(f, |link.Encode(etherType)|, etherType)
    ensures f[|link.Encode(etherType)|..] == rest
  {
    hide DecodeNetwork, Be16, Hi, Lo;
    var h := link.Encode(etherType);
    Be16RoundTrip(etherType);
    assert f[12] == h[12] && f[13] == h[13];
    if link.tag.Some? {
      Be16RoundTrip(link.tag.value.tpid);
      assert f[16] == h[16] && f[17] == h[17];
    }
  }

  /** Decoding a written frame gives back exactly what was written, or the cap from the eighth header on. */
  lemma DecodeUndoesEncode(w: EthFrame)
    requires w.Valid()
    ensures DecodeFrame(w.Encode()) ==
            if w.net.UnderCap() then Understood(w.net.Meaning(|w.Header()|)) else ExtHdrCap
  {
    var f, at := w.Encode(), |w.Header()|;
    LinkDecodes(f, w.link, w.net.EtherType(), w.net.Encode());
    if w.net.V4? {
      V4Fields(f, at, w.net);
      V4Decodes(f, at, w.net);
    } else {
      V6Fields(f, at, w.net);
      V6Decodes(f, at, w.net);
    }
  }

  /** An authentication header is refused when its length octet is outside 1..64, or when the frame ends inside it. */
  lemma AuthRefused(f: Frame, off: nat)
    requires off + 12 <= |f|
    ensures ReadHeader(f, off, PROTO_AH).Cut? <==>
            var units := f[off + 1] as int; units == 0 || units > 64 || off + 8 + 4 * units > |f|
  {}

  /** The frame's network packet is a fragment whose transport header is not in this frame. */
  ghost predicate HeaderElsewhere(n: Network) {
    if n.V4? then n.body.Later? else n.body6.Remainder?
  }

  ghost predicate CarriesOther(n: Network) {
    if n.V4? then n.body.First? && n.body.t.Other? else n.body6.Whole? && n.body6.t.Other?
  }

  /**
   * A packet reported as a fragment without ports is one with no transport
   * header here, or a first fragment of a protocol that has no ports: the two
   * are counted alike.
   */
  lemma NoPortsFragment(n: Network, off: nat)
    requires n.Valid()
    ensures var p := n.Meaning(off);
            !p.havePorts && p.isFrag <==> HeaderElsewhere(n) || (p.isFrag && CarriesOther(n))
  {
    if n.V4? && n.body.Later? {
      FragmentBits(n.place);
    }
  }

  lemma FragmentBits(place: bv16)
    requires place & 0x1FFF != 0
    ensures place & 0x3FFF != 0
  {}

  // ------------------------------------------------- fields, by their octets

  /** Ports and flags, octet by octet: source port first, flags in the fourteenth octet of TCP. */
  lemma TransportOctets(f: Frame, at: nat, pkt: Pkt)
    requires at <= |f| && (pkt.proto == 6 || pkt.proto == 17) && ReadTransport(f, at, pkt).Some?
    ensures var p := ReadTransport(f, at, pkt).value;
      && at + 8 <= |f| && p.havePorts
      && p.sport == (f[at] as bv16) * 256 + (f[at + 1] as bv16)
      && p.dport == (f[at + 2] as bv16) * 256 + (f[at + 3] as bv16)
      && (pkt.proto == 6 ==> at + 20 <= |f| && p.tcpFlags == f[at + 13])
      && p.src == pkt.src && p.dst == pkt.dst && p.proto == pkt.proto && p.isFrag == pkt.isFrag
  {
    hide Be16, OpensClientHello, OpensQuicInitial;
    Be16Weighs(f[at], f[at + 1]);
    Be16Weighs(f[at + 2], f[at + 3]);
  }

  lemma TransportKeepsAddresses(f: Frame, at: nat, pkt: Pkt)
    requires at <= |f| && ReadTransport(f, at, pkt).Some?
    ensures var p := ReadTransport(f, at, pkt).value; p.src == pkt.src && p.dst == pkt.dst && p.isV6 == pkt.isV6
  {
    hide Be16, OpensClientHello, OpensQuicInitial;
  }

  /** IPv4 addresses, octet by octet: the source stands before the destination. */
  lemma AddressOctets4(f: Frame, at: nat)
    requires at <= |f| && DecodeV4(f, at).Understood?
    ensures var p := DecodeV4(f, at).pkt;
      at + 20 <= |f| && !p.isV6 && p.src[..4] == f[at + 12..at + 16] && p.dst[..4] == f[at + 16..at + 20]
  {
    hide ReadTransport, LeftAlign, Be16;
    LeftAligned(f[at + 12..at + 16]);
    LeftAligned(f[at + 16..at + 20]);
    var size := (f[at] & 0x0F) as int * 4;
    if ReadTransport(f, at + size, FieldsV4(f, at)).Some? {
      TransportKeepsAddresses(f, at + size, FieldsV4(f, at));
    }
  }

  /** And IPv6 addresses. */
  lemma AddressOctets6(f: Frame, at: nat)
    requires at <= |f| && DecodeV6(f, at).Understood?
    ensures var p := DecodeV6(f, at).pkt;
      at + 40 <= |f| && p.isV6 && p.src == f[at + 8..at + 24] && p.dst == f[at + 24..at + 40]
  {
    hide ReadTransport, ReadChain;
    var chain := ReadChain(f, at + 40, f[at + 6]);
    if chain.end.Upper? {
      var pkt := BLANK.(src := f[at + 8..at + 24], dst := f[at + 24..at + 40], isV6 := true,
                        isFrag := chain.fragment, proto := chain.end.proto);
      TransportKeepsAddresses(f, chain.end.off, pkt);
    }
  }

  // -------------------------------------------------------- the handshakes

  /** A TLS record of type 22 and major version 3 whose handshake message is of type 1. */
  ghost predicate IsClientHello(p: seq<bv8>, minor: bv8, length: seq<bv8>, rest: seq<bv8>) {
    |length| == 2 && p == [22, 3, minor] + length + [1] + rest
  }

  lemma ClientHelloLayout(p: seq<bv8>)
    ensures OpensClientHello(p) <==>
            exists minor: bv8, length: seq<bv8>, rest: seq<bv8> :: IsClientHello(p, minor, length, rest)
  {
    if OpensClientHello(p) {
      assert IsClientHello(p, p[2], p[3..5], p[6..]);
    }
    if minor: bv8, length: seq<bv8>, rest: seq<bv8> :| IsClientHello(p, minor, length, rest) {
      assert p[0] == 22 && p[1] == 3 && p[5] == 1;
    }
  }

  /** A long header with the fixed bit and packet type 0, then version 1. */
  ghost predicate IsInitial(p: seq<bv8>, first: bv8, rest: seq<bv8>) {
    first / 16 == 12 && p == [first, 0, 0, 0, 1] + rest
  }

  lemma QuicInitialLayout(p: seq<bv8>)
    ensures OpensQuicInitial(p) <==> exists first: bv8, rest: seq<bv8> :: IsInitial(p, first, rest)
  {
    if OpensQuicInitial(p) {
      HighNibble(p[0]);
      assert p[1..5] == [0, 0, 0, 1] && p == [p[0]] + p[1..5] + p[5..];
      assert IsInitial(p, p[0], p[5..]);
    }
    if first: bv8, rest: seq<bv8> :| IsInitial(p, first, rest) {
      HighNibble(first);
      assert p[0] == first && p[1..5] == [0, 0, 0, 1];
    }
  }

  lemma HighNibble(b: bv8)
    ensures b >> 4 == b / 16
  {}
}
