/** Cutting a frame short can only make a rule match less: more octets never undo a parse or a match. */
module Truncation {
  import opened Basics
  import opened Wire
  import opened Packet
  import opened Decode
  import opened Matcher

  /** The same packet, possibly with a handshake bit gained. */
  predicate Gains(p: Pkt, q: Pkt) {
    && q == p.(isTls := q.isTls, isQuic := q.isQuic, fpOff := q.fpOff)
    && (p.isTls ==> q.isTls && q.fpOff == p.fpOff)
    && (p.isQuic ==> q.isQuic && q.fpOff == p.fpOff)
  }

  /** A decoded result that longer frames keep; only a malformed frame may turn into something else. */
  predicate Keeps(a: Parsed, b: Parsed) {
    match a
    case Understood(p) => b.Understood? && Gains(p, b.pkt)
    case Malformed => true
    case _ => b == a
  }

  lemma HelloKept(f: Frame, g: Frame, at: nat)
    requires at <= |f|
    ensures (f + g)[at..] == f[at..] + g
    ensures OpensClientHello(f[at..]) ==> OpensClientHello((f + g)[at..])
    ensures OpensQuicInitial(f[at..]) ==> OpensQuicInitial((f + g)[at..])
  {
    var p := f[at..];
    assert (f + g)[at..] == p + g;
    if |p| >= 5 {
      assert (p + g)[1..5] == p[1..5];
    }
  }

  lemma TransportKept(f: Frame, g: Frame, at: nat, pkt: Pkt)
    requires at <= |f| && !pkt.isTls && !pkt.isQuic
    ensures Keeps(FromTransport(ReadTransport(f, at, pkt)), FromTransport(ReadTransport(f + g, at, pkt)))
  {
    hide OpensClientHello, OpensQuicInitial, Be16;
    if pkt.proto == PROTO_TCP && at + 20 <= |f| {
      var body := at + (f[at + 12] >> 4) as int * 4;
      if body <= |f| { HelloKept(f, g, body); }
    } else if pkt.proto == PROTO_UDP && at + 8 <= |f| {
      HelloKept(f, g, at + 8);
    }
  }

  lemma HeaderKept(f: Frame, g: Frame, off: nat, kind: bv8)
    requires off <= |f| && IsExt(kind) && !ReadHeader(f, off, kind).Cut?
    ensures ReadHeader(f + g, off, kind) == ReadHeader(f, off, kind)
  {
    hide Be16;
  }

  /** A longer frame passes at least the same headers, and ends the chain the same way unless it was cut. */
  lemma {:induction false} ChainKept(f: Frame, g: Frame, off: nat, kind: bv8)
    requires off <= |f|
    ensures var a, b := ReadChain(f, off, kind), ReadChain(f + g, off, kind);
            a.passed <= b.passed && (!a.end.Broken? ==> b == a)
    decreases |f| - off
  {
    hide ReadHeader;
    if !IsExt(kind) || ReadHeader(f, off, kind).Cut? {
    } else {
      HeaderKept(f, g, off, kind);
      if ReadHeader(f, off, kind).Skip? {
        var h := ReadHeader(f, off, kind);
        ChainKept(f, g, h.end, h.next);
      }
    }
  }

  lemma V4Kept(f: Frame, g: Frame, off: nat)
    requires off <= |f|
    ensures Keeps(DecodeV4(f, off), DecodeV4(f + g, off))
  {
    hide ReadTransport, Be16, LeftAlign;
    if !DecodeV4(f, off).Malformed? || (off + 20 <= |f| && off + (f[off] & 0x0F) as int * 4 <= |f|) {
      var h := f + g;
      assert h[off + 12..off + 16] == f[off + 12..off + 16] && h[off + 16..off + 20] == f[off + 16..off + 20];
      assert FieldsV4(h, off) == FieldsV4(f, off);
      TransportKept(f, g, off + (f[off] & 0x0F) as int * 4, FieldsV4(f, off));
    }
  }

  lemma V6Kept(f: Frame, g: Frame, off: nat)
    requires off <= |f|
    ensures Keeps(DecodeV6(f, off), DecodeV6(f + g, off))
  {
    hide ReadTransport, ReadChain;
    if off + 40 <= |f| {
      var h := f + g;
      ChainKept(f, g, off + 40, f[off + 6]);
      assert h[off + 8..off + 24] == f[off + 8..off + 24] && h[off + 24..off + 40] == f[off + 24..off + 40];
      var chain := ReadChain(f, off + 40, f[off + 6]);
      if chain.end.Upper? {
        TransportKept(f, g, chain.end.off,
                      BLANK.(src := f[off + 8..off + 24], dst := f[off + 24..off + 40], isV6 := true,
                             isFrag := chain.fragment, proto := chain.end.proto));
      }
    }
  }

  lemma NetworkKept(f: Frame, g: Frame, off: nat, etherType: bv16)
    requires off <= |f|
    ensures Keeps(DecodeNetwork(f, off, etherType), DecodeNetwork(f + g, off, etherType))
  {
    hide DecodeV4, DecodeV6;
    V4Kept(f, g, off);
    V6Kept(f, g, off);
  }

  /** Appending octets to a frame keeps everything the parser understood about it. */
  lemma LongerFrameKeeps(f: Frame, g: Frame)
    ensures Keeps(DecodeFrame(f), DecodeFrame(f + g))
  {
    hide DecodeNetwork;
    if |f| >= 14 { NetworkKept(f, g, 14, Be16(f[12], f[13])); }
    if |f| >= 18 { NetworkKept(f, g, 18, Be16(f[16], f[17])); }
  }

  /** A rule that matches the shorter frame matches every longer one. */
  lemma TruncationUnderMatches(r: Rule, f: Frame, g: Frame)
    requires DecodeFrame(f).Understood? && RuleMatch(r, DecodeFrame(f).pkt)
    ensures DecodeFrame(f + g).Understood? && RuleMatch(r, DecodeFrame(f + g).pkt)
  {
    hide DecodeFrame, RuleMatch;
    LongerFrameKeeps(f, g);
    var p, q := DecodeFrame(f).pkt, DecodeFrame(f + g).pkt;
    MatchIsDescription(r, p);
    MatchIsDescription(r, q);
  }
}
