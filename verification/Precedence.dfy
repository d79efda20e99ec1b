/**
 * The packet-path precedence as one statement: when the filter drops, over a
 * flat list of candidate rules and the readable form of a match.
 */
module Precedence {
  import opened Basics
  import opened Wire
  import opened Packet
  import opened Decode
  import opened Matcher
  import opened TokenBucket
  import opened Tables
  import opened Decision
  import opened Lookups
  import Layout

  function Tagged(rules: seq<Rule>, level: Level): (s: seq<Hit>)
    ensures |s| == |rules| && forall i | 0 <= i < |s| :: s[i] == Hit(rules[i], level)
  {
    seq(|rules|, i requires 0 <= i < |rules| => Hit(rules[i], level))
  }

  function RulesOf(policy: Policy): seq<Rule> {
    if policy.Rules? then policy.rules else []
  }

  /** Every rule the packet may meet, in precedence order. */
  function Candidates(t: Tables, cfg: Config, p: Pkt): seq<Hit> {
    Tagged(StaticsFrom(t, cfg, 0), Static)
    + Tagged(RulesOf(PolicyOf(t, cfg, p.src, p.isV6)), DynSrc)
    + Tagged(RulesOf(PolicyOf(t, cfg, p.dst, p.isV6)), DynDst)
  }

  /** In force for the packet: it describes it and its deadline has not passed. */
  ghost predicate InForce(h: Hit, p: Pkt) {
    h.Hit? && Describes(h.rule, p) && (h.rule.expiresAt == 0 || p.now < h.rule.expiresAt)
  }

  ghost predicate FirstAt(cs: seq<Hit>, i: nat, p: Pkt) {
    i < |cs| && InForce(cs[i], p) && forall j | 0 <= j < i :: !InForce(cs[j], p)
  }

  /** The hit a ruling reports is the first candidate in force, or none is. */
  ghost predicate Picks(h: Hit, cs: seq<Hit>, p: Pkt) {
    if h.NoHit? then forall j | 0 <= j < |cs| :: !InForce(cs[j], p)
    else exists i: nat :: FirstAt(cs, i, p) && cs[i] == h
  }

  lemma LiveIsInForce(r: Rule, level: Level, p: Pkt)
    ensures Live(r, p) <==> InForce(Hit(r, level), p)
  {
    hide RuleMatch, Describes;
    MatchIsDescription(r, p);
  }

  lemma {:induction false} ScanPicks(rules: seq<Rule>, p: Pkt, level: Level)
    ensures Picks(ScanRules(rules, p, level).hit, Tagged(rules, level), p)
    decreases |rules|
  {
    hide Live, InForce;
    if rules == [] {
    } else {
      var cs, rest := Tagged(rules, level), Tagged(rules[1..], level);
      hide Tagged;
      LiveIsInForce(rules[0], level, p);
      if Live(rules[0], p) {
        assert FirstAt(cs, 0, p);
      } else {
        ScanPicks(rules[1..], p, level);
        assert forall j | 0 <= j < |rest| :: rest[j] == cs[j + 1];
        var h := ScanRules(rules[1..], p, level).hit;
        if h.Hit? {
          var i: nat :| FirstAt(rest, i, p) && rest[i] == h;
          assert forall j | 0 < j < i + 1 :: cs[j] == rest[j - 1];
          assert FirstAt(cs, i + 1, p);
        } else {
          assert forall j | 0 < j < |cs| :: cs[j] == rest[j - 1];
        }
      }
    }
  }

  lemma PolicyPicks(policy: Policy, p: Pkt, level: Level)
    ensures Picks(ScanPolicy(policy, p, level).hit, Tagged(RulesOf(policy), level), p)
  {
    hide InForce;
    if policy.Rules? {
      ScanPicks(policy.rules, p, level);
    }
  }

  lemma ThenPicks(a: Ruling, b: Ruling, ca: seq<Hit>, cb: seq<Hit>, p: Pkt)
    requires Picks(a.hit, ca, p) && Picks(b.hit, cb, p)
    ensures Picks(Then(a, b).hit, ca + cb, p)
  {
    hide InForce;
    var cs := ca + cb;
    if a.hit.Hit? {
      var i: nat :| FirstAt(ca, i, p) && ca[i] == a.hit;
      assert FirstAt(cs, i, p);
    } else {
      assert forall j | 0 <= j < |ca| :: cs[j] == ca[j];
      if b.hit.Hit? {
        var i: nat :| FirstAt(cb, i, p) && cb[i] == b.hit;
        assert forall j | |ca| <= j < |ca| + i :: cs[j] == cb[j - |ca|];
        assert FirstAt(cs, |ca| + i, p);
      } else {
        assert forall j | |ca| <= j < |cs| :: cs[j] == cb[j - |ca|];
      }
    }
  }

  /** Three scans with early exits are one search of the flat list. */
  lemma RulingPicks(t: Tables, cfg: Config, p: Pkt)
    ensures Picks(Rule3to5(t, cfg, p).hit, Candidates(t, cfg, p), p)
  {
    hide Picks, ScanRules, ScanPolicy, StaticsFrom, PolicyOf, RulesOf;
    var statics, src, dst := StaticsFrom(t, cfg, 0), PolicyOf(t, cfg, p.src, p.isV6), PolicyOf(t, cfg, p.dst, p.isV6);
    var r3, r4, r5 := ScanRules(statics, p, Static), ScanPolicy(src, p, DynSrc), ScanPolicy(dst, p, DynDst);
    var c3, c4, c5 := Tagged(statics, Static), Tagged(RulesOf(src), DynSrc), Tagged(RulesOf(dst), DynDst);
    ScanPicks(statics, p, Static);
    PolicyPicks(src, p, DynSrc);
    PolicyPicks(dst, p, DynDst);
    ThenPicks(r4, r5, c4, c5, p);
    ThenPicks(r3, Then(r4, r5), c3, c4 + c5, p);
    assert c3 + (c4 + c5) == Candidates(t, cfg, p);
  }

  /** Only one candidate can be first. */
  lemma FirstIsUnique(cs: seq<Hit>, i: nat, j: nat, p: Pkt)
    requires FirstAt(cs, i, p) && FirstAt(cs, j, p)
    ensures i == j
  {
    hide InForce;
  }

  /** The bucket under a key, or the fresh one a first call makes, cannot pay for the packet. */
  predicate CannotPay(m: map<Key, Bucket>, k: Key, prof: Profile, len: u32, e: Env) {
    if k in m then !Admits(prof, m[k], e.now, len)
    else e.insertOk && !Admits(prof, Fresh(prof, e.now), e.now, len)
  }

  /**
   * What a hit does to the packet: a drop, or a limit of a profile that caps
   * something, whose bucket for this source at this end of the packet exists
   * and cannot pay.
   */
  predicate Denies(t: Tables, d: Data, p: Pkt, h: Hit, len: u32, e: Env) {
    h.Hit? &&
    (|| h.rule.action == ACT_DROP
     || (&& h.rule.action == ACT_RATELIMIT && h.rule.profile < |t.profiles|
         && var prof, end := t.profiles[h.rule.profile], if h.level.DynSrc? then p.src else p.dst;
            && (prof.ratePps != 0 || prof.rateBps != 0)
            && if p.isV6 then CannotPay(d.rl6, Key(end, p.src, h.rule.profile), prof, len, e)
               else CannotPay(d.rl4, Key(end[..4], p.src[..4], h.rule.profile), prof, len, e)))
  }

  lemma ApplyDenies(t: Tables, d: Data, p: Pkt, h: Hit, len: u32, e: Env)
    requires h.Hit?
    ensures Apply(t, d, p, h, len, e).dec == DROP <==> Denies(t, d, p, h, len, e)
  {
    hide Admits, After;
  }

  /** The packet as the rules see it. */
  function Seen(q: Pkt, f: Frame, e: Env): Pkt {
    q.(len := |f|, now := e.now)
  }

  /** A rule, and only a rule, can drop a packet that was understood. */
  ghost predicate RuledOut(t: Tables, cfg: Config, d: Data, f: Frame, p: Pkt, e: Env)
    requires |f| < TWO32
  {
    exists i: nat ::
      FirstAt(Candidates(t, cfg, p), i, p) && Denies(t, d, p, Candidates(t, cfg, p)[i], |f|, e)
  }

  lemma EngageDrops(t: Tables, cfg: Config, d: Data, f: Frame, p: Pkt, e: Env)
    requires |f| < TWO32
    ensures Engage(t, cfg, d, f, p, e).dec == DROP <==> RuledOut(t, cfg, d, f, p, e)
  {
    hide Apply, Rule3to5, Candidates, InForce, Denies, Samples, Sampled, Record;
    var o := Observe(cfg, d, f, p, e);
    var cs, h := Candidates(t, cfg, p), Rule3to5(t, cfg, p).hit;
    RulingPicks(t, cfg, p);
    if h.Hit? {
      var k: nat :| FirstAt(cs, k, p) && cs[k] == h;
      ApplyDenies(t, o.d, p, h, |f|, e);
      SameBuckets(t, d, o.d, p, h, |f|, e);
      forall i: nat | FirstAt(cs, i, p) ensures i == k { FirstIsUnique(cs, i, k, p); }
    } else {
      forall i: nat ensures !FirstAt(cs, i, p) { NoneFirst(cs, i, p); }
    }
  }

  lemma NoneFirst(cs: seq<Hit>, i: nat, p: Pkt)
    requires Picks(NoHit, cs, p)
    ensures !FirstAt(cs, i, p)
  {
    hide InForce;
  }

  lemma SameBuckets(t: Tables, d: Data, d': Data, p: Pkt, h: Hit, len: u32, e: Env)
    requires d'.rl4 == d.rl4 && d'.rl6 == d.rl6
    ensures Denies(t, d', p, h, len, e) == Denies(t, d, p, h, len, e)
  {
    hide Admits;
  }

  /**
   * The filter drops a frame exactly when it is configured, not in dry run, and
   * either the frame is malformed and malformed frames are to be dropped, or the
   * frame was understood, its source is not allowlisted, its destination is not
   * protected, and the first candidate in force denies it.
   */
  lemma DropsExactlyWhen(t: Tables, d: Data, f: Frame, e: Env)
    requires |f| < TWO32
    ensures Step(t, d, f, e).verdict == XDP_DROP <==>
      && t.cfg.Some? && !t.cfg.value.dryRun
      && match DecodeFrame(f)
         case Malformed => t.cfg.value.dropMalformed
         case Understood(q) =>
           var p := Seen(q, f, e);
           !Allowed(t, p) && !Protected(t, p) && RuledOut(t, t.cfg.value, d, f, p, e)
         case _ => false
  {
    hide Engage, Allowed, Protected, DecodeFrame, RuledOut;
    if t.cfg.Some? && DecodeFrame(f).Understood? {
      EngageDrops(t, t.cfg.value, d, f, Seen(DecodeFrame(f).pkt, f, e), e);
    }
  }

  /** A source is allowlisted exactly when some stored prefix of its family covers its address. */
  lemma AllowedIsCovered(t: Tables, p: Pkt)
    ensures Allowed(t, p) <==> Covered(if p.isV6 then t.allow6 else t.allow4, p.src, p.isV6)
  {
    hide AddrBits, Covered;
    FoundIffCovered(if p.isV6 then t.allow6 else t.allow4, p.src, p.isV6);
  }

  /** A destination is protected exactly when some stored prefix of its family covers its address. */
  lemma ProtectedIsCovered(t: Tables, p: Pkt)
    ensures Protected(t, p) <==> Covered(if p.isV6 then t.protect6 else t.protect4, p.dst, p.isV6)
  {
    hide AddrBits, Covered;
    FoundIffCovered(if p.isV6 then t.protect6 else t.protect4, p.dst, p.isV6);
  }

  /** `s` is the run of consecutive slots from `i` on, as far as the limit and the array go. */
  ghost predicate SlotsFrom(s: seq<Rule>, t: Tables, cfg: Config, i: nat) {
    && (i <= StaticLimit(cfg) ==> i + |s| <= StaticLimit(cfg))
    && (forall k | 0 <= k < |s| :: StaticKey(cfg, i + k) < |t.statics| && s[k] == t.statics[StaticKey(cfg, i + k)])
    && (i + |s| < StaticLimit(cfg) ==> StaticKey(cfg, i + |s|) >= |t.statics|)
  }

  lemma SlotsExtend(r: Rule, s: seq<Rule>, t: Tables, cfg: Config, i: nat)
    requires i < StaticLimit(cfg) && StaticKey(cfg, i) < |t.statics| && r == t.statics[StaticKey(cfg, i)]
    requires SlotsFrom(s, t, cfg, i + 1)
    ensures SlotsFrom([r] + s, t, cfg, i)
  {
    hide StaticKey;
    var all := [r] + s;
    forall k | 0 <= k < |all| ensures StaticKey(cfg, i + k) < |t.statics| && all[k] == t.statics[StaticKey(cfg, i + k)] {
      if k > 0 {
        assert all[k] == s[k - 1];
        assert (i + 1) + (k - 1) == i + k;
      }
    }
  }

  /** The statics a packet meets are the consecutive slots of the active half, in order. */
  lemma {:induction false} StaticsAreSlots(t: Tables, cfg: Config, i: nat)
    ensures SlotsFrom(StaticsFrom(t, cfg, i), t, cfg, i)
    decreases StaticLimit(cfg) - i
  {
    hide StaticKey;
    if i >= StaticLimit(cfg) || StaticKey(cfg, i) >= |t.statics| {
    } else {
      StaticsAreSlots(t, cfg, i + 1);
      SlotsExtend(t.statics[StaticKey(cfg, i)], StaticsFrom(t, cfg, i + 1), t, cfg, i);
    }
  }

  /**
   * Every installed static rule is a candidate exactly when there are at most
   * 256 of them, although userspace may install two kernel rules per configured
   * one: rules from slot 256 on are never looked at.
   */
  lemma AllStaticsScannedIff(t: Tables, cfg: Config)
    requires cfg.generation * cfg.staticStride + cfg.staticCount <= |t.statics| <= TWO32
    ensures |StaticsFrom(t, cfg, 0)| == cfg.staticCount <==> cfg.staticCount <= MAX_STATIC_RULES
  {
    hide StaticKey, StaticsFrom;
    StaticsAreSlots(t, cfg, 0);
    var n := |StaticsFrom(t, cfg, 0)|;
    if n < StaticLimit(cfg) {
      assert StaticKey(cfg, 0 + n) >= |t.statics|;
      StaticKeyAt(cfg, n);
    }
  }

  /** In full: where no index wraps and the array is long enough, the statics are one slice of it. */
  lemma StaticsAreTheSlice(t: Tables, cfg: Config)
    requires cfg.generation * cfg.staticStride + Min(cfg.staticCount, 256) <= |t.statics| <= TWO32
    ensures var base := cfg.generation * cfg.staticStride;
            StaticsFrom(t, cfg, 0) == t.statics[base..base + Min(cfg.staticCount, 256)]
  {
    hide StaticKey, StaticsFrom;
    StaticsAreSlots(t, cfg, 0);
    SlotsAreSlice(StaticsFrom(t, cfg, 0), t, cfg, cfg.generation * cfg.staticStride);
  }

  lemma SlotsAreSlice(s: seq<Rule>, t: Tables, cfg: Config, base: nat)
    requires base == cfg.generation * cfg.staticStride && SlotsFrom(s, t, cfg, 0)
    requires base + StaticLimit(cfg) <= |t.statics| <= TWO32
    ensures s == t.statics[base..base + StaticLimit(cfg)]
  {
    hide StaticKey, StaticLimit;
    if |s| < StaticLimit(cfg) {
      assert StaticKey(cfg, 0 + |s|) >= |t.statics|;
      StaticKeyAt(cfg, |s|);
    }
    forall k | 0 <= k < |s| ensures s[k] == t.statics[base + k] {
      StaticKeyAt(cfg, k);
      assert StaticKey(cfg, 0 + k) == base + k;
    }
  }

  lemma StaticKeyAt(cfg: Config, n: nat)
    requires cfg.generation * cfg.staticStride + n < TWO32
    ensures StaticKey(cfg, n) == cfg.generation * cfg.staticStride + n
  {
    var base := cfg.generation * cfg.staticStride;
    assert 0 <= base < TWO32;
  }

  /**
   * From the wire to the verdict: a frame written from the header layouts is
   * dropped exactly when a rule in force denies what was written in it; past
   * the extension-header cap it is never dropped.
   */
  lemma WrittenFrameDrops(t: Tables, d: Data, w: Layout.EthFrame, e: Env)
    requires w.Valid() && |w.Encode()| < TWO32
    ensures Step(t, d, w.Encode(), e).verdict == XDP_DROP <==>
      && t.cfg.Some? && !t.cfg.value.dryRun && w.net.UnderCap()
      && var p := Seen(w.net.Meaning(|w.Header()|), w.Encode(), e);
         !Allowed(t, p) && !Protected(t, p) && RuledOut(t, t.cfg.value, d, w.Encode(), p, e)
  {
    var f, m := w.Encode(), w.net.Meaning(|w.Header()|);
    Layout.DecodeUndoesEncode(w);
    DropsExactlyWhen(t, d, f, e);
  }
}
