/**
 * One packet as one step: what the six precedence levels decide, which counters
 * move, and what happens to the buckets, the rule counters and the copy ring.
 */
module Decision {
  import opened Basics
  import opened Wire
  import opened Packet
  import opened Decode
  import opened Matcher
  import opened TokenBucket
  import opened Tables

  type Stat = nat

  const PASS_DEFAULT: Stat := 0
  const PASS_NOT_IP: Stat := 1
  const PASS_MALFORMED: Stat := 2
  const DROP_MALFORMED: Stat := 3
  const PASS_VLAN_DEPTH: Stat := 4
  const PASS_EXTHDR_CAP: Stat := 5
  const PASS_FRAG_NOPORTS: Stat := 6
  const PASS_ALLOW_SRC: Stat := 7
  const PASS_PROTECT_DST: Stat := 8
  const PASS_STATIC: Stat := 9
  const DROP_STATIC: Stat := 10
  const PASS_DYN_SRC: Stat := 11
  const DROP_DYN_SRC: Stat := 12
  const PASS_DYN_DST: Stat := 13
  const DROP_DYN_DST: Stat := 14
  const PASS_RL_ADMIT: Stat := 15
  const DROP_RL: Stat := 16
  const PASS_RULE_EXPIRED: Stat := 17
  const DRYRUN_WOULD_DROP: Stat := 18
  const ERR_CFG_MISSING: Stat := 19
  const ERR_POLICY_MISSING: Stat := 20
  const FP_EMITTED: Stat := 21
  const FP_THROTTLED: Stat := 22
  const FP_RING_FULL: Stat := 23
  const STAT_MAX := 24

  datatype Counter = Counter(pkts: nat, bytes: nat)
  type Stats = s: seq<Counter> | |s| == STAT_MAX
    witness seq(STAT_MAX, _ => Counter(0, 0))

  function Bump(s: Stats, i: Stat, len: nat): Stats {
    if i < STAT_MAX then s[i := Counter(s[i].pkts + 1, s[i].bytes + len)] else s
  }

  /** All the bumps of one packet, which all carry the frame's length. */
  function BumpAll(s: Stats, trace: seq<Stat>, len: nat): Stats
    decreases |trace|
  {
    if trace == [] then s else BumpAll(Bump(s, trace[0], len), trace[1..], len)
  }

  lemma {:induction false} BumpSplits(s: Stats, a: seq<Stat>, b: seq<Stat>, len: nat)
    ensures BumpAll(s, a + b, len) == BumpAll(BumpAll(s, a, len), b, len)
    decreases |a|
  {
    if a == [] {
      assert a + b == b;
    } else {
      assert (a + b)[1..] == a[1..] + b;
      BumpSplits(Bump(s, a[0], len), a[1..], b, len);
    }
  }

  lemma BumpNone(s: Stats, len: nat)
    ensures BumpAll(s, [], len) == s
  {}

  lemma BumpOne(s: Stats, i: Stat, len: nat)
    ensures BumpAll(s, [i], len) == Bump(s, i, len)
  {}

  lemma BumpLast(s: Stats, a: seq<Stat>, i: Stat, len: nat)
    ensures BumpAll(s, a + [i], len) == Bump(BumpAll(s, a, len), i, len)
  {
    BumpSplits(s, a, [i], len);
    assert BumpAll(BumpAll(s, a, len), [i], len) == Bump(BumpAll(s, a, len), i, len);
  }

  // ------------------------------------------------------------ the state

  datatype Key = Key(victim: seq<bv8>, src: seq<bv8>, profile: u32)

  datatype Sampler = Sampler(last: u64, tokens: u64)

  datatype Event = Event(
    src: Addr, dst: Addr, sport: bv16, dport: bv16, isV6: bool, proto: bv8, axis: bv8,
    pktLen: nat, snapLen: nat, payloadOff: nat, data: seq<bv8>)

  const SNAP_LEN := 1536

  datatype Data = Data(
    rl4: map<Key, Bucket>, rl6: map<Key, Bucket>,
    ruleStats: map<u32, Counter>, stats: Stats,
    sampler: Option<Sampler>, ring: seq<Event>)

  /**
   * What the kernel decides for one packet: the boot clock, whether an LRU
   * insertion succeeds and which cold entries it evicts, and the ring slot that
   * is handed out (with whatever octets it held before), if any.
   */
  datatype RawEnv = Env(now: u64, insertOk: bool, evicted: set<Key>, slot: Option<seq<bv8>>)
  type Env = e: RawEnv | e.slot.Some? ==> |e.slot.value| == SNAP_LEN
    witness Env(0, true, {}, None)

  // ----------------------------------------------- levels three, four, five

  datatype Level = Static | DynSrc | DynDst
  {
    function Pass(): Stat {
      match this case Static => PASS_STATIC case DynSrc => PASS_DYN_SRC case DynDst => PASS_DYN_DST
    }
    function Drop(): Stat {
      match this case Static => DROP_STATIC case DynSrc => DROP_DYN_SRC case DynDst => DROP_DYN_DST
    }
    /** The end of the packet a rate-limit at this level keeps its buckets under. */
    function Anchor(p: Pkt): Addr {
      if DynSrc? then p.src else p.dst
    }
  }

  datatype Hit = NoHit | Hit(rule: Rule, level: Level)

  /** The first live rule of a list. */
  function FirstLive(rules: seq<Rule>, p: Pkt): Option<Rule> {
    if rules == [] then None
    else if Live(rules[0], p) then Some(rules[0])
    else FirstLive(rules[1..], p)
  }

  /** One observation for every expired rule that matched before the first live one. */
  function ExpiredSeen(rules: seq<Rule>, p: Pkt): seq<Stat> {
    if rules == [] || Live(rules[0], p) then []
    else (if RuleMatch(rules[0], p) then [PASS_RULE_EXPIRED] else []) + ExpiredSeen(rules[1..], p)
  }

  datatype Ruling = Ruling(trace: seq<Stat>, hit: Hit)

  function ScanRules(rules: seq<Rule>, p: Pkt, level: Level): Ruling {
    Ruling(ExpiredSeen(rules, p),
           match FirstLive(rules, p) case None => NoHit case Some(r) => Hit(r, level))
  }

  /** A scan of `all` that has made the observations `seen` and still has `rest` to look at. */
  ghost predicate Pending(all: seq<Rule>, rest: seq<Rule>, seen: seq<Stat>, p: Pkt) {
    seen + ExpiredSeen(rest, p) == ExpiredSeen(all, p) && FirstLive(rest, p) == FirstLive(all, p)
  }

  lemma ScanStarts(all: seq<Rule>, p: Pkt)
    ensures Pending(all, all, [], p)
  {}

  lemma ScanSkips(all: seq<Rule>, rest: seq<Rule>, seen: seq<Stat>, p: Pkt)
    requires Pending(all, rest, seen, p) && rest != [] && !RuleMatch(rest[0], p)
    ensures Pending(all, rest[1..], seen, p)
  {
    hide RuleMatch;
    assert ExpiredSeen(rest, p) == [] + ExpiredSeen(rest[1..], p);
  }

  lemma ScanPassesExpired(all: seq<Rule>, rest: seq<Rule>, seen: seq<Stat>, p: Pkt)
    requires Pending(all, rest, seen, p) && rest != [] && RuleMatch(rest[0], p) && Expired(rest[0], p.now)
    ensures Pending(all, rest[1..], seen + [PASS_RULE_EXPIRED], p)
  {
    hide RuleMatch;
    assert seen + ExpiredSeen(rest, p) == seen + [PASS_RULE_EXPIRED] + ExpiredSeen(rest[1..], p);
  }

  lemma ScanHits(all: seq<Rule>, rest: seq<Rule>, seen: seq<Stat>, p: Pkt, level: Level)
    requires Pending(all, rest, seen, p) && rest != [] && Live(rest[0], p)
    ensures ScanRules(all, p, level) == Ruling(seen, Hit(rest[0], level))
  {
    hide Live;
    assert seen + [] == seen;
  }

  lemma ScanEnds(all: seq<Rule>, seen: seq<Stat>, p: Pkt, level: Level)
    requires Pending(all, [], seen, p)
    ensures ScanRules(all, p, level) == Ruling(seen, NoHit)
  {
    hide Live;
    assert seen + [] == seen;
  }

  function ScanPolicy(policy: Policy, p: Pkt, level: Level): Ruling {
    match policy
    case NoPolicy => Ruling([], NoHit)
    case MissingBlock => Ruling([ERR_POLICY_MISSING], NoHit)
    case Rules(rules) => ScanRules(rules, p, level)
  }

  function Then(a: Ruling, b: Ruling): Ruling {
    if a.hit.Hit? then a else Ruling(a.trace + b.trace, b.hit)
  }

  /** Statics, then the source's block, then the destination's. */
  function Rule3to5(t: Tables, cfg: Config, p: Pkt): Ruling {
    Then(ScanRules(StaticsFrom(t, cfg, 0), p, Static),
         Then(ScanPolicy(PolicyOf(t, cfg, p.src, p.isV6), p, DynSrc),
              ScanPolicy(PolicyOf(t, cfg, p.dst, p.isV6), p, DynDst)))
  }

  /** A scan of rules makes no observation but that of an expired match. */
  lemma {:induction false} SeesOnlyExpired(rules: seq<Rule>, p: Pkt)
    ensures forall x | x in ExpiredSeen(rules, p) :: x == PASS_RULE_EXPIRED
    decreases |rules|
  {
    hide Live, RuleMatch;
    if rules == [] || Live(rules[0], p) {
    } else {
      SeesOnlyExpired(rules[1..], p);
    }
  }

  predicate ScanStat(i: Stat) { i == PASS_RULE_EXPIRED || i == ERR_POLICY_MISSING }

  lemma PolicySees(policy: Policy, p: Pkt, level: Level)
    ensures forall x | x in ScanPolicy(policy, p, level).trace :: ScanStat(x)
  {
    if policy.Rules? {
      SeesOnlyExpired(policy.rules, p);
    }
  }

  /** The three levels together observe expired matches and missing blocks, and nothing else. */
  lemma RulingSees(t: Tables, cfg: Config, p: Pkt)
    ensures forall x | x in Rule3to5(t, cfg, p).trace :: ScanStat(x)
  {
    hide StaticsFrom, PolicyOf, ScanPolicy, ExpiredSeen, FirstLive;
    SeesOnlyExpired(StaticsFrom(t, cfg, 0), p);
    PolicySees(PolicyOf(t, cfg, p.src, p.isV6), p, DynSrc);
    PolicySees(PolicyOf(t, cfg, p.dst, p.isV6), p, DynDst);
  }

  // -------------------------------------------------------- rate limiting

  function KeyOf(p: Pkt, anchor: Addr, profile: u32): Key {
    if p.isV6 then Key(anchor, p.src, profile) else Key(anchor[..4], p.src[..4], profile)
  }

  function Buckets(d: Data, isV6: bool): map<Key, Bucket> {
    if isV6 then d.rl6 else d.rl4
  }

  function WithBuckets(d: Data, isV6: bool, m: map<Key, Bucket>): Data {
    if isV6 then d.(rl6 := m) else d.(rl4 := m)
  }

  /** A profile that exists and caps something. */
  predicate Limits(t: Tables, profile: u32) {
    profile < |t.profiles| && (t.profiles[profile].ratePps != 0 || t.profiles[profile].rateBps != 0)
  }

  /** The bucket the call works on: the one there, else a fresh one if the map took it. */
  function BucketFor(m: map<Key, Bucket>, k: Key, prof: Profile, e: Env): Option<Bucket> {
    if k in m then Some(m[k]) else if e.insertOk then Some(Fresh(prof, e.now)) else None
  }

  datatype Limited = Limited(admit: bool, d: Data)

  function RateLimit(t: Tables, d: Data, p: Pkt, anchor: Addr, profile: u32, len: u32, e: Env): Limited {
    if !Limits(t, profile) then Limited(true, d)
    else
      var prof := t.profiles[profile];
      var k := KeyOf(p, anchor, profile);
      var m := Buckets(d, p.isV6);
      var m' := if k in m then m else m - e.evicted;
      match BucketFor(m, k, prof, e)
      case None => Limited(true, WithBuckets(d, p.isV6, m'))
      case Some(b) =>
        Limited(Admits(prof, b, e.now, len), WithBuckets(d, p.isV6, m'[k := After(prof, b, e.now, len)]))
  }

  // ------------------------------------------------------- applying a rule

  datatype Dec = NOMATCH | PASS | DROP

  datatype Applied = Applied(dec: Dec, trace: seq<Stat>, d: Data)

  function CountRule(d: Data, id: u32, len: nat): Data {
    if id in d.ruleStats then
      var c := d.ruleStats[id];
      d.(ruleStats := d.ruleStats[id := Counter(c.pkts + 1, c.bytes + len)])
    else d
  }

  function Apply(t: Tables, d: Data, p: Pkt, h: Hit, len: u32, e: Env): Applied
    requires h.Hit?
  {
    var d' := CountRule(d, h.rule.ruleId, len);
    if h.rule.action == ACT_DROP then Applied(DROP, [h.level.Drop()], d')
    else if h.rule.action == ACT_RATELIMIT then
      var l := RateLimit(t, d', p, h.level.Anchor(p), h.rule.profile, len, e);
      if l.admit then Applied(PASS, [PASS_RL_ADMIT], l.d) else Applied(DROP, [DROP_RL], l.d)
    else Applied(PASS, [h.level.Pass()], d')
  }

  lemma RateLimitLeavesStats(t: Tables, d: Data, p: Pkt, anchor: Addr, profile: u32, len: u32, e: Env, s: Stats)
    ensures var a := RateLimit(t, d, p, anchor, profile, len, e);
            var b := RateLimit(t, d.(stats := s), p, anchor, profile, len, e);
            b.admit == a.admit && b.d == a.d.(stats := s) && a.d.stats == d.stats
  {
    hide Admits, After, KeyOf, BucketFor;
  }

  /** Applying a rule neither reads nor writes the verdict counters. */
  lemma ApplyLeavesStats(t: Tables, d: Data, p: Pkt, h: Hit, len: u32, e: Env, s: Stats)
    requires h.Hit?
    ensures var a, b := Apply(t, d, p, h, len, e), Apply(t, d.(stats := s), p, h, len, e);
            b.dec == a.dec && b.trace == a.trace && b.d == a.d.(stats := s) && a.d.stats == d.stats
  {
    hide RateLimit;
    var d' := CountRule(d, h.rule.ruleId, len);
    assert CountRule(d.(stats := s), h.rule.ruleId, len) == d'.(stats := s);
    RateLimitLeavesStats(t, d', p, h.level.Anchor(p), h.rule.profile, len, e, s);
  }

  function Decide(t: Tables, cfg: Config, d: Data, p: Pkt, len: u32, e: Env): Applied {
    var r := Rule3to5(t, cfg, p);
    if r.hit.NoHit? then Applied(NOMATCH, r.trace, d)
    else
      var a := Apply(t, d, p, r.hit, len, e);
      Applied(a.dec, r.trace + a.trace, a.d)
  }

  // -------------------------------------------------- the fingerprint plane

  function SampleTokens(cfg: Config, s: Sampler, now: u64): u64 {
    Refilled(s.tokens, Elapsed(s.last, now), cfg.fpRate, cfg.fpBurst)
  }

  predicate Samples(cfg: Config, s: Option<Sampler>, now: u64) {
    s.Some? && SampleTokens(cfg, s.value, now) >= TWO32
  }

  function Sampled(cfg: Config, s: Option<Sampler>, now: u64): Option<Sampler> {
    if s.None? then None
    else
      var tok := SampleTokens(cfg, s.value, now);
      Some(Sampler(now, if tok >= TWO32 then tok - TWO32 else tok))
  }

  function SnapLen(f: Frame): nat {
    if |f| < SNAP_LEN then |f| else SNAP_LEN
  }

  /** The record of a recognised handshake: its metadata and the first octets of the frame. */
  function Record(f: Frame, p: Pkt, slot: seq<bv8>): Event
    requires |slot| == SNAP_LEN
  {
    Event(p.src, p.dst, p.sport, p.dport, p.isV6, p.proto,
          if p.isTls then MX_TLS_CLIENT_HELLO else MX_QUIC_INITIAL,
          |f| % TWO32, SnapLen(f), p.fpOff % 0x1_0000, f[..SnapLen(f)] + slot[SnapLen(f)..])
  }

  predicate Eligible(cfg: Config, p: Pkt) {
    cfg.fpEnabled && (p.isTls || p.isQuic)
  }

  function Observe(cfg: Config, d: Data, f: Frame, p: Pkt, e: Env): Applied {
    if !Eligible(cfg, p) then Applied(NOMATCH, [], d)
    else
      var d' := d.(sampler := Sampled(cfg, d.sampler, e.now));
      if !Samples(cfg, d.sampler, e.now) then Applied(NOMATCH, [FP_THROTTLED], d')
      else if e.slot.None? then Applied(NOMATCH, [FP_RING_FULL], d')
      else Applied(NOMATCH, [FP_EMITTED], d'.(ring := d.ring + [Record(f, p, e.slot.value)]))
  }

  // ------------------------------------------------------------- one packet

  datatype Verdict = XDP_PASS | XDP_DROP

  datatype Outcome = Outcome(verdict: Verdict, trace: seq<Stat>, d: Data)

  /** The dry-run rewrite, after everything has been counted. */
  function Finish(a: Applied, cfg: Config): Outcome {
    if a.dec != DROP then Outcome(XDP_PASS, a.trace, a.d)
    else if cfg.dryRun then Outcome(XDP_PASS, a.trace + [DRYRUN_WOULD_DROP], a.d)
    else Outcome(XDP_DROP, a.trace, a.d)
  }

  function FragSeen(p: Pkt): seq<Stat> {
    if !p.havePorts && p.isFrag then [PASS_FRAG_NOPORTS] else []
  }

  /** A packet that was understood, past the allowlist and the protected list. */
  function Engage(t: Tables, cfg: Config, d: Data, f: Frame, p: Pkt, e: Env): Applied
    requires |f| < TWO32
  {
    var o := Observe(cfg, d, f, p, e);
    var a := Decide(t, cfg, o.d, p, |f|, e);
    if a.dec == NOMATCH then Applied(PASS, o.trace + a.trace + [PASS_DEFAULT], a.d)
    else Applied(a.dec, o.trace + a.trace, a.d)
  }

  lemma EngageLeavesStats(t: Tables, cfg: Config, d: Data, f: Frame, p: Pkt, e: Env, s: Stats)
    requires |f| < TWO32
    ensures var a, b := Engage(t, cfg, d, f, p, e), Engage(t, cfg, d.(stats := s), f, p, e);
            b.dec == a.dec && b.trace == a.trace && b.d == a.d.(stats := s) && a.d.stats == d.stats
  {
    hide Apply, Rule3to5, Samples, Sampled, Record;
    var o := Observe(cfg, d, f, p, e);
    assert Observe(cfg, d.(stats := s), f, p, e) == Applied(NOMATCH, o.trace, o.d.(stats := s));
    var r := Rule3to5(t, cfg, p);
    if r.hit.Hit? {
      ApplyLeavesStats(t, o.d, p, r.hit, |f|, e, s);
    }
  }

  /** A packet that was understood: the two lists first, then the rules. */
  function Gate(t: Tables, cfg: Config, d: Data, f: Frame, p: Pkt, e: Env): Applied
    requires |f| < TWO32
  {
    if Allowed(t, p) then Applied(PASS, FragSeen(p) + [PASS_ALLOW_SRC], d)
    else if Protected(t, p) then Applied(PASS, FragSeen(p) + [PASS_PROTECT_DST], d)
    else
      var a := Engage(t, cfg, d, f, p, e);
      Applied(a.dec, FragSeen(p) + a.trace, a.d)
  }

  function Judge(t: Tables, cfg: Config, d: Data, f: Frame, e: Env): Applied
    requires |f| < TWO32
  {
    match DecodeFrame(f)
    case NotIp => Applied(PASS, [PASS_NOT_IP], d)
    case VlanDepth => Applied(PASS, [PASS_VLAN_DEPTH], d)
    case ExtHdrCap => Applied(PASS, [PASS_EXTHDR_CAP], d)
    case Malformed =>
      if cfg.dropMalformed then Applied(DROP, [DROP_MALFORMED], d) else Applied(PASS, [PASS_MALFORMED], d)
    case Understood(q) =>
      Gate(t, cfg, d, f, q.(len := |f|, now := e.now), e)
  }

  function Step(t: Tables, d: Data, f: Frame, e: Env): Outcome
    requires |f| < TWO32
  {
    if t.cfg.None? then Outcome(XDP_PASS, [ERR_CFG_MISSING], d)
    else Finish(Judge(t, t.cfg.value, d, f, e), t.cfg.value)
  }

  /** The state after the step, with the packet's bumps applied to the counters. */
  function Settle(d: Data, o: Outcome, f: Frame): Data {
    o.d.(stats := BumpAll(d.stats, o.trace, |f|))
  }

  function Next(t: Tables, d: Data, f: Frame, e: Env): Data
    requires |f| < TWO32
  {
    Settle(d, Step(t, d, f, e), f)
  }
}
