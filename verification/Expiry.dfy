/**
 * Deadlines: an expired rule is an absent rule, for one packet and over whole
 * runs, and once every dynamic deadline has passed only the statics decide.
 */
module Expiry {
  import opened Basics
  import opened Wire
  import opened Packet
  import opened Decode
  import opened Matcher
  import opened Tables
  import opened Decision
  import opened Runs
  import opened Views
  import opened Agreement
  import opened Observers

  /** The one counter that can tell an expired rule from an absent one. */
  const SEEN_EXPIRED: set<Stat> := {PASS_RULE_EXPIRED}

  /** The counters of rules looked at and passed over. */
  const SCANNING: set<Stat> := {PASS_RULE_EXPIRED, ERR_POLICY_MISSING}

  // -------------------------------------------------- rulings that are alike

  /** Rulings with the same hit whose traces nearly agree. */
  ghost predicate Alike(quiet: set<Stat>, a: Ruling, b: Ruling) {
    a.hit == b.hit && AgreeBut(quiet, a.trace, b.trace)
  }

  lemma ThenAlike(quiet: set<Stat>, a1: Ruling, a2: Ruling, b1: Ruling, b2: Ruling)
    requires Alike(quiet, a1, b1) && Alike(quiet, a2, b2)
    ensures Alike(quiet, Then(a1, a2), Then(b1, b2))
  {
    AgreeJoin(quiet, a1.trace, a2.trace, b1.trace, b2.trace);
  }

  /** Alike rulings do the same to the packet and to every map, and nearly the same to the counters. */
  lemma EngageAlike(quiet: set<Stat>, t1: Tables, t2: Tables, c: Config, d: Data, f: Frame, p: Pkt, e: Env)
    requires |f| < TWO32 && t1.profiles == t2.profiles
    requires Alike(quiet, Rule3to5(t1, c, p), Rule3to5(t2, c, p))
    ensures var a, b := Engage(t1, c, d, f, p, e), Engage(t2, c, d, f, p, e);
            a.dec == b.dec && a.d == b.d && AgreeBut(quiet, a.trace, b.trace)
  {
    hide Rule3to5, Apply, Record, AgreeBut;
    var r1, r2, o := Rule3to5(t1, c, p), Rule3to5(t2, c, p), Observe(c, d, f, p, e);
    AgreeSelf(quiet, o.trace);
    var rest := [];
    if r1.hit.Hit? {
      ApplySameProfiles(t1, t2, o.d, p, r1.hit, |f|, e);
      rest := Apply(t1, o.d, p, r1.hit, |f|, e).trace;
    }
    AgreeSelf(quiet, rest);
    AgreeJoin(quiet, r1.trace, rest, r2.trace, rest);
    AgreeJoin(quiet, o.trace, r1.trace + rest, o.trace, r2.trace + rest);
    AgreeJoin(quiet, o.trace, r1.trace, o.trace, r2.trace);
    AgreeSelf(quiet, [PASS_DEFAULT]);
    AgreeJoin(quiet, o.trace + r1.trace, [PASS_DEFAULT], o.trace + r2.trace, [PASS_DEFAULT]);
    AgreeJoin(quiet, o.trace + (r1.trace + rest), [PASS_DEFAULT], o.trace + (r2.trace + rest), [PASS_DEFAULT]);
  }

  /** Tables that rule alike on every packet of this instant, and differ in rules and victims only. */
  ghost predicate RuleAlike(quiet: set<Stat>, t1: Tables, t2: Tables, now: u64) {
    && t2 == t1.(statics := t2.statics, policies := t2.policies, victims4 := t2.victims4, victims6 := t2.victims6)
    && (t1.cfg.Some? ==> forall p: Pkt | p.now == now ::
          Alike(quiet, Rule3to5(t1, t1.cfg.value, p), Rule3to5(t2, t1.cfg.value, p)))
  }

  lemma JudgeAlike(quiet: set<Stat>, t1: Tables, t2: Tables, d: Data, f: Frame, e: Env)
    requires |f| < TWO32 && t1.cfg.Some? && RuleAlike(quiet, t1, t2, e.now)
    ensures var a, b := Judge(t1, t1.cfg.value, d, f, e), Judge(t2, t1.cfg.value, d, f, e);
            a.dec == b.dec && a.d == b.d && AgreeBut(quiet, a.trace, b.trace)
  {
    hide Engage, DecodeFrame, Lookup, AddrBits, Rule3to5, AgreeBut, Alike;
    var c := t1.cfg.value;
    AgreeSelf(quiet, Judge(t1, c, d, f, e).trace);
    if DecodeFrame(f).Understood? {
      var p := DecodeFrame(f).pkt.(len := |f|, now := e.now);
      EngageAlike(quiet, t1, t2, c, d, f, p, e);
      AgreeSelf(quiet, FragSeen(p));
      AgreeJoin(quiet, FragSeen(p), Engage(t1, c, d, f, p, e).trace, FragSeen(p), Engage(t2, c, d, f, p, e).trace);
    }
  }

  lemma StepAlike(quiet: set<Stat>, t1: Tables, t2: Tables, d: Data, f: Frame, e: Env)
    requires |f| < TWO32 && RuleAlike(quiet, t1, t2, e.now)
    ensures var a, b := Step(t1, d, f, e), Step(t2, d, f, e);
            a.verdict == b.verdict && a.d == b.d && AgreeBut(quiet, a.trace, b.trace)
  {
    hide Judge, RuleAlike, AgreeBut;
    RuleAlikeCfg(quiet, t1, t2, e.now);
    AgreeSelf(quiet, [ERR_CFG_MISSING]);
    if t1.cfg.Some? {
      JudgeAlike(quiet, t1, t2, d, f, e);
      var a, b := Judge(t1, t1.cfg.value, d, f, e), Judge(t2, t1.cfg.value, d, f, e);
      AgreeSelf(quiet, [DRYRUN_WOULD_DROP]);
      AgreeJoin(quiet, a.trace, [DRYRUN_WOULD_DROP], b.trace, [DRYRUN_WOULD_DROP]);
    }
  }

  lemma RuleAlikeCfg(quiet: set<Stat>, t1: Tables, t2: Tables, now: u64)
    requires RuleAlike(quiet, t1, t2, now)
    ensures t2.cfg == t1.cfg
  {}

  // ------------------------------------------------------------ whole runs

  ghost predicate InputsAlike(quiet: set<Stat>, xs: seq<Input>, ys: seq<Input>) {
    && |xs| == |ys|
    && forall k | 0 <= k < |xs| ::
         ys[k] == xs[k].(t := ys[k].t) && RuleAlike(quiet, xs[k].t, ys[k].t, xs[k].e.now)
  }

  lemma StatsAside(i: Input, d: Data, s: Stats)
    ensures var a, b := StepOn(i, d), StepOn(i, d.(stats := s));
            b.verdict == a.verdict && b.trace == a.trace && b.d == a.d.(stats := s)
  {
    hide Judge;
    if i.t.cfg.Some? { JudgeLeavesStats(i.t, i.t.cfg.value, Primed(i, d), i.f, i.e, s); }
  }

  lemma NextNear(quiet: set<Stat>, x: Input, y: Input, a: Data, b: Data)
    requires Near(quiet, a, b) && y == x.(t := y.t) && RuleAlike(quiet, x.t, y.t, x.e.now)
    ensures StepOn(x, a).verdict == StepOn(y, b).verdict
    ensures Near(quiet, NextOn(x, a), NextOn(y, b))
  {
    hide Step, BumpAll, RuleAlike;
    StepAlike(quiet, x.t, y.t, Primed(x, b), x.f, x.e);
    StatsAside(x, b, a.stats);
    BumpsAgree(quiet, a.stats, b.stats, StepOn(x, a).trace, StepOn(y, b).trace, |x.f|);
  }

  lemma {:induction false} RunsNear(quiet: set<Stat>, a: Data, b: Data, xs: seq<Input>, ys: seq<Input>)
    requires Near(quiet, a, b) && InputsAlike(quiet, xs, ys)
    ensures Verdicts(a, xs) == Verdicts(b, ys)
    ensures Near(quiet, Run(a, xs), Run(b, ys))
    decreases |xs|
  {
    hide Near, RuleAlike, StepOn, NextOn;
    if xs == [] {
    } else {
      NextNear(quiet, xs[0], ys[0], a, b);
      RunsNear(quiet, NextOn(xs[0], a), NextOn(ys[0], b), xs[1..], ys[1..]);
    }
  }

  // ------------------------------------------------------ expired is absent

  /** The slot with its rule taken out once its deadline has passed. */
  function Cleared(r: Rule, now: u64): Rule {
    if Expired(r, now) then EMPTY_RULE else r
  }

  function ClearedAll(rules: seq<Rule>, now: u64): (s: seq<Rule>)
    ensures |s| == |rules| && forall i | 0 <= i < |s| :: s[i] == Cleared(rules[i], now)
  {
    seq(|rules|, i requires 0 <= i < |rules| => Cleared(rules[i], now))
  }

  function ClearedBlock(b: Block, now: u64): Block {
    RawBlock(b.nRules, ClearedAll(b.rules, now))
  }

  /** All tables with every expired rule removed from the statics and from every policy block. */
  function WithoutExpired(t: Tables, now: u64): Tables {
    t.(statics := ClearedAll(t.statics, now),
       policies := seq(|t.policies|, i requires 0 <= i < |t.policies| => ClearedBlock(t.policies[i], now)))
  }

  lemma EmptyNeverMatches(p: Pkt)
    ensures !RuleMatch(EMPTY_RULE, p)
  {
    hide RuleMatch;
    MatchIsDescription(EMPTY_RULE, p);
  }

  lemma {:induction false} ClearedScan(rules: seq<Rule>, p: Pkt)
    ensures FirstLive(ClearedAll(rules, p.now), p) == FirstLive(rules, p)
    ensures ExpiredSeen(ClearedAll(rules, p.now), p) == []
    decreases |rules|
  {
    hide RuleMatch;
    if rules == [] {
    } else {
      EmptyNeverMatches(p);
      ClearedScan(rules[1..], p);
      assert ClearedAll(rules, p.now)[1..] == ClearedAll(rules[1..], p.now);
    }
  }

  lemma {:induction false} ClearedStatics(t: Tables, c: Config, i: nat, now: u64)
    ensures StaticsFrom(WithoutExpired(t, now), c, i) == ClearedAll(StaticsFrom(t, c, i), now)
    decreases StaticLimit(c) - i
  {
    if i >= StaticLimit(c) || StaticKey(c, i) >= |t.statics| {
    } else {
      ClearedStatics(t, c, i + 1, now);
    }
  }

  function ClearedPolicy(policy: Policy, now: u64): Policy {
    if policy.Rules? then Rules(ClearedAll(policy.rules, now)) else policy
  }

  lemma ClearedPolicies(t: Tables, c: Config, a: Addr, v6: bool, now: u64)
    ensures PolicyOf(WithoutExpired(t, now), c, a, v6) == ClearedPolicy(PolicyOf(t, c, a, v6), now)
  {
    hide Lookup, AddrBits, Cleared;
  }

  lemma ScanAlike(rules: seq<Rule>, p: Pkt, level: Level)
    ensures Alike(SEEN_EXPIRED, ScanRules(rules, p, level), ScanRules(ClearedAll(rules, p.now), p, level))
  {
    hide AgreeBut, ExpiredSeen, FirstLive, ClearedAll;
    ClearedScan(rules, p);
    SeesOnlyExpired(rules, p);
    AllQuiet(SEEN_EXPIRED, ExpiredSeen(rules, p), []);
  }

  lemma ClearedPolicyScan(policy: Policy, p: Pkt, level: Level)
    ensures Alike(SEEN_EXPIRED, ScanPolicy(policy, p, level), ScanPolicy(ClearedPolicy(policy, p.now), p, level))
  {
    hide ScanRules;
    if policy.Rules? {
      ScanAlike(policy.rules, p, level);
    }
  }

  lemma ClearedRuling(t: Tables, c: Config, p: Pkt)
    ensures Alike(SEEN_EXPIRED, Rule3to5(t, c, p), Rule3to5(WithoutExpired(t, p.now), c, p))
  {
    hide StaticsFrom, PolicyOf, WithoutExpired, ClearedAll, ClearedPolicy, ScanPolicy, ScanRules, Alike, Then;
    var t' := WithoutExpired(t, p.now);
    ClearedStatics(t, c, 0, p.now);
    ScanAlike(StaticsFrom(t, c, 0), p, Static);
    ClearedPolicies(t, c, p.src, p.isV6, p.now);
    ClearedPolicies(t, c, p.dst, p.isV6, p.now);
    var src, dst := PolicyOf(t, c, p.src, p.isV6), PolicyOf(t, c, p.dst, p.isV6);
    var src', dst' := ClearedPolicy(src, p.now), ClearedPolicy(dst, p.now);
    ClearedPolicyScan(src, p, DynSrc);
    ClearedPolicyScan(dst, p, DynDst);
    ThenAlike(SEEN_EXPIRED, ScanPolicy(src, p, DynSrc), ScanPolicy(dst, p, DynDst),
              ScanPolicy(src', p, DynSrc), ScanPolicy(dst', p, DynDst));
    ThenAlike(SEEN_EXPIRED,
              ScanRules(StaticsFrom(t, c, 0), p, Static),
              Then(ScanPolicy(src, p, DynSrc), ScanPolicy(dst, p, DynDst)),
              ScanRules(StaticsFrom(t', c, 0), p, Static),
              Then(ScanPolicy(src', p, DynSrc), ScanPolicy(dst', p, DynDst)));
  }

  /** A slot that can decide nothing any more: empty, or past its deadline. */
  predicate Spent(r: Rule, now: u64) {
    r.flags & RF_VALID == 0 || Expired(r, now)
  }

  lemma SpentIsNotLive(r: Rule, p: Pkt)
    requires Spent(r, p.now)
    ensures !Live(r, p)
  {
    hide RuleMatch, FieldsFit, FlagsFit, PrefixesFit;
    MatchIsDescription(r, p);
  }

  /** The rules in use of the block that a victim entry leads to, if the block is there. */
  ghost predicate EntrySpent(t: Tables, c: Config, id: u32, now: u64) {
    PolicyKey(c, id) < |t.policies| ==>
      var b := t.policies[PolicyKey(c, id)];
      forall k | 0 <= k < RULES_PER_POLICY && k < b.nRules :: Spent(b.rules[k], now)
  }

  /** Every rule that a victim entry leads to, in the generation in force, is spent. */
  ghost predicate DynamicsExpired(t: Tables, now: u64) {
    t.cfg.Some? ==>
      && (forall key | key in t.victims4 :: EntrySpent(t, t.cfg.value, t.victims4[key], now))
      && (forall key | key in t.victims6 :: EntrySpent(t, t.cfg.value, t.victims6[key], now))
  }

  lemma {:induction false} NothingLive(rules: seq<Rule>, p: Pkt)
    requires forall k | 0 <= k < |rules| :: Spent(rules[k], p.now)
    ensures FirstLive(rules, p) == None
    decreases |rules|
  {
    hide Live, Spent;
    if rules == [] {
    } else {
      SpentIsNotLive(rules[0], p);
      NothingLive(rules[1..], p);
    }
  }

  lemma StoredAt(v: Trie<u32>, key: seq<bool>) returns (stored: seq<bool>)
    requires Lookup<u32>(v, key).Some?
    ensures stored in v && v[stored] == Lookup<u32>(v, key).value
  {
    LookupIsLongest<u32>(v, key);
    var n: nat :| n <= |key| && LongestAt(v, key, n) && Lookup<u32>(v, key).value == v[key[..n]];
    stored := key[..n];
  }

  lemma ExpiredPolicyIsSilent(t: Tables, a: Addr, p: Pkt, level: Level)
    requires t.cfg.Some? && DynamicsExpired(t, p.now)
    ensures ScanPolicy(PolicyOf(t, t.cfg.value, a, p.isV6), p, level).hit == NoHit
  {
    hide Lookup, AddrBits, Spent, PolicyKey;
    var policy := PolicyOf(t, t.cfg.value, a, p.isV6);
    if policy.Rules? {
      var v := if p.isV6 then t.victims6 else t.victims4;
      var stored := StoredAt(v, AddrBits(a, p.isV6));
      assert EntrySpent(t, t.cfg.value, v[stored], p.now);
      NothingLive(policy.rules, p);
    }
  }

  function WithoutVictims(t: Tables): Tables { t.(victims4 := map[], victims6 := map[]) }

  lemma {:induction false} EmptyTrie<V>(key: seq<bool>)
    ensures Lookup<V>(map[], key) == None
    decreases |key|
  {
    if key == [] {
    } else {
      EmptyTrie<V>(key[..|key| - 1]);
    }
  }

  lemma StaticsAloneRule(t: Tables, p: Pkt)
    requires t.cfg.Some? && DynamicsExpired(t, p.now)
    ensures Rule3to5(t, t.cfg.value, p).hit == Rule3to5(WithoutVictims(t), t.cfg.value, p).hit
  {
    hide AddrBits, ScanRules, DynamicsExpired, StaticsFrom;
    SameStatics(t, t.cfg.value, WithoutVictims(t), t.cfg.value, 0);
    ExpiredPolicyIsSilent(t, p.src, p, DynSrc);
    ExpiredPolicyIsSilent(t, p.dst, p, DynDst);
    EmptyTrie<u32>(AddrBits(p.src, p.isV6));
    EmptyTrie<u32>(AddrBits(p.dst, p.isV6));
  }

  // --------------------------------------------------------- the two results

  lemma ClearedAlike(t: Tables, now: u64)
    ensures RuleAlike(SEEN_EXPIRED, t, WithoutExpired(t, now), now)
  {
    hide Rule3to5, Alike;
    var t' := WithoutExpired(t, now);
    if t.cfg.Some? {
      forall p: Pkt | p.now == now
        ensures Alike(SEEN_EXPIRED, Rule3to5(t, t.cfg.value, p), Rule3to5(t', t.cfg.value, p))
      {
        ClearedRuling(t, t.cfg.value, p);
      }
    }
  }

  /**
   * An expired rule is an absent rule: same verdict, buckets, rule counters,
   * sampler and ring, and the same bump of every counter but the one that
   * counts expired matches.
   */
  lemma ExpiredIsAbsent(t: Tables, d: Data, f: Frame, e: Env)
    requires |f| < TWO32
    ensures var a, b := Step(t, d, f, e), Step(WithoutExpired(t, e.now), d, f, e);
            a.verdict == b.verdict && a.d == b.d && AgreeBut(SEEN_EXPIRED, a.trace, b.trace)
  {
    hide Step, RuleAlike, WithoutExpired;
    ClearedAlike(t, e.now);
    StepAlike(SEEN_EXPIRED, t, WithoutExpired(t, e.now), d, f, e);
  }

  function Purged(i: Input): Input { i.(t := WithoutExpired(i.t, i.e.now)) }

  function PurgedAll(ins: seq<Input>): (s: seq<Input>)
    ensures |s| == |ins| && forall k | 0 <= k < |s| :: s[k] == Purged(ins[k])
  {
    seq(|ins|, k requires 0 <= k < |ins| => Purged(ins[k]))
  }

  /** The same over any run: purging expired rules before every packet changes nothing but that counter. */
  lemma PurgingChangesNothing(d: Data, ins: seq<Input>)
    ensures Verdicts(d, PurgedAll(ins)) == Verdicts(d, ins)
    ensures Near(SEEN_EXPIRED, Run(d, ins), Run(d, PurgedAll(ins)))
  {
    hide RuleAlike, WithoutExpired;
    forall k | 0 <= k < |ins| ensures RuleAlike(SEEN_EXPIRED, ins[k].t, PurgedAll(ins)[k].t, ins[k].e.now) {
      ClearedAlike(ins[k].t, ins[k].e.now);
    }
    RunsNear(SEEN_EXPIRED, d, d, ins, PurgedAll(ins));
  }

  lemma VictimsAlike(t: Tables, now: u64)
    requires DynamicsExpired(t, now)
    ensures RuleAlike(SCANNING, t, WithoutVictims(t), now)
  {
    hide Rule3to5, AgreeBut, DynamicsExpired;
    var t' := WithoutVictims(t);
    if t.cfg.Some? {
      forall p: Pkt | p.now == now
        ensures Alike(SCANNING, Rule3to5(t, t.cfg.value, p), Rule3to5(t', t.cfg.value, p))
      {
        StaticsAloneRule(t, p);
        RulingSees(t, t.cfg.value, p);
        RulingSees(t', t.cfg.value, p);
        AllQuiet(SCANNING, Rule3to5(t, t.cfg.value, p).trace, Rule3to5(t', t.cfg.value, p).trace);
      }
    }
  }

  function StaticsOnly(i: Input): Input { i.(t := WithoutVictims(i.t)) }

  function StaticsOnlyAll(ins: seq<Input>): (s: seq<Input>)
    ensures |s| == |ins| && forall k | 0 <= k < |s| :: s[k] == StaticsOnly(ins[k])
  {
    seq(|ins|, k requires 0 <= k < |ins| => StaticsOnly(ins[k]))
  }

  /**
   * A dead userspace is harmless: a run whose dynamic deadlines have all
   * passed is a run of the statics alone.
   */
  lemma DeadlinesLeaveStatics(d: Data, ins: seq<Input>)
    requires forall k | 0 <= k < |ins| :: DynamicsExpired(ins[k].t, ins[k].e.now)
    ensures Verdicts(d, ins) == Verdicts(d, StaticsOnlyAll(ins))
    ensures Near(SCANNING, Run(d, ins), Run(d, StaticsOnlyAll(ins)))
  {
    hide RuleAlike, DynamicsExpired;
    forall k | 0 <= k < |ins| ensures RuleAlike(SCANNING, ins[k].t, StaticsOnlyAll(ins)[k].t, ins[k].e.now) {
      VictimsAlike(ins[k].t, ins[k].e.now);
    }
    RunsNear(SCANNING, d, d, ins, StaticsOnlyAll(ins));
  }
}
