/**
 * What each counter counts: which terminal counter a packet moves and why, how
 * often each observation is made, and which rule's own counter moves.
 */
module Counters {
  import opened Basics
  import opened Wire
  import opened Packet
  import opened Decode
  import opened Matcher
  import opened Tables
  import opened Lookups
  import opened Decision
  import opened Precedence
  import opened Runs
  import opened Agreement

  // ------------------------------------------------ the terminal counters

  /** The terminal counter of a rule in force: by its level, or by what its limit did. */
  function RuleCounter(h: Hit, denied: bool): Stat
    requires h.Hit?
  {
    if h.rule.action == ACT_RATELIMIT then if denied then DROP_RL else PASS_RL_ADMIT
    else if h.rule.action == ACT_DROP then
      match h.level case Static => DROP_STATIC case DynSrc => DROP_DYN_SRC case DynDst => DROP_DYN_DST
    else
      match h.level case Static => PASS_STATIC case DynSrc => PASS_DYN_SRC case DynDst => PASS_DYN_DST
  }

  /** The packet gets as far as the rules: configured, understood, and on neither list. */
  ghost predicate Engaged(t: Tables, f: Frame, e: Env)
    requires |f| < TWO32
  {
    && t.cfg.Some? && DecodeFrame(f).Understood?
    && var p := Seen(DecodeFrame(f).pkt, f, e);
       && !Covered(if p.isV6 then t.allow6 else t.allow4, p.src, p.isV6)
       && !Covered(if p.isV6 then t.protect6 else t.protect4, p.dst, p.isV6)
  }

  /** `h` is the first candidate in force. */
  ghost predicate Decides(t: Tables, c: Config, p: Pkt, h: Hit) {
    exists i: nat :: FirstAt(Candidates(t, c, p), i, p) && Candidates(t, c, p)[i] == h
  }

  ghost predicate NoneDecides(t: Tables, c: Config, p: Pkt) {
    forall i | 0 <= i < |Candidates(t, c, p)| :: !InForce(Candidates(t, c, p)[i], p)
  }

  /** The counter `x` names what became of the packet. */
  ghost predicate Names(t: Tables, d: Data, f: Frame, e: Env, x: Stat)
    requires |f| < TWO32
  {
    if t.cfg.None? then x == ERR_CFG_MISSING
    else
      match DecodeFrame(f)
      case NotIp => x == PASS_NOT_IP
      case VlanDepth => x == PASS_VLAN_DEPTH
      case ExtHdrCap => x == PASS_EXTHDR_CAP
      case Malformed => x == if t.cfg.value.dropMalformed then DROP_MALFORMED else PASS_MALFORMED
      case Understood(q) =>
        var p := Seen(q, f, e);
        if Covered(if p.isV6 then t.allow6 else t.allow4, p.src, p.isV6) then x == PASS_ALLOW_SRC
        else if Covered(if p.isV6 then t.protect6 else t.protect4, p.dst, p.isV6) then x == PASS_PROTECT_DST
        else NamesRule(t, t.cfg.value, d, f, p, e, x)
  }

  ghost predicate NamesRule(t: Tables, c: Config, d: Data, f: Frame, p: Pkt, e: Env, x: Stat)
    requires |f| < TWO32
  {
    || (NoneDecides(t, c, p) && x == PASS_DEFAULT)
    || exists h: Hit :: h.Hit? && Decides(t, c, p, h) && x == RuleCounter(h, Denies(t, d, p, h, |f|, e))
  }

  lemma DecidesIsHit(t: Tables, c: Config, p: Pkt)
    ensures Rule3to5(t, c, p).hit.NoHit? <==> NoneDecides(t, c, p)
    ensures Rule3to5(t, c, p).hit.Hit? ==> forall h :: Decides(t, c, p, h) <==> h == Rule3to5(t, c, p).hit
  {
    hide Rule3to5, Candidates, InForce;
    RulingPicks(t, c, p);
    var cs, hit := Candidates(t, c, p), Rule3to5(t, c, p).hit;
    if hit.Hit? {
      var k: nat :| FirstAt(cs, k, p) && cs[k] == hit;
      assert InForce(cs[k], p);
      forall h ensures Decides(t, c, p, h) <==> h == hit {
        if Decides(t, c, p, h) {
          var i: nat :| FirstAt(cs, i, p) && cs[i] == h;
          FirstIsUnique(cs, i, k, p);
        }
      }
    }
  }

  lemma ApplyNames(t: Tables, d: Data, p: Pkt, h: Hit, len: u32, e: Env)
    requires h.Hit?
    ensures Apply(t, d, p, h, len, e).trace == [RuleCounter(h, Denies(t, d, p, h, len, e))]
  {
    hide RateLimit, Denies;
    ApplyDenies(t, d, p, h, len, e);
  }

  lemma EngageNames(t: Tables, c: Config, d: Data, f: Frame, p: Pkt, e: Env)
    requires |f| < TWO32
    ensures var tr := Engage(t, c, d, f, p, e).trace;
            tr != [] && NamesRule(t, c, d, f, p, e, tr[|tr| - 1])
  {
    hide Rule3to5, Apply, Samples, Sampled, Record, Denies, Decides, NoneDecides;
    var o, h := Observe(c, d, f, p, e), Rule3to5(t, c, p).hit;
    DecidesIsHit(t, c, p);
    if h.Hit? {
      ApplyNames(t, o.d, p, h, |f|, e);
      ApplyDecides(t, o.d, p, h, |f|, e);
      SameBuckets(t, d, o.d, p, h, |f|, e);
    }
  }

  /** The last bump of a judgement is the one that names what became of the packet. */
  lemma JudgeNames(t: Tables, d: Data, f: Frame, e: Env)
    requires |f| < TWO32 && t.cfg.Some?
    ensures var tr := Judge(t, t.cfg.value, d, f, e).trace; tr != [] && Names(t, d, f, e, tr[|tr| - 1])
  {
    hide Engage, DecodeFrame, Allowed, Protected, Covered, NamesRule;
    if DecodeFrame(f).Understood? {
      var p := Seen(DecodeFrame(f).pkt, f, e);
      AllowedIsCovered(t, p);
      ProtectedIsCovered(t, p);
      EngageNames(t, t.cfg.value, d, f, p, e);
    }
  }

  lemma RuleCounterIsTerminal(h: Hit, denied: bool)
    requires h.Hit?
    ensures RuleCounter(h, denied) < STAT_MAX && !Observation(RuleCounter(h, denied))
  {}

  lemma NamesRuleOnce(t: Tables, c: Config, d: Data, f: Frame, p: Pkt, e: Env, x: Stat, y: Stat)
    requires |f| < TWO32 && NamesRule(t, c, d, f, p, e, x) && NamesRule(t, c, d, f, p, e, y)
    ensures x == y && x < STAT_MAX && !Observation(x)
  {
    hide Denies, Decides, NoneDecides, RuleCounter;
    DecidesIsHit(t, c, p);
    if NoneDecides(t, c, p) {
      NoneMeansNot(t, c, p);
    } else {
      var h := Rule3to5(t, c, p).hit;
      hide Rule3to5;
      RuleCounterIsTerminal(h, Denies(t, d, p, h, |f|, e));
    }
  }

  lemma NamesOnce(t: Tables, d: Data, f: Frame, e: Env, x: Stat, y: Stat)
    requires |f| < TWO32 && Names(t, d, f, e, x) && Names(t, d, f, e, y)
    ensures x == y && x < STAT_MAX && !Observation(x)
  {
    hide DecodeFrame, Covered, NamesRule;
    if t.cfg.Some? && DecodeFrame(f).Understood? {
      var p := Seen(DecodeFrame(f).pkt, f, e);
      if NamesRule(t, t.cfg.value, d, f, p, e, x) && NamesRule(t, t.cfg.value, d, f, p, e, y) {
        NamesRuleOnce(t, t.cfg.value, d, f, p, e, x, y);
      }
    }
  }

  /** A trace with one terminal has no other. */
  lemma {:induction false} OnlyTerminal(trace: seq<Stat>, x: Stat, y: Stat)
    requires Terminals(trace) <= 1 && x in trace && x < STAT_MAX && !Observation(x)
    requires y < STAT_MAX && !Observation(y)
    ensures Terminals(trace) == 1 && Times(trace, y) == if y == x then 1 else 0
    decreases |trace|
  {
    if trace[0] == x {
      NoTerminalsLeft(trace[1..], y);
    } else {
      OnlyTerminal(trace[1..], x, y);
    }
  }

  lemma {:induction false} NoTerminalsLeft(trace: seq<Stat>, y: Stat)
    requires Terminals(trace) == 0 && y < STAT_MAX && !Observation(y)
    ensures Times(trace, y) == 0
  {
    if trace == [] {
    } else {
      NoTerminalsLeft(trace[1..], y);
    }
  }

  /**
   * Of the terminal counters a packet moves the one that names what became of
   * it, once, and no other.
   */
  lemma TerminalNamesTheCause(t: Tables, d: Data, f: Frame, e: Env, x: Stat)
    requires |f| < TWO32 && x < STAT_MAX && !Observation(x)
    ensures Times(Step(t, d, f, e).trace, x) == if Names(t, d, f, e, x) then 1 else 0
  {
    hide Judge, Names, Step, Terminals, Times;
    var tr := Step(t, d, f, e).trace;
    var y := LastNames(t, d, f, e);
    StepHasOneTerminal(t, d, f, e);
    NamesOnce(t, d, f, e, y, y);
    OnlyTerminal(tr, y, x);
    if Names(t, d, f, e, x) { NamesOnce(t, d, f, e, x, y); }
  }

  lemma LastNames(t: Tables, d: Data, f: Frame, e: Env) returns (y: Stat)
    requires |f| < TWO32
    ensures Names(t, d, f, e, y) && y in Step(t, d, f, e).trace
  {
    hide Judge, NamesRule, DecodeFrame;
    if t.cfg.None? {
      y := ERR_CFG_MISSING;
    } else {
      JudgeNames(t, d, f, e);
      var tr := Judge(t, t.cfg.value, d, f, e).trace;
      y := tr[|tr| - 1];
      assert y in tr;
    }
  }

  // --------------------------------------------------- the observations

  /** Candidates that describe the packet but come before the first in force: rules past their deadline. */
  ghost function PassedOver(cs: seq<Hit>, p: Pkt): nat {
    if cs == [] || InForce(cs[0], p) then 0
    else (if cs[0].Hit? && Describes(cs[0].rule, p) then 1 else 0) + PassedOver(cs[1..], p)
  }

  lemma {:induction false} ExpiredArePassedOver(rules: seq<Rule>, p: Pkt, level: Level)
    ensures Times(ExpiredSeen(rules, p), PASS_RULE_EXPIRED) == PassedOver(Tagged(rules, level), p)
    decreases |rules|
  {
    hide Describes, RuleMatch;
    if rules == [] {
    } else {
      var cs := Tagged(rules, level);
      assert cs[0] == Hit(rules[0], level) && cs[1..] == Tagged(rules[1..], level);
      MatchIsDescription(rules[0], p);
      LiveIsInForce(rules[0], level, p);
      if !Live(rules[0], p) {
        ExpiredArePassedOver(rules[1..], p, level);
        var first := if RuleMatch(rules[0], p) then [PASS_RULE_EXPIRED] else [];
        assert ExpiredSeen(rules, p) == first + ExpiredSeen(rules[1..], p);
        TimesJoin(first, ExpiredSeen(rules[1..], p), PASS_RULE_EXPIRED);
        TimesOne(PASS_RULE_EXPIRED, PASS_RULE_EXPIRED);
        assert Times(first, PASS_RULE_EXPIRED) == |first|;
      }
    }
  }

  ghost predicate AnyInForce(cs: seq<Hit>, p: Pkt) {
    exists i :: 0 <= i < |cs| && InForce(cs[i], p)
  }

  lemma {:induction false} PassedOverJoin(a: seq<Hit>, b: seq<Hit>, p: Pkt)
    ensures PassedOver(a + b, p) == PassedOver(a, p) + if AnyInForce(a, p) then 0 else PassedOver(b, p)
    decreases |a|
  {
    hide InForce, Describes;
    if a == [] {
      assert a + b == b;
    } else {
      assert (a + b)[0] == a[0] && (a + b)[1..] == a[1..] + b;
      PassedOverJoin(a[1..], b, p);
      assert AnyInForce(a[1..], p) ==> AnyInForce(a, p) by {
        if AnyInForce(a[1..], p) {
          var i :| 0 <= i < |a[1..]| && InForce(a[1..][i], p);
          assert InForce(a[i + 1], p);
        }
      }
      if AnyInForce(a, p) && !InForce(a[0], p) {
        var i :| 0 <= i < |a| && InForce(a[i], p);
        assert InForce(a[1..][i - 1], p);
      }
    }
  }

  lemma PicksAny(h: Hit, cs: seq<Hit>, p: Pkt)
    requires Picks(h, cs, p)
    ensures h.Hit? <==> AnyInForce(cs, p)
  {
    hide InForce;
    if h.Hit? {
      var i: nat :| FirstAt(cs, i, p) && cs[i] == h;
      assert InForce(cs[i], p);
    }
  }

  lemma PolicyPassesOver(policy: Policy, p: Pkt, level: Level)
    ensures Times(ScanPolicy(policy, p, level).trace, PASS_RULE_EXPIRED)
            == PassedOver(Tagged(RulesOf(policy), level), p)
    ensures Times(ScanPolicy(policy, p, level).trace, ERR_POLICY_MISSING) == if policy.MissingBlock? then 1 else 0
  {
    hide ExpiredSeen, FirstLive, InForce;
    match policy
    case NoPolicy =>
      assert Tagged([], level) == [];
    case MissingBlock =>
      assert Tagged([], level) == [];
      TimesOne(ERR_POLICY_MISSING, PASS_RULE_EXPIRED);
      TimesOne(ERR_POLICY_MISSING, ERR_POLICY_MISSING);
    case Rules(rules) =>
      ExpiredArePassedOver(rules, p, level);
      SeesOnlyExpired(rules, p);
      TimesZero(ExpiredSeen(rules, p), ERR_POLICY_MISSING);
  }

  /**
   * The scans count every candidate that describes the packet and comes before
   * the deciding one, and every missing block they get as far as: the source's
   * if no static is in force, the destination's if no source rule is either.
   */
  lemma ScansCount(t: Tables, c: Config, p: Pkt)
    ensures var tr := Rule3to5(t, c, p).trace;
      var statics, src := Tagged(StaticsFrom(t, c, 0), Static), PolicyOf(t, c, p.src, p.isV6);
      var dst := PolicyOf(t, c, p.dst, p.isV6);
      var past3 := !AnyInForce(statics, p);
      var past4 := past3 && !AnyInForce(Tagged(RulesOf(src), DynSrc), p);
      && Times(tr, PASS_RULE_EXPIRED) == PassedOver(Candidates(t, c, p), p)
      && Times(tr, ERR_POLICY_MISSING)
         == (if past3 && src.MissingBlock? then 1 else 0) + (if past4 && dst.MissingBlock? then 1 else 0)
  {
    hide StaticsFrom, PolicyOf, ScanPolicy, ExpiredSeen, FirstLive, Tagged, RulesOf, PassedOver, AnyInForce, Picks;
    var statics, src, dst := StaticsFrom(t, c, 0), PolicyOf(t, c, p.src, p.isV6), PolicyOf(t, c, p.dst, p.isV6);
    var c3, c4, c5 := Tagged(statics, Static), Tagged(RulesOf(src), DynSrc), Tagged(RulesOf(dst), DynDst);
    var r3, r4, r5 := ScanRules(statics, p, Static), ScanPolicy(src, p, DynSrc), ScanPolicy(dst, p, DynDst);
    ScanPicks(statics, p, Static);
    PolicyPicks(src, p, DynSrc);
    PicksAny(r3.hit, c3, p);
    PicksAny(r4.hit, c4, p);
    ExpiredArePassedOver(statics, p, Static);
    SeesOnlyExpired(statics, p);
    TimesZero(r3.trace, ERR_POLICY_MISSING);
    PolicyPassesOver(src, p, DynSrc);
    PolicyPassesOver(dst, p, DynDst);
    PassedOverJoin(c3, c4 + c5, p);
    PassedOverJoin(c4, c5, p);
    assert c3 + (c4 + c5) == c3 + c4 + c5;
    TimesJoin(r4.trace, r5.trace, PASS_RULE_EXPIRED);
    TimesJoin(r4.trace, r5.trace, ERR_POLICY_MISSING);
    TimesJoin(r3.trace, Then(r4, r5).trace, PASS_RULE_EXPIRED);
    TimesJoin(r3.trace, Then(r4, r5).trace, ERR_POLICY_MISSING);
  }

  /** Nothing but the rules' scans makes a scan's observations, and nothing but the parser the fragment one. */
  lemma EngageObserves(t: Tables, c: Config, d: Data, f: Frame, p: Pkt, e: Env, x: Stat)
    requires |f| < TWO32 && (ScanStat(x) || x == PASS_FRAG_NOPORTS)
    ensures Times(Engage(t, c, d, f, p, e).trace, x) == Times(Rule3to5(t, c, p).trace, x)
  {
    hide Rule3to5, Apply, Samples, Sampled, Record;
    var o, r := Observe(c, d, f, p, e), Rule3to5(t, c, p);
    TimesZero(o.trace, x);
    var rest := [PASS_DEFAULT];
    if r.hit.Hit? {
      ApplyNames(t, o.d, p, r.hit, |f|, e);
      ApplyDecides(t, o.d, p, r.hit, |f|, e);
      rest := Apply(t, o.d, p, r.hit, |f|, e).trace;
    }
    TimesZero(rest, x);
    assert Engage(t, c, d, f, p, e).trace == o.trace + (r.trace + rest);
    TimesJoin(r.trace, rest, x);
    TimesJoin(o.trace, r.trace + rest, x);
  }

  /**
   * Every observation counter of the rules moves as often as the scans say, for
   * a packet that reaches them, and else not.
   */
  lemma ObservationsAreExact(t: Tables, d: Data, f: Frame, e: Env, x: Stat)
    requires |f| < TWO32 && (ScanStat(x) || x == PASS_FRAG_NOPORTS)
    ensures Times(Step(t, d, f, e).trace, x) ==
      if x == PASS_FRAG_NOPORTS then
        (if t.cfg.Some? && DecodeFrame(f).Understood?
            && DecodeFrame(f).pkt.isFrag && !DecodeFrame(f).pkt.havePorts then 1 else 0)
      else if Engaged(t, f, e) then Times(Rule3to5(t, t.cfg.value, Seen(DecodeFrame(f).pkt, f, e)).trace, x)
      else 0
  {
    hide Engage, DecodeFrame, Allowed, Protected, Covered, Rule3to5, Times;
    if t.cfg.None? {
      TimesZero([ERR_CFG_MISSING], x);
    } else {
      var c := t.cfg.value;
      var j := Judge(t, c, d, f, e);
      TimesJoin(j.trace, [DRYRUN_WOULD_DROP], x);
      TimesZero([DRYRUN_WOULD_DROP], x);
      if DecodeFrame(f).Understood? {
        var p := Seen(DecodeFrame(f).pkt, f, e);
        AllowedIsCovered(t, p);
        ProtectedIsCovered(t, p);
        EngageObserves(t, c, d, f, p, e, x);
        FragCounted(p, x);
        RulingMakesNoFragment(t, c, p);
        TimesZero([PASS_ALLOW_SRC], x);
        TimesZero([PASS_PROTECT_DST], x);
        TimesJoin(FragSeen(p), [PASS_ALLOW_SRC], x);
        TimesJoin(FragSeen(p), [PASS_PROTECT_DST], x);
        TimesJoin(FragSeen(p), Engage(t, c, d, f, p, e).trace, x);
      } else {
        TimesZero(j.trace, x);
      }
    }
  }

  lemma FragCounted(p: Pkt, x: Stat)
    ensures Times(FragSeen(p), x) == if x == PASS_FRAG_NOPORTS && p.isFrag && !p.havePorts then 1 else 0
  {
    TimesOne(PASS_FRAG_NOPORTS, x);
  }

  lemma RulingMakesNoFragment(t: Tables, c: Config, p: Pkt)
    ensures Times(Rule3to5(t, c, p).trace, PASS_FRAG_NOPORTS) == 0
  {
    hide Rule3to5;
    RulingSees(t, c, p);
    TimesZero(Rule3to5(t, c, p).trace, PASS_FRAG_NOPORTS);
  }

  // ------------------------------------------------- the rules' counters

  /** The packet reaches the rules and the rule with this id decides it. */
  ghost predicate DecidedBy(t: Tables, f: Frame, e: Env, id: u32)
    requires |f| < TWO32
  {
    Engaged(t, f, e)
    && exists h: Hit :: h.Hit? && h.rule.ruleId == id && Decides(t, t.cfg.value, Seen(DecodeFrame(f).pkt, f, e), h)
  }

  lemma LimitLeavesRuleStats(t: Tables, d: Data, p: Pkt, anchor: Addr, profile: u32, len: u32, e: Env)
    ensures RateLimit(t, d, p, anchor, profile, len, e).d.ruleStats == d.ruleStats
  {
    hide KeyOf, BucketFor;
  }

  lemma ApplyCounts(t: Tables, d: Data, p: Pkt, h: Hit, len: u32, e: Env)
    requires h.Hit?
    ensures Apply(t, d, p, h, len, e).d.ruleStats.Keys == d.ruleStats.Keys
    ensures forall id | id in d.ruleStats ::
      Apply(t, d, p, h, len, e).d.ruleStats[id] ==
        if id == h.rule.ruleId then Counter(d.ruleStats[id].pkts + 1, d.ruleStats[id].bytes + len)
        else d.ruleStats[id]
  {
    hide RateLimit;
    LimitLeavesRuleStats(t, CountRule(d, h.rule.ruleId, len), p, h.level.Anchor(p), h.rule.profile, len, e);
  }

  lemma EngageCounts(t: Tables, c: Config, d: Data, f: Frame, p: Pkt, e: Env, id: u32)
    requires |f| < TWO32 && id in d.ruleStats
    ensures var s, s' := d.ruleStats, Engage(t, c, d, f, p, e).d.ruleStats;
      && s'.Keys == s.Keys
      && s'[id] == if exists h: Hit :: h.Hit? && h.rule.ruleId == id && Decides(t, c, p, h)
                   then Counter(s[id].pkts + 1, s[id].bytes + |f|) else s[id]
  {
    hide Rule3to5, Apply, Samples, Sampled, Record, Decides, NoneDecides;
    var o, h := Observe(c, d, f, p, e), Rule3to5(t, c, p).hit;
    DecidesIsHit(t, c, p);
    if h.Hit? {
      ApplyCounts(t, o.d, p, h, |f|, e);
    } else {
      NoneMeansNot(t, c, p);
    }
  }

  lemma NoneMeansNot(t: Tables, c: Config, p: Pkt)
    requires NoneDecides(t, c, p)
    ensures forall h :: !Decides(t, c, p, h)
  {
    hide Candidates, InForce;
    var cs := Candidates(t, c, p);
    assert forall i: nat :: !FirstAt(cs, i, p);
  }

  /**
   * A rule's own counter gains the packet and its octets exactly when that rule
   * decides it, and no entry comes or goes.
   */
  lemma RuleCounterIsExact(t: Tables, d: Data, f: Frame, e: Env, id: u32)
    requires |f| < TWO32 && id in d.ruleStats
    ensures var s, s' := d.ruleStats, Step(t, d, f, e).d.ruleStats;
      && s'.Keys == s.Keys
      && s'[id] == if DecidedBy(t, f, e, id) then Counter(s[id].pkts + 1, s[id].bytes + |f|) else s[id]
  {
    hide Engage, DecodeFrame, Allowed, Protected, Covered, Decides;
    if t.cfg.Some? && DecodeFrame(f).Understood? {
      var p := Seen(DecodeFrame(f).pkt, f, e);
      AllowedIsCovered(t, p);
      ProtectedIsCovered(t, p);
      EngageCounts(t, t.cfg.value, d, f, p, e, id);
    }
  }

  /** How many packets of a run the rule with this id decides, and their octets. */
  ghost function Decided(ins: seq<Input>, id: u32): nat {
    if ins == [] then 0 else (if DecidedBy(ins[0].t, ins[0].f, ins[0].e, id) then 1 else 0) + Decided(ins[1..], id)
  }

  ghost function DecidedBytes(ins: seq<Input>, id: u32): nat {
    if ins == [] then 0
    else (if DecidedBy(ins[0].t, ins[0].f, ins[0].e, id) then |ins[0].f| else 0) + DecidedBytes(ins[1..], id)
  }

  /** A rule counter that userspace leaves alone counts exactly the packets its rule decided. */
  lemma {:induction false} RuleCountersConserve(d: Data, ins: seq<Input>, id: u32)
    requires id in d.ruleStats && forall i | i in ins :: id !in i.added && id !in i.removed
    ensures id in Run(d, ins).ruleStats
    ensures Run(d, ins).ruleStats[id]
            == Counter(d.ruleStats[id].pkts + Decided(ins, id), d.ruleStats[id].bytes + DecidedBytes(ins, id))
    decreases |ins|
  {
    hide DecidedBy, Step;
    if ins == [] {
    } else {
      var i := ins[0];
      assert i in ins && forall j | j in ins[1..] :: j in ins;
      RuleCounterIsExact(i.t, Primed(i, d), i.f, i.e, id);
      RuleCountersConserve(NextOn(i, d), ins[1..], id);
    }
  }

  /** Userspace's own moves between packets: entries added start at zero, entries removed are gone, the rest stay. */
  lemma UserspaceMoves(i: Input, d: Data, id: u32)
    ensures var s, s' := d.ruleStats, Primed(i, d).ruleStats;
      && (id in i.added ==> id in s' && s'[id] == Counter(0, 0))
      && (id !in i.added && id in i.removed ==> id !in s')
      && (id !in i.added && id !in i.removed ==> (id in s' <==> id in s) && (id in s ==> s'[id] == s[id]))
    ensures Primed(i, d) == d.(ruleStats := Primed(i, d).ruleStats)
  {}

  /** A packet that does not reach the rules leaves every map but the counters as it was. */
  lemma UnengagedIsUntouched(t: Tables, d: Data, f: Frame, e: Env)
    requires |f| < TWO32 && !Engaged(t, f, e)
    ensures Step(t, d, f, e).d == d
  {
    hide Engage, DecodeFrame, Allowed, Protected, Covered;
    if t.cfg.Some? && DecodeFrame(f).Understood? {
      var p := Seen(DecodeFrame(f).pkt, f, e);
      AllowedIsCovered(t, p);
      ProtectedIsCovered(t, p);
    }
  }
}
