/** The packet filter itself: maps updated in place, one call per packet. */
module Filter {
  import opened Basics
  import opened Wire
  import opened Packet
  import opened Decode
  import P = Parser
  import opened Matcher
  import opened TokenBucket
  import opened Tables
  import opened Decision
  import opened Lookups

  class XdpFilter {
    // written by userspace
    var cfg: Option<Config>
    var allow4: Trie<bv8>
    var allow6: Trie<bv8>
    var protect4: Trie<bv8>
    var protect6: Trie<bv8>
    var victims4: Trie<u32>
    var victims6: Trie<u32>
    var statics: seq<Rule>
    var policies: seq<Block>
    var profiles: seq<Profile>
    // written by the data plane
    var rl4: map<Key, Bucket>
    var rl6: map<Key, Bucket>
    var ruleStats: map<u32, Counter>
    var stats: Stats
    var sampler: Option<Sampler>
    var ring: seq<Event>

    constructor ()
      ensures cfg == None && ring == [] && forall i | 0 <= i < STAT_MAX :: stats[i] == Counter(0, 0)
    {
      cfg := None;
      allow4, allow6, protect4, protect6 := map[], map[], map[], map[];
      victims4, victims6 := map[], map[];
      statics, policies, profiles := [], [], [];
      rl4, rl6, ruleStats := map[], map[], map[];
      stats := seq(STAT_MAX, _ => Counter(0, 0));
      sampler := Some(Sampler(0, 0));
      ring := [];
    }

    function TablesNow(): Tables
      reads this
    {
      Tables(cfg, allow4, allow6, protect4, protect6, victims4, victims6, statics, policies, profiles)
    }

    function DataNow(): Data
      reads this
    {
      Data(rl4, rl6, ruleStats, stats, sampler, ring)
    }

    method Count(stat: Stat, len: nat)
      modifies this`stats
      ensures stats == Bump(old(stats), stat, len)
    {
      if stat < STAT_MAX {
        stats := stats[stat := Counter(stats[stat].pkts + 1, stats[stat].bytes + len)];
      }
    }

    // ------------------------------------------------------ rate limiting

    method Admit4(k: Key, prof: Profile, len: u32, e: Env) returns (admit: bool)
      modifies this`rl4
      ensures var b := BucketFor(old(rl4), k, prof, e);
              var m := if k in old(rl4) then old(rl4) else old(rl4) - e.evicted;
              if b.None? then admit && rl4 == m
              else admit == Admits(prof, b.value, e.now, len) && rl4 == m[k := After(prof, b.value, e.now, len)]
    {
      if k !in rl4 {
        rl4 := rl4 - e.evicted;
        if e.insertOk { rl4 := rl4[k := Fresh(prof, e.now)]; }
      }
      if k !in rl4 { return true; }
      var b: Bucket;
      admit, b := Spend(prof, rl4[k], e.now, len);
      rl4 := rl4[k := b];
    }

    method Admit6(k: Key, prof: Profile, len: u32, e: Env) returns (admit: bool)
      modifies this`rl6
      ensures var b := BucketFor(old(rl6), k, prof, e);
              var m := if k in old(rl6) then old(rl6) else old(rl6) - e.evicted;
              if b.None? then admit && rl6 == m
              else admit == Admits(prof, b.value, e.now, len) && rl6 == m[k := After(prof, b.value, e.now, len)]
    {
      if k !in rl6 {
        rl6 := rl6 - e.evicted;
        if e.insertOk { rl6 := rl6[k := Fresh(prof, e.now)]; }
      }
      if k !in rl6 { return true; }
      var b: Bucket;
      admit, b := Spend(prof, rl6[k], e.now, len);
      rl6 := rl6[k := b];
    }

    method RlAdmit(p: Pkt, anchor: Addr, profileId: u32, len: u32, e: Env) returns (admit: bool)
      modifies this`rl4, this`rl6
      ensures Limited(admit, DataNow()) == RateLimit(TablesNow(), old(DataNow()), p, anchor, profileId, len, e)
    {
      if profileId >= |profiles| { return true; }
      var prof := profiles[profileId];
      if prof.ratePps == 0 && prof.rateBps == 0 { return true; }
      if p.isV6 {
        admit := Admit6(Key(anchor, p.src, profileId), prof, len, e);
      } else {
        admit := Admit4(Key(anchor[..4], p.src[..4], profileId), prof, len, e);
      }
    }

    // ----------------------------------------------------- applying a rule

    method CountForRule(id: u32, len: u32)
      modifies this`ruleStats
      ensures DataNow() == CountRule(old(DataNow()), id, len)
    {
      if id in ruleStats {
        var c := ruleStats[id];
        ruleStats := ruleStats[id := Counter(c.pkts + 1, c.bytes + len)];
      }
    }

    method ApplyRule(r: Rule, level: Level, p: Pkt, len: u32, e: Env) returns (dec: Dec)
      modifies this`rl4, this`rl6, this`ruleStats, this`stats
      ensures var a := Apply(TablesNow(), old(DataNow()), p, Hit(r, level), len, e);
              dec == a.dec && DataNow() == a.d.(stats := BumpAll(old(stats), a.trace, len))
    {
      hide RateLimit, CountRule, BumpAll, Bump;
      CountForRule(r.ruleId, len);
      BumpOne(stats, level.Drop(), len);
      BumpOne(stats, level.Pass(), len);
      BumpOne(stats, PASS_RL_ADMIT, len);
      BumpOne(stats, DROP_RL, len);
      if r.action == ACT_DROP {
        Count(level.Drop(), len);
        return DROP;
      }
      if r.action == ACT_RATELIMIT {
        var admit := RlAdmit(p, level.Anchor(p), r.profile, len, e);
        if admit {
          Count(PASS_RL_ADMIT, len);
          return PASS;
        }
        Count(DROP_RL, len);
        return DROP;
      }
      Count(level.Pass(), len);
      return PASS;
    }

    /** A decision and the current state carry out a ruling on the data `was`. */
    ghost predicate Carries(dec: Dec, r: Ruling, was: Data, p: Pkt, len: u32, e: Env)
      reads this
    {
      if r.hit.NoHit? then dec == NOMATCH && DataNow() == was.(stats := BumpAll(was.stats, r.trace, len))
      else
        var a := Apply(TablesNow(), was, p, r.hit, len, e);
        dec == a.dec && DataNow() == a.d.(stats := BumpAll(was.stats, r.trace + a.trace, len))
    }

    /** A matched rule after some observations: the observations come first in the trace. */
    lemma AppliedAfter(was: Data, seen: seq<Stat>, d: Data, r: Rule, level: Level, p: Pkt, len: u32, e: Env)
      requires d == was.(stats := BumpAll(was.stats, seen, len))
      ensures var a := Apply(TablesNow(), was, p, Hit(r, level), len, e);
              var b := Apply(TablesNow(), d, p, Hit(r, level), len, e);
              && b.dec == a.dec
              && b.d.(stats := BumpAll(d.stats, b.trace, len)) == a.d.(stats := BumpAll(was.stats, seen + a.trace, len))
    {
      hide Apply, BumpAll;
      ApplyLeavesStats(TablesNow(), was, p, Hit(r, level), len, e, d.stats);
      BumpSplits(was.stats, seen, Apply(TablesNow(), was, p, Hit(r, level), len, e).trace, len);
    }

    /** So far only the observations `seen` have been counted. */
    ghost predicate Counted(was: Data, seen: seq<Stat>, len: nat)
      reads this
    {
      DataNow() == was.(stats := BumpAll(was.stats, seen, len))
    }

    lemma NothingCounted(len: nat)
      ensures Counted(DataNow(), [], len)
    {}

    lemma CountedCarries(was: Data, seen: seq<Stat>, p: Pkt, len: u32, e: Env)
      requires Counted(was, seen, len)
      ensures Carries(NOMATCH, Ruling(seen, NoHit), was, p, len, e)
    {}

    method CountExpired(ghost was: Data, ghost seen: seq<Stat>, len: u32)
      requires Counted(was, seen, len)
      modifies this`stats
      ensures Counted(was, seen + [PASS_RULE_EXPIRED], len)
    {
      hide BumpAll, Bump;
      BumpLast(was.stats, seen, PASS_RULE_EXPIRED, len);
      Count(PASS_RULE_EXPIRED, len);
    }

    method ApplyAfter(ghost was: Data, ghost seen: seq<Stat>, r: Rule, level: Level, p: Pkt, len: u32, e: Env)
      returns (dec: Dec)
      requires Counted(was, seen, len)
      modifies this`rl4, this`rl6, this`ruleStats, this`stats
      ensures Carries(dec, Ruling(seen, Hit(r, level)), was, p, len, e)
    {
      hide Apply, BumpAll, Bump;
      AppliedAfter(was, seen, DataNow(), r, level, p, len, e);
      dec := ApplyRule(r, level, p, len, e);
    }

    /** The scan of one victim's block, eight slots at most. */
    method ScanSlots(pol: Block, level: Level, p: Pkt, len: u32, e: Env) returns (dec: Dec)
      modifies this`rl4, this`rl6, this`ruleStats, this`stats
      ensures var live := pol.rules[..if pol.nRules > RULES_PER_POLICY then RULES_PER_POLICY else pol.nRules];
              Carries(dec, ScanRules(live, p, level), old(DataNow()), p, len, e)
    {
      hide RuleMatch, Pending, ScanRules, Counted, Carries;
      ghost var rules := pol.rules[..if pol.nRules > RULES_PER_POLICY then RULES_PER_POLICY else pol.nRules];
      ghost var seen: seq<Stat> := [];
      ghost var was := DataNow();
      ScanStarts(rules, p);
      NothingCounted(len);
      assert rules[0..] == rules;
      var i := 0;
      while i < RULES_PER_POLICY
        invariant 0 <= i <= |rules|
        invariant Pending(rules, rules[i..], seen, p)
        invariant Counted(was, seen, len)
      {
        if i >= pol.nRules { break; }
        var r := pol.rules[i];
        ghost var rest := rules[i..];
        assert rest[0] == r && rest[1..] == rules[i + 1..];
        i := i + 1;
        if !RuleMatch(r, p) {
          ScanSkips(rules, rest, seen, p);
          continue;
        }
        if r.expiresAt != 0 && r.expiresAt <= p.now {
          ScanPassesExpired(rules, rest, seen, p);
          CountExpired(was, seen, len);
          seen := seen + [PASS_RULE_EXPIRED];
          continue;
        }
        ScanHits(rules, rest, seen, p, level);
        dec := ApplyAfter(was, seen, r, level, p, len, e);
        return;
      }
      assert rules[i..] == [];
      ScanEnds(rules, seen, p, level);
      CountedCarries(was, seen, p, len, e);
      return NOMATCH;
    }

    lemma NothingCarried(p: Pkt, len: u32, e: Env)
      ensures Carries(NOMATCH, Ruling([], NoHit), DataNow(), p, len, e)
    {
      BumpNone(stats, len);
    }

    lemma MissingCarried(was: Data, p: Pkt, len: u32, e: Env)
      requires DataNow() == was.(stats := Bump(was.stats, ERR_POLICY_MISSING, len))
      ensures Carries(NOMATCH, Ruling([ERR_POLICY_MISSING], NoHit), was, p, len, e)
    {
      BumpOne(was.stats, ERR_POLICY_MISSING, len);
    }

    method ScanPolicyOf(anchor: Addr, level: Level, c: Config, p: Pkt, len: u32, e: Env) returns (dec: Dec)
      modifies this`rl4, this`rl6, this`ruleStats, this`stats
      ensures var r := ScanPolicy(PolicyOf(TablesNow(), c, anchor, p.isV6), p, level);
              Carries(dec, r, old(DataNow()), p, len, e)
    {
      hide Apply, BumpAll, Bump, ScanRules, Lookup, AddrBits, Carries;
      var found := if p.isV6 then Lookup(victims6, AddrBits(anchor, true))
                   else Lookup(victims4, AddrBits(anchor, false));
      if found.None? {
        NothingCarried(p, len, e);
        return NOMATCH;
      }
      var idx := ((c.generation * c.policyStride) % TWO32 + found.value) % TWO32;
      ghost var was := DataNow();
      if idx >= |policies| {
        Count(ERR_POLICY_MISSING, len);
        MissingCarried(was, p, len, e);
        return NOMATCH;
      }
      dec := ScanSlots(policies[idx], level, p, len, e);
    }

    // ------------------------------------------------ levels three to five

    lemma NextStatic(t: Tables, c: Config, i: nat)
      ensures StaticsFrom(t, c, i) ==
              if i >= StaticLimit(c) || StaticKey(c, i) >= |t.statics| then []
              else [t.statics[StaticKey(c, i)]] + StaticsFrom(t, c, i + 1)
    {}

    method ScanStatics(c: Config, p: Pkt, len: u32, e: Env) returns (dec: Dec)
      modifies this`rl4, this`rl6, this`ruleStats, this`stats
      ensures Carries(dec, ScanRules(StaticsFrom(TablesNow(), c, 0), p, Static), old(DataNow()), p, len, e)
    {
      hide RuleMatch, Pending, ScanRules, StaticsFrom, Counted, Carries;
      var nStatic := c.staticCount;
      if nStatic > MAX_STATIC_RULES { nStatic := MAX_STATIC_RULES; }
      var base := (c.generation * c.staticStride) % TWO32;
      ghost var t := TablesNow();
      ghost var rules := StaticsFrom(t, c, 0);
      ghost var seen: seq<Stat> := [];
      ghost var was := DataNow();
      ScanStarts(rules, p);
      NothingCounted(len);
      var i := 0;
      while i < MAX_STATIC_RULES
        invariant 0 <= i <= nStatic
        invariant Pending(rules, StaticsFrom(t, c, i), seen, p)
        invariant TablesNow() == t && Counted(was, seen, len)
      {
        ghost var rest := StaticsFrom(t, c, i);
        NextStatic(t, c, i);
        if i >= nStatic { break; }
        var key := (base + i) % TWO32;
        if key >= |statics| { break; }
        var r := statics[key];
        assert rest[0] == r && rest[1..] == StaticsFrom(t, c, i + 1);
        i := i + 1;
        if !RuleMatch(r, p) {
          ScanSkips(rules, rest, seen, p);
          continue;
        }
        if r.expiresAt != 0 && r.expiresAt <= p.now {
          ScanPassesExpired(rules, rest, seen, p);
          CountExpired(was, seen, len);
          seen := seen + [PASS_RULE_EXPIRED];
          continue;
        }
        ScanHits(rules, rest, seen, p, Static);
        dec := ApplyAfter(was, seen, r, Static, p, len, e);
        return;
      }
      NextStatic(t, c, i);
      ScanEnds(rules, seen, p, Static);
      CountedCarries(was, seen, p, len, e);
      return NOMATCH;
    }

    /** Two rulings carried out one after the other carry out their sequence. */
    lemma CarriesThen(was: Data, mid: Data, a: Ruling, b: Ruling, dec: Dec, p: Pkt, len: u32, e: Env)
      requires a.hit.NoHit? && mid == was.(stats := BumpAll(was.stats, a.trace, len))
      requires Carries(dec, b, mid, p, len, e)
      ensures Carries(dec, Then(a, b), was, p, len, e)
    {
      hide Apply, BumpAll;
      BumpSplits(was.stats, a.trace, b.trace, len);
      if b.hit.Hit? {
        var x := Apply(TablesNow(), was, p, b.hit, len, e);
        ApplyLeavesStats(TablesNow(), was, p, b.hit, len, e, mid.stats);
        BumpSplits(was.stats, a.trace, b.trace + x.trace, len);
        assert a.trace + b.trace + x.trace == a.trace + (b.trace + x.trace);
      }
    }

    lemma CarriesDecides(dec: Dec, r: Ruling, was: Data, p: Pkt, len: u32, e: Env)
      requires Carries(dec, r, was, p, len, e)
      ensures dec == NOMATCH <==> r.hit.NoHit?
    {
      hide RateLimit, BumpAll, CountRule;
    }

    method DecideRules(c: Config, p: Pkt, len: u32, e: Env) returns (dec: Dec)
      modifies this`rl4, this`rl6, this`ruleStats, this`stats
      ensures Carries(dec, Rule3to5(TablesNow(), c, p), old(DataNow()), p, len, e)
    {
      hide Apply, BumpAll, ScanRules, ScanPolicy, StaticsFrom, PolicyOf;
      ghost var t, was := TablesNow(), DataNow();
      ghost var r3 := ScanRules(StaticsFrom(t, c, 0), p, Static);
      ghost var r4 := ScanPolicy(PolicyOf(t, c, p.src, p.isV6), p, DynSrc);
      ghost var r5 := ScanPolicy(PolicyOf(t, c, p.dst, p.isV6), p, DynDst);
      dec := ScanStatics(c, p, len, e);
      CarriesDecides(dec, r3, was, p, len, e);
      if dec != NOMATCH { return; }
      ghost var mid3 := DataNow();
      dec := ScanPolicyOf(p.src, DynSrc, c, p, len, e);
      CarriesDecides(dec, r4, mid3, p, len, e);
      if dec != NOMATCH {
        CarriesThen(was, mid3, r3, Then(r4, r5), dec, p, len, e);
        return;
      }
      ghost var mid4 := DataNow();
      dec := ScanPolicyOf(p.dst, DynDst, c, p, len, e);
      CarriesThen(mid3, mid4, r4, r5, dec, p, len, e);
      CarriesThen(was, mid3, r3, Then(r4, r5), dec, p, len, e);
    }

    // -------------------------------------------- the fingerprint plane

    method FpSample(c: Config, now: u64) returns (take: bool)
      modifies this`sampler
      ensures take == Samples(c, old(sampler), now)
      ensures sampler == Sampled(c, old(sampler), now)
    {
      if sampler.None? { return false; }
      var s := sampler.value;
      var delta := (now - s.last) % TWO64;
      if delta > TWO32 { delta := TWO32; }
      var tok := Refill(s.tokens, delta, c.fpRate, c.fpBurst);
      if tok < TWO32 {
        sampler := Some(Sampler(now, tok));
        return false;
      }
      sampler := Some(Sampler(now, tok - TWO32));
      return true;
    }

    method FpEmit(f: Frame, p: Pkt, e: Env)
      requires |f| < TWO32
      modifies this`ring, this`stats
      ensures ring == if e.slot.Some? then old(ring) + [Record(f, p, e.slot.value)] else old(ring)
      ensures stats == Bump(old(stats), if e.slot.Some? then FP_EMITTED else FP_RING_FULL, |f|)
    {
      if e.slot.None? {
        Count(FP_RING_FULL, |f|);
        return;
      }
      var slot := e.slot.value;
      var data := new bv8[SNAP_LEN](i requires 0 <= i < |slot| => slot[i]);
      var snap, i := 0, 0;
      while i < SNAP_LEN
        modifies data
        invariant 0 <= i <= SNAP_LEN && i <= |f| && snap == i
        invariant forall k | 0 <= k < i :: data[k] == f[k]
        invariant forall k | i <= k < SNAP_LEN :: data[k] == slot[k]
      {
        if i + 1 > |f| { break; }
        data[i] := f[i];
        snap := i + 1;
        i := i + 1;
      }
      assert data[..] == f[..snap] + slot[snap..];
      var axis := if p.isTls then MX_TLS_CLIENT_HELLO else MX_QUIC_INITIAL;
      ring := ring + [Event(p.src, p.dst, p.sport, p.dport, p.isV6, p.proto, axis,
                            |f| % TWO32, snap, p.fpOff % 0x1_0000, data[..])];
      Count(FP_EMITTED, |f|);
    }

    method ObserveHandshake(c: Config, f: Frame, p: Pkt, e: Env)
      requires |f| < TWO32
      modifies this`sampler, this`ring, this`stats
      ensures var o := Observe(c, old(DataNow()), f, p, e);
              DataNow() == o.d.(stats := BumpAll(old(stats), o.trace, |f|))
    {
      hide Record, Refilled;
      BumpNone(stats, |f|);
      if c.fpEnabled && (p.isTls || p.isQuic) {
        BumpOne(stats, FP_THROTTLED, |f|);
        BumpOne(stats, FP_EMITTED, |f|);
        BumpOne(stats, FP_RING_FULL, |f|);
        var take := FpSample(c, e.now);
        if take {
          FpEmit(f, p, e);
        } else {
          Count(FP_THROTTLED, |f|);
        }
      }
    }

    // ------------------------------------------------------- one packet

    /** The state has gone from `was` to the data of `o`, with the bumps of `o` made so far. */
    ghost predicate Reached(was: Data, o: Applied, len: nat)
      reads this
    {
      DataNow() == o.d.(stats := BumpAll(was.stats, o.trace, len))
    }

    /** A decision carried out after the bumps `tr` is that decision with `tr` in front of its trace. */
    lemma DecidedAfter(c: Config, was: Data, d: Data, tr: seq<Stat>, p: Pkt, len: u32, e: Env, mid: Data, dec: Dec)
      requires mid == d.(stats := BumpAll(was.stats, tr, len))
      requires Carries(dec, Rule3to5(TablesNow(), c, p), mid, p, len, e)
      ensures var a := Decide(TablesNow(), c, d, p, len, e);
              dec == a.dec && DataNow() == a.d.(stats := BumpAll(was.stats, tr + a.trace, len))
    {
      hide Apply, BumpAll, Rule3to5;
      var r := Rule3to5(TablesNow(), c, p);
      if r.hit.Hit? {
        var x := Apply(TablesNow(), d, p, r.hit, len, e);
        ApplyLeavesStats(TablesNow(), d, p, r.hit, len, e, mid.stats);
        BumpSplits(was.stats, tr, r.trace + x.trace, len);
      } else {
        BumpSplits(was.stats, tr, r.trace, len);
      }
    }

    /** Levels three to six, for a packet neither allowlisted nor protected. */
    method EngagePacket(c: Config, f: Frame, p: Pkt, e: Env) returns (dec: Dec)
      requires |f| < TWO32
      modifies this`rl4, this`rl6, this`ruleStats, this`stats, this`sampler, this`ring
      ensures var a := Engage(TablesNow(), c, old(DataNow()), f, p, e);
              dec == a.dec && Reached(old(DataNow()), a, |f|)
    {
      hide Apply, BumpAll, Bump, Observe, Decide, Rule3to5, Carries;
      ghost var was := DataNow();
      ObserveHandshake(c, f, p, e);
      ghost var mid := DataNow();
      dec := DecideRules(c, p, |f|, e);
      ghost var o := Observe(c, was, f, p, e);
      DecidedAfter(c, was, o.d, o.trace, p, |f|, e, mid, dec);
      ghost var a := Decide(TablesNow(), c, o.d, p, |f|, e);
      if dec == NOMATCH {
        BumpLast(was.stats, o.trace + a.trace, PASS_DEFAULT, |f|);
        Count(PASS_DEFAULT, |f|);
        dec := PASS;
      }
    }

    method IsAllowed(p: Pkt) returns (yes: bool)
      ensures yes == Allowed(TablesNow(), p)
      ensures yes <==> Covered(if p.isV6 then allow6 else allow4, p.src, p.isV6)
    {
      hide Lookup, AddrBits, Covered;
      FoundIffCovered(if p.isV6 then allow6 else allow4, p.src, p.isV6);
      if p.isV6 {
        yes := Lookup(allow6, AddrBits(p.src, true)).Some?;
      } else {
        yes := Lookup(allow4, AddrBits(p.src, false)).Some?;
      }
    }

    method IsProtected(p: Pkt) returns (yes: bool)
      ensures yes == Protected(TablesNow(), p)
      ensures yes <==> Covered(if p.isV6 then protect6 else protect4, p.dst, p.isV6)
    {
      hide Lookup, AddrBits, Covered;
      FoundIffCovered(if p.isV6 then protect6 else protect4, p.dst, p.isV6);
      if p.isV6 {
        yes := Lookup(protect6, AddrBits(p.dst, true)).Some?;
      } else {
        yes := Lookup(protect4, AddrBits(p.dst, false)).Some?;
      }
    }

    /** Everything after the fragment observation, carried out, is the whole of the gate. */
    lemma GateAfter(c: Config, was: Data, mid: Data, f: Frame, p: Pkt, e: Env, a: Applied)
      requires |f| < TWO32 && !Allowed(TablesNow(), p) && !Protected(TablesNow(), p)
      requires mid == was.(stats := BumpAll(was.stats, FragSeen(p), |f|))
      requires a == Engage(TablesNow(), c, mid, f, p, e) && Reached(mid, a, |f|)
      ensures a.dec == Gate(TablesNow(), c, was, f, p, e).dec
      ensures Reached(was, Gate(TablesNow(), c, was, f, p, e), |f|)
    {
      hide Engage, BumpAll, Allowed, Protected, FragSeen;
      EngageLeavesStats(TablesNow(), c, was, f, p, e, mid.stats);
      BumpSplits(was.stats, FragSeen(p), Engage(TablesNow(), c, was, f, p, e).trace, |f|);
    }

    method CountFragment(p: Pkt, len: u32)
      modifies this`stats
      ensures stats == BumpAll(old(stats), FragSeen(p), len)
    {
      hide BumpAll, Bump;
      BumpNone(stats, len);
      BumpOne(stats, PASS_FRAG_NOPORTS, len);
      if !p.havePorts && p.isFrag {
        Count(PASS_FRAG_NOPORTS, len);
      }
    }

    lemma GateListed(c: Config, was: Data, f: Frame, p: Pkt, e: Env, stat: Stat)
      requires |f| < TWO32
      requires if stat == PASS_ALLOW_SRC then Allowed(TablesNow(), p)
               else stat == PASS_PROTECT_DST && !Allowed(TablesNow(), p) && Protected(TablesNow(), p)
      ensures Gate(TablesNow(), c, was, f, p, e) == Applied(PASS, FragSeen(p) + [stat], was)
      ensures BumpAll(was.stats, FragSeen(p) + [stat], |f|) == Bump(BumpAll(was.stats, FragSeen(p), |f|), stat, |f|)
    {
      hide Engage, BumpAll, Bump, Allowed, Protected, FragSeen;
      BumpLast(was.stats, FragSeen(p), stat, |f|);
    }

    /** Levels one and two, once the fragment observation has been made. */
    method PassLists(c: Config, f: Frame, p: Pkt, e: Env, ghost was: Data) returns (dec: Dec)
      requires |f| < TWO32 && DataNow() == was.(stats := BumpAll(was.stats, FragSeen(p), |f|))
      modifies this`rl4, this`rl6, this`ruleStats, this`stats, this`sampler, this`ring
      ensures var a := Gate(TablesNow(), c, was, f, p, e); dec == a.dec && Reached(was, a, |f|)
    {
      hide Engage, Gate, BumpAll, Bump, Allowed, Protected, FragSeen;
      ghost var mid := DataNow();
      var allowed := IsAllowed(p);
      if allowed {
        GateListed(c, was, f, p, e, PASS_ALLOW_SRC);
        Count(PASS_ALLOW_SRC, |f|);
        return PASS;
      }
      var protected := IsProtected(p);
      if protected {
        GateListed(c, was, f, p, e, PASS_PROTECT_DST);
        Count(PASS_PROTECT_DST, |f|);
        return PASS;
      }
      dec := EngagePacket(c, f, p, e);
      GateAfter(c, was, mid, f, p, e, Engage(TablesNow(), c, mid, f, p, e));
    }

    method GatePacket(c: Config, f: Frame, p: Pkt, e: Env) returns (dec: Dec)
      requires |f| < TWO32
      modifies this`rl4, this`rl6, this`ruleStats, this`stats, this`sampler, this`ring
      ensures var a := Gate(TablesNow(), c, old(DataNow()), f, p, e);
              dec == a.dec && Reached(old(DataNow()), a, |f|)
    {
      hide Gate, BumpAll, Bump, FragSeen;
      ghost var was := DataNow();
      CountFragment(p, |f|);
      dec := PassLists(c, f, p, e, was);
    }

    /**
     * A frame that was not understood, from the parser's code for it: judged as
     * the frame deserves, and dropped only if it is malformed and the operator
     * asked for that.
     */
    method CountUnparsed(rc: P.Code, c: Config, f: Frame, e: Env) returns (dec: Dec)
      requires |f| < TWO32 && rc != P.OK && P.Reports(rc, BLANK, DecodeFrame(f))
      modifies this`stats
      ensures dec == DROP <==> DecodeFrame(f).Malformed? && c.dropMalformed
      ensures var a := Judge(TablesNow(), c, old(DataNow()), f, e);
              dec == a.dec && Reached(old(DataNow()), a, |f|)
    {
      hide Gate, BumpAll, Bump, DecodeFrame;
      BumpOne(stats, Judge(TablesNow(), c, DataNow(), f, e).trace[0], |f|);
      if rc == P.NOT_IP {
        Count(PASS_NOT_IP, |f|);
        return PASS;
      } else if rc == P.VLAN_DEPTH {
        Count(PASS_VLAN_DEPTH, |f|);
        return PASS;
      } else if rc == P.EXTHDR_CAP {
        Count(PASS_EXTHDR_CAP, |f|);
        return PASS;
      } else if c.dropMalformed {
        Count(DROP_MALFORMED, |f|);
        return DROP;
      }
      Count(PASS_MALFORMED, |f|);
      return PASS;
    }

    method JudgePacket(c: Config, f: Frame, e: Env) returns (dec: Dec)
      requires |f| < TWO32
      modifies this`rl4, this`rl6, this`ruleStats, this`stats, this`sampler, this`ring
      ensures var a := Judge(TablesNow(), c, old(DataNow()), f, e);
              dec == a.dec && Reached(old(DataNow()), a, |f|)
    {
      hide Gate, BumpAll, Bump, DecodeFrame;
      var rc, pkt := P.Parse(f);
      if rc == P.OK {
        dec := GatePacket(c, f, pkt.(len := |f|, now := e.now), e);
      } else {
        dec := CountUnparsed(rc, c, f, e);
      }
    }

    /** One packet through the filter. */
    method Filter(f: Frame, e: Env) returns (verdict: Verdict)
      requires |f| < TWO32
      modifies this`rl4, this`rl6, this`ruleStats, this`stats, this`sampler, this`ring
      ensures verdict == Step(TablesNow(), old(DataNow()), f, e).verdict
      ensures DataNow() == Next(TablesNow(), old(DataNow()), f, e)
    {
      hide Judge, BumpAll, Bump;
      ghost var was := DataNow();
      if cfg.None? {
        BumpOne(stats, ERR_CFG_MISSING, |f|);
        Count(ERR_CFG_MISSING, |f|);
        return XDP_PASS;
      }
      var dec := JudgePacket(cfg.value, f, e);
      if dec != DROP { return XDP_PASS; }
      if cfg.value.dryRun {
        BumpLast(was.stats, Judge(TablesNow(), cfg.value, was, f, e).trace, DRYRUN_WOULD_DROP, |f|);
        Count(DRYRUN_WOULD_DROP, |f|);
        return XDP_PASS;
      }
      return XDP_DROP;
    }
  }
}
