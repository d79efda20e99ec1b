/**
 * What a rate-limit rule buys: over any run of the whole filter, whatever else
 * arrives and however the other tables change, the packets admitted for one
 * anchor, source and profile stay under that profile's ceiling.
 */
module Ceilings {
  import opened Basics
  import opened Wire
  import opened Packet
  import opened Decode
  import opened TokenBucket
  import opened Tables
  import opened Decision
  import opened Runs

  /** The packet of an input, as the rules see it. */
  function PktOf(i: Input): Pkt
    requires DecodeFrame(i.f).Understood?
  {
    DecodeFrame(i.f).pkt.(len := |i.f|, now := i.e.now)
  }

  /** The rule that decides an input, if one does. */
  function Decider(i: Input): Hit {
    if i.t.cfg.None? || !DecodeFrame(i.f).Understood? then NoHit
    else if Allowed(i.t, PktOf(i)) || Protected(i.t, PktOf(i)) then NoHit
    else Rule3to5(i.t, i.t.cfg.value, PktOf(i)).hit
  }

  /** The input asks the limiter for the bucket `k` of one family. */
  predicate Touches(i: Input, k: Key, v6: bool) {
    var h := Decider(i);
    && h.Hit? && DecodeFrame(i.f).Understood? && h.rule.action == ACT_RATELIMIT && Limits(i.t, h.rule.profile)
    && PktOf(i).isV6 == v6 && KeyOf(PktOf(i), h.level.Anchor(PktOf(i)), h.rule.profile) == k
  }

  /** The calls made on a bucket over a run. */
  function Arrivals(ins: seq<Input>, k: Key, v6: bool): seq<Arrival> {
    if ins == [] then []
    else (if Touches(ins[0], k, v6) then [Arrival(ins[0].e.now, |ins[0].f|)] else []) + Arrivals(ins[1..], k, v6)
  }

  /** For each of those calls, whether the limiter let the packet through. */
  function Admissions(d: Data, ins: seq<Input>, k: Key, v6: bool): seq<bool>
    decreases |ins|
  {
    if ins == [] then []
    else (if Touches(ins[0], k, v6) then [PASS_RL_ADMIT in StepOn(ins[0], d).trace] else [])
         + Admissions(NextOn(ins[0], d), ins[1..], k, v6)
  }

  /** The profile behind the bucket stays as it is, and the bucket is not evicted. */
  ghost predicate Steady(ins: seq<Input>, k: Key, prof: Profile) {
    forall i | i in ins :: k !in i.e.evicted && k.profile < |i.t.profiles| && i.t.profiles[k.profile] == prof
  }

  // ------------------------------------------------------- one call, one bucket

  /** The bucket under `k` is as it was, there or not. */
  ghost predicate KeptAt(before: map<Key, Bucket>, after: map<Key, Bucket>, k: Key) {
    (k in after <==> k in before) && (k in before ==> after[k] == before[k])
  }

  /**
   * One call on the bucket under `k`: the token arithmetic, on a fresh bucket
   * if there was none; no limit at all if none could be made.
   */
  ghost predicate CalledAt(before: map<Key, Bucket>, after: map<Key, Bucket>, k: Key, prof: Profile, e: Env, len: u32,
                           admit: bool)
  {
    if k !in before && !e.insertOk then admit && k !in after
    else
      var b := if k in before then before[k] else Fresh(prof, e.now);
      admit == Admits(prof, b, e.now, len) && k in after && after[k] == After(prof, b, e.now, len)
  }

  /** The same for the bucket map alone: `own` is called on, the evicted go only if it has to be made. */
  lemma MapMoves(m: map<Key, Bucket>, m': map<Key, Bucket>, own: Key, k: Key, prof: Profile, e: Env,
                 len: u32, admit: bool)
    requires k !in e.evicted
    requires var kept := if own in m then m else m - e.evicted;
      match BucketFor(m, own, prof, e)
      case None => admit && m' == kept
      case Some(b) => admit == Admits(prof, b, e.now, len) && m' == kept[own := After(prof, b, e.now, len)]
    ensures if own == k then CalledAt(m, m', k, prof, e, len, admit) else KeptAt(m, m', k)
  {
    hide Admits, After, Fresh;
  }

  /** A limiter call moves its own bucket, and no other bucket that is not evicted. */
  lemma LimitMoves(t: Tables, d: Data, p: Pkt, anchor: Addr, profile: u32, len: u32, e: Env, k: Key, v6: bool)
    requires k !in e.evicted
    ensures var l := RateLimit(t, d, p, anchor, profile, len, e);
      if Limits(t, profile) && p.isV6 == v6 && KeyOf(p, anchor, profile) == k then
        CalledAt(Buckets(d, v6), Buckets(l.d, v6), k, t.profiles[profile], e, len, l.admit)
      else KeptAt(Buckets(d, v6), Buckets(l.d, v6), k)
  {
    hide Admits, After, KeyOf, BucketFor, CalledAt, KeptAt;
    KeptSame(Buckets(d, v6), k);
    if Limits(t, profile) && p.isV6 == v6 {
      var l := RateLimit(t, d, p, anchor, profile, len, e);
      MapMoves(Buckets(d, v6), Buckets(l.d, v6), KeyOf(p, anchor, profile), k, t.profiles[profile], e, len, l.admit);
    }
  }

  /** A call on a bucket that is there evicts nothing, and no call reaches the other family's buckets. */
  lemma LimitEvictsOnlyToInsert(t: Tables, d: Data, p: Pkt, anchor: Addr, profile: u32, len: u32, e: Env)
    ensures var l := RateLimit(t, d, p, anchor, profile, len, e);
      && Buckets(l.d, !p.isV6) == Buckets(d, !p.isV6)
      && (KeyOf(p, anchor, profile) in Buckets(d, p.isV6) ==>
            forall k :: k != KeyOf(p, anchor, profile) ==> KeptAt(Buckets(d, p.isV6), Buckets(l.d, p.isV6), k))
  {
    hide Admits, After, KeyOf, Fresh;
  }

  lemma KeyProfile(p: Pkt, anchor: Addr, profile: u32)
    ensures KeyOf(p, anchor, profile).profile == profile
  {}

  /** The hit is a limit on the bucket `k` of one family. */
  predicate Limiting(t: Tables, p: Pkt, h: Hit, k: Key, v6: bool) {
    && h.Hit? && h.rule.action == ACT_RATELIMIT && Limits(t, h.rule.profile)
    && p.isV6 == v6 && KeyOf(p, h.level.Anchor(p), h.rule.profile) == k
  }

  lemma ApplyMoves(t: Tables, d: Data, p: Pkt, h: Hit, len: u32, e: Env, k: Key, v6: bool)
    requires h.Hit? && k !in e.evicted
    ensures var a := Apply(t, d, p, h, len, e);
      if Limiting(t, p, h, k, v6) then
        CalledAt(Buckets(d, v6), Buckets(a.d, v6), k, t.profiles[h.rule.profile], e, len, PASS_RL_ADMIT in a.trace)
      else KeptAt(Buckets(d, v6), Buckets(a.d, v6), k)
  {
    hide CalledAt, KeyOf, RateLimit;
    var d' := CountRule(d, h.rule.ruleId, len);
    assert Buckets(d', v6) == Buckets(d, v6);
    LimitMoves(t, d', p, h.level.Anchor(p), h.rule.profile, len, e, k, v6);
  }

  lemma ObserveMoves(c: Config, d: Data, f: Frame, p: Pkt, e: Env)
    ensures var o := Observe(c, d, f, p, e);
            o.d.rl4 == d.rl4 && o.d.rl6 == d.rl6 && PASS_RL_ADMIT !in o.trace
  {
    hide Samples, Sampled, Record;
  }

  /** What the rules did to bucket `k`: a call if the hit was a limit on it, nothing otherwise. */
  lemma EngageMoves(t: Tables, c: Config, d: Data, f: Frame, p: Pkt, e: Env, k: Key, v6: bool)
    requires |f| < TWO32 && k !in e.evicted
    ensures var a, h := Engage(t, c, d, f, p, e), Rule3to5(t, c, p).hit;
      if Limiting(t, p, h, k, v6) then
        CalledAt(Buckets(d, v6), Buckets(a.d, v6), k, t.profiles[h.rule.profile], e, |f|, PASS_RL_ADMIT in a.trace)
      else KeptAt(Buckets(d, v6), Buckets(a.d, v6), k)
  {
    hide CalledAt, KeptAt, Limiting, Apply, Rule3to5, Observe;
    var o, h := Observe(c, d, f, p, e), Rule3to5(t, c, p).hit;
    ObserveMoves(c, d, f, p, e);
    RulingSees(t, c, p);
    if h.Hit? {
      ApplyMoves(t, o.d, p, h, |f|, e, k, v6);
      ApplyDecides(t, o.d, p, h, |f|, e);
    } else {
      Untouched(t, p, h, k, v6);
      KeptSame(Buckets(d, v6), k);
    }
  }

  lemma Untouched(t: Tables, p: Pkt, h: Hit, k: Key, v6: bool)
    requires h.NoHit?
    ensures !Limiting(t, p, h, k, v6)
  {}

  lemma KeptSame(m: map<Key, Bucket>, k: Key)
    ensures KeptAt(m, m, k)
  {}

  lemma FragIsNotAdmit(p: Pkt)
    ensures PASS_RL_ADMIT !in FragSeen(p)
  {}

  lemma JudgeMoves(i: Input, d: Data, k: Key, v6: bool)
    requires i.t.cfg.Some? && k !in i.e.evicted
    ensures var a := Judge(i.t, i.t.cfg.value, d, i.f, i.e);
      if Touches(i, k, v6) then
        CalledAt(Buckets(d, v6), Buckets(a.d, v6), k, i.t.profiles[Decider(i).rule.profile], i.e, |i.f|,
                 PASS_RL_ADMIT in a.trace)
      else KeptAt(Buckets(d, v6), Buckets(a.d, v6), k)
  {
    hide Engage, CalledAt, KeptAt, KeyOf, Allowed, Protected, Rule3to5, DecodeFrame, FragSeen;
    KeptSame(Buckets(d, v6), k);
    if DecodeFrame(i.f).Understood? {
      FragIsNotAdmit(PktOf(i));
      EngageMoves(i.t, i.t.cfg.value, d, i.f, PktOf(i), i.e, k, v6);
    }
  }

  lemma TouchesItsProfile(i: Input, k: Key, v6: bool)
    requires Touches(i, k, v6)
    ensures i.t.cfg.Some? && Decider(i).rule.profile == k.profile
  {
    KeyProfile(PktOf(i), Decider(i).level.Anchor(PktOf(i)), Decider(i).rule.profile);
  }

  /** One packet, seen from one bucket. */
  lemma StepMoves(i: Input, d: Data, k: Key, v6: bool, prof: Profile)
    requires k !in i.e.evicted && k.profile < |i.t.profiles| && i.t.profiles[k.profile] == prof
    ensures if Touches(i, k, v6) then
              CalledAt(Buckets(d, v6), Buckets(NextOn(i, d), v6), k, prof, i.e, |i.f|,
                       PASS_RL_ADMIT in StepOn(i, d).trace)
            else KeptAt(Buckets(d, v6), Buckets(NextOn(i, d), v6), k)
  {
    hide Judge, CalledAt, KeptAt, Touches, Decider, BumpAll, Limits;
    if Touches(i, k, v6) { TouchesItsProfile(i, k, v6); }
    if i.t.cfg.Some? {
      JudgeMoves(i, Primed(i, d), k, v6);
    } else {
      KeptSame(Buckets(d, v6), k);
    }
  }

  /** The first call on the bucket, if there is one, gets its insertion through. */
  predicate FirstInserts(ins: seq<Input>, k: Key, v6: bool) {
    ins == [] || (if Touches(ins[0], k, v6) then ins[0].e.insertOk else FirstInserts(ins[1..], k, v6))
  }

  /** The bucket that the calls of a run start from: the one there, or the one the first call makes. */
  function StartBucket(d: Data, calls: seq<Arrival>, k: Key, v6: bool, prof: Profile): Bucket {
    if k in Buckets(d, v6) then Buckets(d, v6)[k]
    else Fresh(prof, if calls == [] then 0 else calls[0].now)
  }

  /** The filter's calls on one bucket are a run of the token bucket. */
  lemma {:induction false} BucketSeesItsRun(d: Data, ins: seq<Input>, k: Key, v6: bool, prof: Profile)
    requires Steady(ins, k, prof) && (k in Buckets(d, v6) || FirstInserts(ins, k, v6))
    ensures var calls, last := Arrivals(ins, k, v6), Buckets(Run(d, ins), v6);
      var start := StartBucket(d, calls, k, v6, prof);
      && (k in last <==> k in Buckets(d, v6) || calls != [])
      && (k in last ==> last[k] == Final(prof, start, calls))
      && Admissions(d, ins, k, v6) == Decisions(prof, start, calls)
    decreases |ins|
  {
    hide StepOn, NextOn, Touches, Admits, After, Buckets, Fresh;
    if ins == [] {
    } else {
      var i, rest := ins[0], ins[1..];
      assert i in ins && forall j | j in rest :: j in ins;
      StepMoves(i, d, k, v6, prof);
      BucketSeesItsRun(NextOn(i, d), rest, k, v6, prof);
      if Touches(i, k, v6) {
        assert Arrivals(ins, k, v6) == [Arrival(i.e.now, |i.f|)] + Arrivals(rest, k, v6);
        assert Arrivals(ins, k, v6)[1..] == Arrivals(rest, k, v6);
      } else {
        assert Arrivals(ins, k, v6) == Arrivals(rest, k, v6);
      }
    }
  }

  lemma CallsAreBounded(prof: Profile, b: Bucket, calls: seq<Arrival>)
    requires calls != [] && Ordered(calls[0].now, calls[1..])
    ensures var ds := Decisions(prof, b, calls);
      var span := LastSeen(calls[0].now, calls[1..]) - calls[0].now;
      && (prof.ratePps != 0 ==> AdmittedPkts(calls, ds) * TWO32 <= Cap(prof.burstPps) + Clamp(prof.pktPerNs) * span)
      && (prof.rateBps != 0 ==> AdmittedBytes(calls, ds) * TWO32 <= Cap(prof.burstBps) + Clamp(prof.bytePerNs) * span)
  {
    hide Decisions, AdmittedPkts, AdmittedBytes;
    WindowIsBoundedByTime(prof, b, [], calls);
    assert [] + calls == calls;
    assert Decisions(prof, b, calls)[0..] == Decisions(prof, b, calls);
  }

  /**
   * The ceiling of one anchor, source and profile over any run of the filter,
   * whether its bucket is there at the start or made by its first call: the
   * clamped burst, plus the clamped rate times the time between the first and
   * the last call on the bucket.
   */
  lemma SourceStaysUnderCeiling(d: Data, ins: seq<Input>, k: Key, v6: bool, prof: Profile)
    requires Steady(ins, k, prof) && (k in Buckets(d, v6) || FirstInserts(ins, k, v6))
    requires var calls := Arrivals(ins, k, v6); calls != [] && Ordered(calls[0].now, calls[1..])
    ensures var calls, ds := Arrivals(ins, k, v6), Admissions(d, ins, k, v6);
      var span := LastSeen(calls[0].now, calls[1..]) - calls[0].now;
      && |ds| == |calls|
      && (prof.ratePps != 0 ==> AdmittedPkts(calls, ds) * TWO32 <= Cap(prof.burstPps) + Clamp(prof.pktPerNs) * span)
      && (prof.rateBps != 0 ==> AdmittedBytes(calls, ds) * TWO32 <= Cap(prof.burstBps) + Clamp(prof.bytePerNs) * span)
  {
    hide Buckets, Touches, Arrivals, Admissions, Decisions, AdmittedPkts, AdmittedBytes, Steady, StartBucket;
    BucketSeesItsRun(d, ins, k, v6, prof);
    var calls := Arrivals(ins, k, v6);
    CallsAreBounded(prof, StartBucket(d, calls, k, v6, prof), calls);
  }
}
