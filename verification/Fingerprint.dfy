/** The fingerprint plane is observation only, and accounts for every handshake it is offered. */
module Fingerprint {
  import opened Basics
  import opened Wire
  import opened Packet
  import opened Decode
  import opened TokenBucket
  import opened Tables
  import opened Decision
  import opened Runs
  import opened Views
  import opened Agreement
  import opened Observers

  function SetFp(t: Tables, on: bool): Tables {
    if t.cfg.None? then t else t.(cfg := Some(t.cfg.value.(fpEnabled := on)))
  }

  function Fp(i: Input, on: bool): Input { i.(t := SetFp(i.t, on)) }

  function FpAll(ins: seq<Input>, on: bool): (s: seq<Input>)
    ensures |s| == |ins| && forall k | 0 <= k < |s| :: s[k] == Fp(ins[k], on)
  {
    seq(|ins|, k requires 0 <= k < |ins| => Fp(ins[k], on))
  }

  lemma PolicyIgnoresFp(t: Tables, c: Config, on: bool, a: Addr, v6: bool)
    ensures PolicyOf(SetFp(t, on), c.(fpEnabled := on), a, v6) == PolicyOf(t, c, a, v6)
  {
    hide Lookup, AddrBits;
  }

  lemma RuleIgnoresFp(t: Tables, c: Config, on: bool, p: Pkt)
    ensures Rule3to5(SetFp(t, on), c.(fpEnabled := on), p) == Rule3to5(t, c, p)
  {
    hide StaticsFrom, PolicyOf, ScanRules, ScanPolicy;
    SameStatics(t, c, SetFp(t, on), c.(fpEnabled := on), 0);
    PolicyIgnoresFp(t, c, on, p.src, p.isV6);
    PolicyIgnoresFp(t, c, on, p.dst, p.isV6);
  }

  lemma RateLimitLeavesPlane(t: Tables, d: Data, d': Data, p: Pkt, anchor: Addr, profile: u32, len: u32, e: Env)
    requires d' == d.(stats := d'.stats, sampler := d'.sampler, ring := d'.ring)
    ensures var a, b := RateLimit(t, d, p, anchor, profile, len, e), RateLimit(t, d', p, anchor, profile, len, e);
            b.admit == a.admit && b.d == a.d.(stats := d'.stats, sampler := d'.sampler, ring := d'.ring)
  {
    hide Admits, After, KeyOf, BucketFor;
  }

  /** Applying a rule never looks at the plane. */
  lemma ApplyLeavesPlane(t: Tables, d: Data, d': Data, p: Pkt, h: Hit, len: u32, e: Env)
    requires h.Hit? && d' == d.(stats := d'.stats, sampler := d'.sampler, ring := d'.ring)
    ensures var a, b := Apply(t, d, p, h, len, e), Apply(t, d', p, h, len, e);
            && b.dec == a.dec && b.trace == a.trace
            && b.d == a.d.(stats := d'.stats, sampler := d'.sampler, ring := d'.ring)
  {
    hide RateLimit;
    var x, x' := CountRule(d, h.rule.ruleId, len), CountRule(d', h.rule.ruleId, len);
    assert x' == x.(stats := d'.stats, sampler := d'.sampler, ring := d'.ring);
    RateLimitLeavesPlane(t, x, x', p, h.level.Anchor(p), h.rule.profile, len, e);
  }

  /** Equal but for the plane's own state and counters. */
  ghost predicate Muted(a: Data, b: Data) {
    && a == b.(stats := a.stats, sampler := a.sampler, ring := a.ring)
    && StatsAgree(PLANE, a.stats, b.stats)
  }

  lemma ObserveIsMute(c: Config, d: Data, f: Frame, p: Pkt, e: Env)
    ensures var o := Observe(c, d, f, p, e);
            && o.d == d.(sampler := o.d.sampler, ring := o.d.ring)
            && (forall x | x in o.trace :: PlaneStat(x))
            && |o.trace| == if Eligible(c, p) then 1 else 0
  {
    hide Samples, Sampled, Record;
  }

  /** What the rules do, whatever the plane did before them. */
  lemma DecideIgnoresPlane(t1: Tables, c1: Config, t2: Tables, c2: Config, d: Data, d': Data, p: Pkt, len: u32, e: Env)
    requires t1.profiles == t2.profiles && Rule3to5(t1, c1, p) == Rule3to5(t2, c2, p)
    requires d' == d.(stats := d'.stats, sampler := d'.sampler, ring := d'.ring)
    ensures var a, b := Decide(t1, c1, d, p, len, e), Decide(t2, c2, d', p, len, e);
            && b.dec == a.dec && b.trace == a.trace
            && b.d == a.d.(stats := d'.stats, sampler := d'.sampler, ring := d'.ring)
  {
    hide Rule3to5, Apply;
    var h := Rule3to5(t1, c1, p).hit;
    if h.Hit? {
      ApplyLeavesPlane(t1, d, d', p, h, len, e);
      ApplySameProfiles(t1, t2, d', p, h, len, e);
    }
  }

  lemma EngageIsMute(t: Tables, c: Config, a: Data, b: Data, f: Frame, p: Pkt, e: Env)
    requires |f| < TWO32 && a == b.(stats := a.stats, sampler := a.sampler, ring := a.ring)
    ensures var x := Engage(SetFp(t, true), c.(fpEnabled := true), a, f, p, e);
            var y := Engage(SetFp(t, false), c.(fpEnabled := false), b, f, p, e);
            && x.dec == y.dec && AgreeBut(PLANE, x.trace, y.trace)
            && x.d == y.d.(stats := a.stats, sampler := x.d.sampler, ring := x.d.ring)
  {
    hide Rule3to5, Decide, Observe, AgreeBut, Times;
    var on, off := c.(fpEnabled := true), c.(fpEnabled := false);
    var t1, t2 := SetFp(t, true), SetFp(t, false);
    RuleIgnoresFp(t, c, true, p);
    RuleIgnoresFp(t, c, false, p);
    var o := Observe(on, a, f, p, e);
    ObserveIsMute(on, a, f, p, e);
    assert Observe(off, b, f, p, e) == Applied(NOMATCH, [], b) by { ObserveOff(off, b, f, p, e); }
    DecideIgnoresPlane(t2, off, t1, on, b, o.d, p, |f|, e);
    var r := Decide(t2, off, b, p, |f|, e);
    QuietAside(PLANE, o.trace, r.trace, []);
    AgreeSelf(PLANE, [PASS_DEFAULT]);
    assert o.trace + r.trace + [] == o.trace + r.trace && [] + r.trace == r.trace;
    AgreeJoin(PLANE, o.trace + r.trace, [PASS_DEFAULT], r.trace, [PASS_DEFAULT]);
  }

  lemma ObserveOff(c: Config, d: Data, f: Frame, p: Pkt, e: Env)
    requires !c.fpEnabled
    ensures Observe(c, d, f, p, e) == Applied(NOMATCH, [], d)
  {}

  lemma ListsIgnoreFp(t: Tables, on: bool, p: Pkt)
    ensures Allowed(SetFp(t, on), p) == Allowed(t, p) && Protected(SetFp(t, on), p) == Protected(t, p)
  {
    hide Lookup, AddrBits;
  }

  lemma GateIsMute(t: Tables, c: Config, a: Data, b: Data, f: Frame, p: Pkt, e: Env)
    requires |f| < TWO32 && a == b.(stats := a.stats, sampler := a.sampler, ring := a.ring)
    ensures var x := Gate(SetFp(t, true), c.(fpEnabled := true), a, f, p, e);
            var y := Gate(SetFp(t, false), c.(fpEnabled := false), b, f, p, e);
            && x.dec == y.dec && AgreeBut(PLANE, x.trace, y.trace)
            && x.d == y.d.(stats := a.stats, sampler := x.d.sampler, ring := x.d.ring)
  {
    hide Engage, Allowed, Protected, AgreeBut, FragSeen;
    ListsIgnoreFp(t, true, p);
    ListsIgnoreFp(t, false, p);
    EngageIsMute(t, c, a, b, f, p, e);
    AgreeSelf(PLANE, FragSeen(p) + [PASS_ALLOW_SRC]);
    AgreeSelf(PLANE, FragSeen(p) + [PASS_PROTECT_DST]);
    AgreeSelf(PLANE, FragSeen(p));
    AgreeJoin(PLANE, FragSeen(p), Engage(SetFp(t, true), c.(fpEnabled := true), a, f, p, e).trace,
              FragSeen(p), Engage(SetFp(t, false), c.(fpEnabled := false), b, f, p, e).trace);
  }

  lemma JudgeIsMute(t: Tables, c: Config, a: Data, b: Data, f: Frame, e: Env)
    requires |f| < TWO32 && a == b.(stats := a.stats, sampler := a.sampler, ring := a.ring)
    ensures var x := Judge(SetFp(t, true), c.(fpEnabled := true), a, f, e);
            var y := Judge(SetFp(t, false), c.(fpEnabled := false), b, f, e);
            && x.dec == y.dec && AgreeBut(PLANE, x.trace, y.trace)
            && x.d == y.d.(stats := a.stats, sampler := x.d.sampler, ring := x.d.ring)
  {
    hide Gate, DecodeFrame, SetFp;
    if DecodeFrame(f).Understood? {
      GateIsMute(t, c, a, b, f, DecodeFrame(f).pkt.(len := |f|, now := e.now), e);
    }
  }

  lemma StepIsMute(i: Input, a: Data, b: Data)
    requires Muted(a, b)
    ensures var x, y := StepOn(Fp(i, true), a), StepOn(Fp(i, false), b);
            && x.verdict == y.verdict && AgreeBut(PLANE, x.trace, y.trace)
            && x.d == y.d.(stats := a.stats, sampler := x.d.sampler, ring := x.d.ring)
  {
    hide Judge, AgreeBut;
    if i.t.cfg.Some? {
      var c := i.t.cfg.value;
      var a', b' := Primed(i, a), Primed(i, b);
      JudgeIsMute(i.t, c, a', b', i.f, i.e);
      AgreeSelf(PLANE, [DRYRUN_WOULD_DROP]);
      AgreeJoin(PLANE, Judge(SetFp(i.t, true), c.(fpEnabled := true), a', i.f, i.e).trace, [DRYRUN_WOULD_DROP],
                Judge(SetFp(i.t, false), c.(fpEnabled := false), b', i.f, i.e).trace, [DRYRUN_WOULD_DROP]);
    } else {
      AgreeSelf(PLANE, [ERR_CFG_MISSING]);
    }
  }

  lemma NextIsMute(i: Input, a: Data, b: Data)
    requires Muted(a, b)
    ensures var x, y := Fp(i, true), Fp(i, false);
            Muted(NextOn(x, a), NextOn(y, b))
  {
    hide Step, BumpAll;
    StepIsMute(i, a, b);
    BumpsAgree(PLANE, a.stats, b.stats, StepOn(Fp(i, true), a).trace, StepOn(Fp(i, false), b).trace, |i.f|);
  }

  /** With the plane on or off, every verdict, bucket, rule counter and verdict counter of a run is the same. */
  lemma {:induction false} PlaneIsPureObservation(a: Data, b: Data, ins: seq<Input>)
    requires Muted(a, b)
    ensures Verdicts(a, FpAll(ins, true)) == Verdicts(b, FpAll(ins, false))
    ensures Muted(Run(a, FpAll(ins, true)), Run(b, FpAll(ins, false)))
    decreases |ins|
  {
    hide NextOn, StepOn, Fp, Muted;
    if ins == [] {
    } else {
      var x, y := FpAll(ins, true), FpAll(ins, false);
      assert x[1..] == FpAll(ins[1..], true) && y[1..] == FpAll(ins[1..], false);
      StepIsMute(ins[0], a, b);
      NextIsMute(ins[0], a, b);
      PlaneIsPureObservation(NextOn(x[0], a), NextOn(y[0], b), ins[1..]);
    }
  }

  // ------------------------------------------------------------- accounting

  /** A recognised handshake that reaches the plane with the plane on. */
  predicate Offered(i: Input) {
    && i.t.cfg.Some? && DecodeFrame(i.f).Understood?
    && var p := DecodeFrame(i.f).pkt.(len := |i.f|, now := i.e.now);
       !Allowed(i.t, p) && !Protected(i.t, p) && i.t.cfg.value.fpEnabled && (p.isTls || p.isQuic)
  }

  function PlaneTimes(trace: seq<Stat>): nat {
    Times(trace, FP_EMITTED) + Times(trace, FP_THROTTLED) + Times(trace, FP_RING_FULL)
  }

  lemma PlaneJoin(a: seq<Stat>, b: seq<Stat>)
    ensures PlaneTimes(a + b) == PlaneTimes(a) + PlaneTimes(b)
  {
    TimesJoin(a, b, FP_EMITTED);
    TimesJoin(a, b, FP_THROTTLED);
    TimesJoin(a, b, FP_RING_FULL);
  }

  lemma NoPlane(tr: seq<Stat>)
    requires forall x | x in tr :: !PlaneStat(x)
    ensures PlaneTimes(tr) == 0 && Times(tr, FP_EMITTED) == 0 && Times(tr, FP_THROTTLED) == 0
  {
    TimesZero(tr, FP_EMITTED);
    TimesZero(tr, FP_THROTTLED);
    TimesZero(tr, FP_RING_FULL);
  }

  lemma OnePlane(x: Stat)
    ensures PlaneTimes([x]) == if PlaneStat(x) then 1 else 0
    ensures Times([x], FP_EMITTED) == if x == FP_EMITTED then 1 else 0
    ensures Times([x], FP_THROTTLED) == if x == FP_THROTTLED then 1 else 0
  {
    TimesOne(x, FP_EMITTED);
    TimesOne(x, FP_THROTTLED);
    TimesOne(x, FP_RING_FULL);
  }

  /** A record of a frame: the packet's own metadata, and as many of the frame's first octets as fit. */
  ghost predicate Copies(ev: Event, f: Frame, p: Pkt) {
    && ev.src == p.src && ev.dst == p.dst && ev.sport == p.sport && ev.dport == p.dport
    && ev.isV6 == p.isV6 && ev.proto == p.proto && ev.axis == (if p.isTls then 1 else 2)
    && ev.pktLen == |f| && ev.payloadOff == p.fpOff % 0x1_0000
    && ev.snapLen == Min(|f|, 1536) && |ev.data| == 1536 && ev.data[..ev.snapLen] == f[..ev.snapLen]
  }

  lemma RecordCopies(f: Frame, p: Pkt, slot: seq<bv8>)
    requires |slot| == SNAP_LEN && |f| < TWO32
    ensures Copies(Record(f, p, slot), f, p)
  {
    assert (f[..SnapLen(f)] + slot[SnapLen(f)..])[..SnapLen(f)] == f[..SnapLen(f)];
  }

  /** The ring after a step: one more faithful copy, counted as such, or nothing of either. */
  ghost predicate RingMoved(before: seq<Event>, after: seq<Event>, trace: seq<Stat>, f: Frame, p: Pkt, copied: bool) {
    if copied then
      && Times(trace, FP_EMITTED) == 1
      && |after| == |before| + 1 && after[..|before|] == before && Copies(after[|before|], f, p)
    else Times(trace, FP_EMITTED) == 0 && after == before
  }

  /**
   * The sampler after a step: spent on, or found empty and counted as such, for
   * a handshake that was offered; untouched by any other packet.
   */
  ghost predicate SamplerMoved(before: Option<Sampler>, after: Option<Sampler>, trace: seq<Stat>, offered: bool,
                               c: Config, now: u64)
  {
    && Times(trace, FP_THROTTLED) == (if offered && !Samples(c, before, now) then 1 else 0)
    && after == if offered then Sampled(c, before, now) else before
  }

  lemma ObserveMovesRing(c: Config, d: Data, f: Frame, p: Pkt, e: Env)
    requires |f| < TWO32
    ensures var o := Observe(c, d, f, p, e);
            && RingMoved(d.ring, o.d.ring, o.trace, f, p, Eligible(c, p) && Samples(c, d.sampler, e.now) && e.slot.Some?)
            && SamplerMoved(d.sampler, o.d.sampler, o.trace, Eligible(c, p), c, e.now)
  {
    hide Samples, Sampled, Record, Copies, Times;
    OnePlane(FP_THROTTLED);
    OnePlane(FP_RING_FULL);
    OnePlane(FP_EMITTED);
    NoPlane([]);
    if e.slot.Some? { RecordCopies(f, p, e.slot.value); }
  }

  lemma ApplyKeepsPlane(t: Tables, d: Data, p: Pkt, h: Hit, len: u32, e: Env)
    requires h.Hit?
    ensures Apply(t, d, p, h, len, e).d.ring == d.ring && Apply(t, d, p, h, len, e).d.sampler == d.sampler
  {
    hide Admits, After, KeyOf;
  }

  lemma ObservePlane(tr: seq<Stat>)
    requires |tr| <= 1 && forall x | x in tr :: PlaneStat(x)
    ensures PlaneTimes(tr) == |tr|
  {
    if |tr| == 1 {
      assert tr[0] in tr && tr == [tr[0]];
      OnePlane(tr[0]);
    }
  }

  lemma EngagePlane(t: Tables, c: Config, d: Data, f: Frame, p: Pkt, e: Env)
    requires |f| < TWO32
    ensures var a := Engage(t, c, d, f, p, e);
            && PlaneTimes(a.trace) == (if Eligible(c, p) then 1 else 0)
            && RingMoved(d.ring, a.d.ring, a.trace, f, p, Eligible(c, p) && Samples(c, d.sampler, e.now) && e.slot.Some?)
            && SamplerMoved(d.sampler, a.d.sampler, a.trace, Eligible(c, p), c, e.now)
  {
    hide Rule3to5, Apply, Observe, Copies, Eligible, Samples, Sampled, Times, PlaneTimes;
    var o := Observe(c, d, f, p, e);
    var r := Decide(t, c, o.d, p, |f|, e);
    ObserveIsMute(c, d, f, p, e);
    ObserveMovesRing(c, d, f, p, e);
    DecideStats(t, c, o.d, p, |f|, e);
    NoPlane(r.trace);
    ObservePlane(o.trace);
    if Rule3to5(t, c, p).hit.Hit? { ApplyKeepsPlane(t, o.d, p, Rule3to5(t, c, p).hit, |f|, e); }
    PlaneJoin(o.trace, r.trace);
    TimesJoin(o.trace, r.trace, FP_EMITTED);
    TimesJoin(o.trace, r.trace, FP_THROTTLED);
    OnePlane(PASS_DEFAULT);
    PlaneJoin(o.trace + r.trace, [PASS_DEFAULT]);
    TimesJoin(o.trace + r.trace, [PASS_DEFAULT], FP_EMITTED);
    TimesJoin(o.trace + r.trace, [PASS_DEFAULT], FP_THROTTLED);
  }

  lemma FragPlane(p: Pkt, tr: seq<Stat>)
    ensures PlaneTimes(FragSeen(p) + tr) == PlaneTimes(tr)
    ensures Times(FragSeen(p) + tr, FP_EMITTED) == Times(tr, FP_EMITTED)
    ensures Times(FragSeen(p) + tr, FP_THROTTLED) == Times(tr, FP_THROTTLED)
  {
    NoPlane(FragSeen(p));
    PlaneJoin(FragSeen(p), tr);
    TimesJoin(FragSeen(p), tr, FP_EMITTED);
    TimesJoin(FragSeen(p), tr, FP_THROTTLED);
  }

  /** What the parser made of an input's frame. */
  function ParsedOf(i: Input): Pkt {
    if DecodeFrame(i.f).Understood? then DecodeFrame(i.f).pkt else BLANK
  }

  /** The handshake is offered, the sampler lets it through, and the ring has room. */
  predicate Copied(i: Input, d: Data) {
    Offered(i) && Samples(i.t.cfg.value, d.sampler, i.e.now) && i.e.slot.Some?
  }

  lemma EligibleIs(c: Config, p: Pkt)
    ensures Eligible(c, p) <==> c.fpEnabled && (p.isTls || p.isQuic)
  {}

  lemma SameCopy(before: seq<Event>, after: seq<Event>, trace: seq<Stat>, f: Frame, p: Pkt, q: Pkt, copied: bool)
    requires p == q.(len := p.len, now := p.now)
    ensures RingMoved(before, after, trace, f, p, copied) == RingMoved(before, after, trace, f, q, copied)
  {}

  lemma JudgePlane(i: Input, d: Data)
    requires i.t.cfg.Some?
    ensures var a := Judge(i.t, i.t.cfg.value, d, i.f, i.e);
            && PlaneTimes(a.trace) == (if Offered(i) then 1 else 0)
            && RingMoved(d.ring, a.d.ring, a.trace, i.f, ParsedOf(i), Copied(i, d))
            && SamplerMoved(d.sampler, a.d.sampler, a.trace, Offered(i), i.t.cfg.value, i.e.now)
  {
    hide Engage, DecodeFrame, Allowed, Protected, Eligible, Copies, Samples, Sampled, Times, PlaneTimes;
    OnePlane(PASS_NOT_IP);
    OnePlane(PASS_VLAN_DEPTH);
    OnePlane(PASS_EXTHDR_CAP);
    OnePlane(PASS_MALFORMED);
    OnePlane(DROP_MALFORMED);
    OnePlane(PASS_ALLOW_SRC);
    OnePlane(PASS_PROTECT_DST);
    if DecodeFrame(i.f).Understood? {
      var p := DecodeFrame(i.f).pkt.(len := |i.f|, now := i.e.now);
      EligibleIs(i.t.cfg.value, p);
      EngagePlane(i.t, i.t.cfg.value, d, i.f, p, i.e);
      var a := Engage(i.t, i.t.cfg.value, d, i.f, p, i.e);
      SameCopy(d.ring, a.d.ring, a.trace, i.f, p, ParsedOf(i), Copied(i, d));
      FragPlane(p, [PASS_ALLOW_SRC]);
      FragPlane(p, [PASS_PROTECT_DST]);
      FragPlane(p, Engage(i.t, i.t.cfg.value, d, i.f, p, i.e).trace);
    }
  }

  /** Each offered handshake is counted as exactly one of emitted, throttled or ring-full; nothing else is. */
  lemma StepPlane(i: Input, d: Data)
    ensures PlaneTimes(StepOn(i, d).trace) == if Offered(i) then 1 else 0
    ensures RingMoved(d.ring, StepOn(i, d).d.ring, StepOn(i, d).trace, i.f, ParsedOf(i), Copied(i, d))
    ensures i.t.cfg.Some? ==>
              SamplerMoved(d.sampler, StepOn(i, d).d.sampler, StepOn(i, d).trace, Offered(i), i.t.cfg.value, i.e.now)
    ensures i.t.cfg.None? ==> !Offered(i) && StepOn(i, d).d.sampler == d.sampler
  {
    hide Judge, Offered, Copies, Samples, Sampled, Times, PlaneTimes;
    OnePlane(ERR_CFG_MISSING);
    OnePlane(DRYRUN_WOULD_DROP);
    if i.t.cfg.Some? {
      JudgePlane(i, Primed(i, d));
      var tr := Judge(i.t, i.t.cfg.value, Primed(i, d), i.f, i.e).trace;
      PlaneJoin(tr, [DRYRUN_WOULD_DROP]);
      TimesJoin(tr, [DRYRUN_WOULD_DROP], FP_EMITTED);
      TimesJoin(tr, [DRYRUN_WOULD_DROP], FP_THROTTLED);
    } else {
      NotOffered(i);
    }
  }

  lemma NotOffered(i: Input)
    requires i.t.cfg.None?
    ensures !Offered(i)
  {}

  function OfferedCount(ins: seq<Input>): nat {
    if ins == [] then 0 else (if Offered(ins[0]) then 1 else 0) + OfferedCount(ins[1..])
  }

  function PlanePkts(s: Stats): nat {
    s[FP_EMITTED].pkts + s[FP_THROTTLED].pkts + s[FP_RING_FULL].pkts
  }

  /** Some packet of the run is the one a ring entry copies. */
  ghost predicate CopiedFrom(ev: Event, ins: seq<Input>) {
    exists k :: 0 <= k < |ins| && Offered(ins[k]) && Copies(ev, ins[k].f, ParsedOf(ins[k]))
  }

  /** Nothing in the ring is lost, and every new entry is the record of a handshake offered. */
  ghost predicate RingGrew(before: seq<Event>, after: seq<Event>, ins: seq<Input>) {
    before <= after && forall j | |before| <= j < |after| :: CopiedFrom(after[j], ins)
  }

  lemma GrewOn(a: seq<Event>, b: seq<Event>, c: seq<Event>, ins: seq<Input>)
    requires ins != [] && RingGrew(a, b, [ins[0]]) && RingGrew(b, c, ins[1..])
    ensures RingGrew(a, c, ins)
  {
    hide Offered, Copies;
    forall j | |a| <= j < |c| ensures CopiedFrom(c[j], ins) {
      if j < |b| {
        assert c[j] == b[j] && CopiedFrom(b[j], [ins[0]]);
      } else {
        var rest := ins[1..];
        assert CopiedFrom(c[j], rest);
        var k :| 0 <= k < |rest| && Offered(rest[k]) && Copies(c[j], rest[k].f, ParsedOf(rest[k]));
        assert rest[k] == ins[k + 1];
      }
    }
  }

  lemma StepGrows(i: Input, d: Data)
    ensures var d' := NextOn(i, d);
      && PlanePkts(d'.stats) == PlanePkts(d.stats) + (if Offered(i) then 1 else 0)
      && |d'.ring| + d.stats[FP_EMITTED].pkts == |d.ring| + d'.stats[FP_EMITTED].pkts
      && RingGrew(d.ring, d'.ring, [i])
  {
    hide StepOn, NextOn, Copies, Samples, SamplerMoved, Offered, Times, BumpAll;
    var trace := StepOn(i, d).trace;
    StepPlane(i, d);
    NextOnIs(i, d);
    BumpCounts(d.stats, trace, |i.f|, FP_EMITTED);
    BumpCounts(d.stats, trace, |i.f|, FP_THROTTLED);
    BumpCounts(d.stats, trace, |i.f|, FP_RING_FULL);
    assert [i][0] == i;
  }

  /**
   * Over any run the three plane counters grow by the number of handshakes
   * offered, the ring by the number emitted, and every new ring entry is the
   * record of a handshake offered in the run.
   */
  lemma {:induction false} PlaneAccounts(d: Data, ins: seq<Input>)
    ensures PlanePkts(Run(d, ins).stats) == PlanePkts(d.stats) + OfferedCount(ins)
    ensures |Run(d, ins).ring| + d.stats[FP_EMITTED].pkts == |d.ring| + Run(d, ins).stats[FP_EMITTED].pkts
    ensures RingGrew(d.ring, Run(d, ins).ring, ins)
    decreases |ins|
  {
    hide NextOn, Offered, PlanePkts, CopiedFrom;
    if ins == [] {
    } else {
      StepGrows(ins[0], d);
      PlaneAccounts(NextOn(ins[0], d), ins[1..]);
      hide RingGrew;
      GrewOn(d.ring, NextOn(ins[0], d).ring, Run(d, ins).ring, ins);
    }
  }

  lemma NextOnIs(i: Input, d: Data)
    ensures NextOn(i, d) == StepOn(i, d).d.(stats := BumpAll(d.stats, StepOn(i, d).trace, |i.f|))
  {}

  /** A handshake bit is set for the handshake that opens at the recorded offset, and at most one bit is. */
  ghost predicate BitsAreTrue(f: Frame, r: Parsed) {
    r.Understood? ==>
      && !(r.pkt.isTls && r.pkt.isQuic)
      && (r.pkt.isTls ==> r.pkt.fpOff <= |f| && OpensClientHello(f[r.pkt.fpOff..]))
      && (r.pkt.isQuic ==> r.pkt.fpOff <= |f| && OpensQuicInitial(f[r.pkt.fpOff..]))
  }

  lemma TransportIsTrue(f: Frame, at: nat, pkt: Pkt)
    requires at <= |f| && !pkt.isTls && !pkt.isQuic
    ensures BitsAreTrue(f, FromTransport(ReadTransport(f, at, pkt)))
  {
    hide OpensClientHello, OpensQuicInitial, Be16;
  }

  lemma V4IsTrue(f: Frame, at: nat)
    requires at <= |f|
    ensures BitsAreTrue(f, DecodeV4(f, at))
  {
    hide ReadTransport, LeftAlign, Be16, OpensClientHello, OpensQuicInitial;
    if at + 20 <= |f| {
      var size := (f[at] & 0x0F) as int * 4;
      if 0 <= size && at + size <= |f| { TransportIsTrue(f, at + size, FieldsV4(f, at)); }
    }
  }

  lemma V6IsTrue(f: Frame, at: nat)
    requires at <= |f|
    ensures BitsAreTrue(f, DecodeV6(f, at))
  {
    hide ReadTransport, ReadChain, OpensClientHello, OpensQuicInitial;
    if at + 40 <= |f| {
      var chain := ReadChain(f, at + 40, f[at + 6]);
      var pkt := BLANK.(src := f[at + 8..at + 24], dst := f[at + 24..at + 40], isV6 := true, isFrag := chain.fragment);
      if chain.end.Upper? { TransportIsTrue(f, chain.end.off, pkt.(proto := chain.end.proto)); }
    }
  }

  /** Where a record says the handshake begins, it does begin: a ClientHello or a QUIC Initial, never both. */
  lemma HandshakeIsThere(f: Frame)
    ensures BitsAreTrue(f, DecodeFrame(f))
  {
    hide DecodeV4, DecodeV6, OpensClientHello, OpensQuicInitial, Be16, IsVlan;
    if |f| >= 14 {
      V4IsTrue(f, 14);
      V6IsTrue(f, 14);
    }
    if |f| >= 18 {
      V4IsTrue(f, 18);
      V6IsTrue(f, 18);
    }
  }

  // ------------------------------------------------------- the copy ceiling

  /** The sampler's settings as a token-bucket profile with a packet lane only. */
  function SamplerProfile(rate: u64, burst: u64): Profile { Profile(1, burst, 0, 0, rate, 0) }

  function SamplerBucket(s: Sampler): Bucket { Bucket(s.last, s.tokens, 0) }

  /** The sampler copies when that bucket admits, and moves as that bucket does. */
  lemma SamplerIsBucket(c: Config, s: Sampler, now: u64)
    ensures var prof, b := SamplerProfile(c.fpRate, c.fpBurst), SamplerBucket(s);
      && Samples(c, Some(s), now) == Admits(prof, b, now, 0)
      && Sampled(c, Some(s), now).Some?
      && SamplerBucket(Sampled(c, Some(s), now).value) == After(prof, b, now, 0)
  {
    hide Refilled, Elapsed;
  }

  /** The handshakes offered over a run, as calls on the sampler. */
  function Handshakes(ins: seq<Input>): seq<Arrival> {
    if ins == [] then [] else (if Offered(ins[0]) then [Arrival(ins[0].e.now, 0)] else []) + Handshakes(ins[1..])
  }

  /** Copies begun: written to the ring, or given up because the ring was full. */
  function CopyPkts(s: Stats): nat { s[FP_EMITTED].pkts + s[FP_RING_FULL].pkts }

  ghost predicate SetTo(ins: seq<Input>, rate: u64, burst: u64) {
    forall i | i in ins :: i.t.cfg.Some? ==> i.t.cfg.value.fpRate == rate && i.t.cfg.value.fpBurst == burst
  }

  lemma StepCopies(i: Input, d: Data)
    ensures CopyPkts(NextOn(i, d).stats) + Times(StepOn(i, d).trace, FP_THROTTLED)
            == CopyPkts(d.stats) + if Offered(i) then 1 else 0
  {
    hide StepOn, NextOn, Offered, Copies, SamplerMoved, BumpAll, Times;
    StepPlane(i, d);
    NextOnIs(i, d);
    var trace := StepOn(i, d).trace;
    BumpCounts(d.stats, trace, |i.f|, FP_EMITTED);
    BumpCounts(d.stats, trace, |i.f|, FP_RING_FULL);
  }

  /** One packet, seen from the sampler: a handshake offered is a call on its bucket, anything else leaves it. */
  lemma StepSampler(i: Input, d: Data, rate: u64, burst: u64)
    requires i.t.cfg.Some? ==> i.t.cfg.value.fpRate == rate && i.t.cfg.value.fpBurst == burst
    ensures NextOn(i, d).sampler.Some? <==> d.sampler.Some?
    ensures !Offered(i) || d.sampler.None? ==>
              NextOn(i, d).sampler == d.sampler && CopyPkts(NextOn(i, d).stats) == CopyPkts(d.stats)
    ensures Offered(i) && d.sampler.Some? ==>
              var prof, b := SamplerProfile(rate, burst), SamplerBucket(d.sampler.value);
              && SamplerBucket(NextOn(i, d).sampler.value) == After(prof, b, i.e.now, 0)
              && CopyPkts(NextOn(i, d).stats) == CopyPkts(d.stats) + if Admits(prof, b, i.e.now, 0) then 1 else 0
  {
    hide StepOn, NextOn, Offered, Copies, RingMoved, Admits, After, CopyPkts, SamplerProfile, SamplerBucket, BumpAll,
         Times, Samples, Sampled;
    StepPlane(i, d);
    StepCopies(i, d);
    NextOnIs(i, d);
    if i.t.cfg.Some? {
      NoSampler(i.t.cfg.value, i.e.now);
      if d.sampler.Some? { SamplerIsBucket(i.t.cfg.value, d.sampler.value, i.e.now); }
    }
  }

  lemma NoSampler(c: Config, now: u64)
    ensures !Samples(c, None, now) && Sampled(c, None, now) == None
  {}

  /** Over a run the copies begun are the calls that the sampler's bucket admits; without a sampler there are none. */
  lemma {:induction false} CopiesAreAdmissions(d: Data, ins: seq<Input>, rate: u64, burst: u64)
    requires SetTo(ins, rate, burst)
    ensures CopyPkts(Run(d, ins).stats) == CopyPkts(d.stats) +
            if d.sampler.None? then 0
            else var calls := Handshakes(ins);
              AdmittedPkts(calls, Decisions(SamplerProfile(rate, burst), SamplerBucket(d.sampler.value), calls))
    decreases |ins|
  {
    hide NextOn, Offered, Admits, After, CopyPkts, SamplerProfile, SamplerBucket;
    if ins == [] {
    } else {
      var i, rest := ins[0], ins[1..];
      assert i in ins && forall j | j in rest :: j in ins;
      StepSampler(i, d, rate, burst);
      CopiesAreAdmissions(NextOn(i, d), rest, rate, burst);
      if Offered(i) {
        assert Handshakes(ins)[1..] == Handshakes(rest);
      } else {
        assert Handshakes(ins) == Handshakes(rest);
      }
    }
  }

  /**
   * Copy volume is capped whatever the packet rate: over any run the copies
   * begun stay under the clamped burst plus the clamped rate times the time
   * credited between the first handshake and the last, and hence, on a clock
   * that does not step back, times the time that passed.
   */
  lemma CopyVolumeIsCapped(d: Data, ins: seq<Input>, rate: u64, burst: u64)
    requires SetTo(ins, rate, burst) && Handshakes(ins) != []
    ensures var calls, begun := Handshakes(ins), CopyPkts(Run(d, ins).stats) - CopyPkts(d.stats);
      && begun * TWO32 <= Cap(burst) + Clamp(rate) * Credited(calls[0].now, calls[1..])
      && (Ordered(calls[0].now, calls[1..]) ==>
            begun * TWO32 <= Cap(burst) + Clamp(rate) * (LastSeen(calls[0].now, calls[1..]) - calls[0].now))
  {
    hide Run, Handshakes, Decisions, AdmittedPkts, Credited, Ordered, LastSeen, SamplerBucket, CopyPkts, SetTo;
    var calls := Handshakes(ins);
    CopiesAreAdmissions(d, ins, rate, burst);
    if d.sampler.Some? {
      WindowIsBounded(SamplerProfile(rate, burst), SamplerBucket(d.sampler.value), calls);
    }
    if Ordered(calls[0].now, calls[1..]) {
      CreditedIsElapsed(calls[0].now, calls[1..]);
      TimesMore(Clamp(rate), Credited(calls[0].now, calls[1..]), LastSeen(calls[0].now, calls[1..]) - calls[0].now);
    }
  }
}
