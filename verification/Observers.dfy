/** Dry run changes nothing but what it reports. */
module Observers {
  import opened Basics
  import opened Wire
  import opened Packet
  import opened Decode
  import opened Tables
  import opened Decision
  import opened Runs
  import opened Views
  import opened Agreement

  // -------------------------------------------------- which counters move

  /** The fingerprint plane's own counters. */
  const PLANE: set<Stat> := {FP_EMITTED, FP_THROTTLED, FP_RING_FULL}

  predicate PlaneStat(i: Stat) { i in PLANE }

  /** The decision proper never touches the would-drop or the fingerprint counters. */
  lemma DecideStats(t: Tables, c: Config, d: Data, p: Pkt, len: u32, e: Env)
    ensures forall x | x in Decide(t, c, d, p, len, e).trace :: x != DRYRUN_WOULD_DROP && !PlaneStat(x)
  {
    hide RateLimit, CountRule, Rule3to5;
    RulingSees(t, c, p);
  }

  lemma JudgeStats(t: Tables, c: Config, d: Data, f: Frame, e: Env)
    requires |f| < TWO32
    ensures DRYRUN_WOULD_DROP !in Judge(t, c, d, f, e).trace
  {
    hide Decide, DecodeFrame, Allowed, Protected, Samples, Sampled, Record;
    if DecodeFrame(f).Understood? {
      var p := DecodeFrame(f).pkt.(len := |f|, now := e.now);
      DecideStats(t, c, Observe(c, d, f, p, e).d, p, |f|, e);
    }
  }

  // ---------------------------------------------------------------- dry run

  function SetDry(t: Tables, dry: bool): Tables {
    if t.cfg.None? then t else t.(cfg := Some(t.cfg.value.(dryRun := dry)))
  }

  function Dry(i: Input, dry: bool): Input { i.(t := SetDry(i.t, dry)) }

  function DryAll(ins: seq<Input>, dry: bool): (s: seq<Input>)
    ensures |s| == |ins| && forall k | 0 <= k < |s| :: s[k] == Dry(ins[k], dry)
  {
    seq(|ins|, k requires 0 <= k < |ins| => Dry(ins[k], dry))
  }

  /** The judgement is made before dry run is looked at. */
  lemma JudgeIgnoresDry(t: Tables, c: Config, dry: bool, d: Data, f: Frame, e: Env)
    requires |f| < TWO32
    ensures Judge(SetDry(t, dry), c.(dryRun := dry), d, f, e) == Judge(t, c, d, f, e)
  {
    hide Judge, StaticsFrom, Lookup, AddrBits;
    SameStatics(t, c, SetDry(t, dry), c.(dryRun := dry), 0);
    JudgeSameView(t, c, SetDry(t, dry), c.(dryRun := dry), d, f, e);
  }

  lemma JudgeLeavesStats(t: Tables, c: Config, d: Data, f: Frame, e: Env, s: Stats)
    requires |f| < TWO32
    ensures var a, b := Judge(t, c, d, f, e), Judge(t, c, d.(stats := s), f, e);
            b.dec == a.dec && b.trace == a.trace && b.d == a.d.(stats := s)
  {
    hide Engage, DecodeFrame, Allowed, Protected;
    if DecodeFrame(f).Understood? {
      EngageLeavesStats(t, c, d, f, DecodeFrame(f).pkt.(len := |f|, now := e.now), e, s);
    }
  }

  /** The one counter in which a dry run differs from a live one. */
  const WOULD_DROP: set<Stat> := {DRYRUN_WOULD_DROP}

  /** One packet, judged dry and live from states that differ in the would-drop counter at most. */
  lemma DryStep(i: Input, a: Data, b: Data)
    requires Near(WOULD_DROP, a, b)
    ensures StepOn(Dry(i, true), a).verdict == XDP_PASS
    ensures StepOn(Dry(i, true), a).trace ==
            StepOn(Dry(i, false), b).trace
            + if StepOn(Dry(i, false), b).verdict == XDP_DROP then [DRYRUN_WOULD_DROP] else []
    ensures DRYRUN_WOULD_DROP !in StepOn(Dry(i, false), b).trace
    ensures StepOn(Dry(i, true), a).d == StepOn(Dry(i, false), b).d.(stats := a.stats)
  {
    hide Judge;
    if i.t.cfg.Some? {
      var c := i.t.cfg.value;
      var a', b' := Primed(i, a), Primed(i, b);
      JudgeIgnoresDry(i.t, c, true, a', i.f, i.e);
      JudgeIgnoresDry(i.t, c, false, b', i.f, i.e);
      JudgeLeavesStats(i.t, c, b', i.f, i.e, a.stats);
      JudgeStats(i.t, c, b', i.f, i.e);
    }
  }

  /** Packets dropped over a run, and their octets. */
  function Drops(d: Data, ins: seq<Input>): nat
    decreases |ins|
  {
    if ins == [] then 0
    else (if StepOn(ins[0], d).verdict == XDP_DROP then 1 else 0)
         + Drops(NextOn(ins[0], d), ins[1..])
  }

  function DroppedBytes(d: Data, ins: seq<Input>): nat
    decreases |ins|
  {
    if ins == [] then 0
    else (if StepOn(ins[0], d).verdict == XDP_DROP then |ins[0].f| else 0)
         + DroppedBytes(NextOn(ins[0], d), ins[1..])
  }

  lemma DryNext(i: Input, a: Data, b: Data)
    requires Near(WOULD_DROP, a, b)
    ensures var x, y := Dry(i, true), Dry(i, false);
            var a', b' := NextOn(x, a), NextOn(y, b);
            var drop := StepOn(y, b).verdict == XDP_DROP;
            && Near(WOULD_DROP, a', b')
            && b'.stats[DRYRUN_WOULD_DROP] == b.stats[DRYRUN_WOULD_DROP]
            && a'.stats[DRYRUN_WOULD_DROP].pkts == a.stats[DRYRUN_WOULD_DROP].pkts + (if drop then 1 else 0)
            && a'.stats[DRYRUN_WOULD_DROP].bytes == a.stats[DRYRUN_WOULD_DROP].bytes + (if drop then |i.f| else 0)
  {
    hide Step, BumpAll;
    DryStep(i, a, b);
    var ta, tb := StepOn(Dry(i, true), a).trace, StepOn(Dry(i, false), b).trace;
    assert ta == tb || ta == tb + [DRYRUN_WOULD_DROP];
    AgreeSelf(WOULD_DROP, tb);
    QuietAside(WOULD_DROP, [], tb, [DRYRUN_WOULD_DROP]);
    assert [] + tb + [DRYRUN_WOULD_DROP] == tb + [DRYRUN_WOULD_DROP];
    BumpsAgree(WOULD_DROP, a.stats, b.stats, ta, tb, |i.f|);
    BumpCounts(a.stats, ta, |i.f|, DRYRUN_WOULD_DROP);
    BumpCounts(b.stats, tb, |i.f|, DRYRUN_WOULD_DROP);
    TimesZero(tb, DRYRUN_WOULD_DROP);
    TimesJoin(tb, [DRYRUN_WOULD_DROP], DRYRUN_WOULD_DROP);
  }

  /**
   * Over any run, dry run drops nothing, leaves every bucket, rule counter,
   * sampler, ring and verdict counter as the live run leaves them, and its
   * would-drop counter is exactly what the live run drops.
   */
  lemma {:induction false} DryRunMirrorsLive(a: Data, b: Data, ins: seq<Input>)
    requires Near(WOULD_DROP, a, b)
    ensures Near(WOULD_DROP, Run(a, DryAll(ins, true)), Run(b, DryAll(ins, false)))
    ensures Drops(a, DryAll(ins, true)) == 0
    ensures Run(b, DryAll(ins, false)).stats[DRYRUN_WOULD_DROP] == b.stats[DRYRUN_WOULD_DROP]
    ensures Run(a, DryAll(ins, true)).stats[DRYRUN_WOULD_DROP].pkts ==
            a.stats[DRYRUN_WOULD_DROP].pkts + Drops(b, DryAll(ins, false))
    ensures Run(a, DryAll(ins, true)).stats[DRYRUN_WOULD_DROP].bytes ==
            a.stats[DRYRUN_WOULD_DROP].bytes + DroppedBytes(b, DryAll(ins, false))
    decreases |ins|
  {
    hide NextOn, StepOn, Dry, Near;
    if ins == [] {
    } else {
      var x, y := DryAll(ins, true), DryAll(ins, false);
      assert x[1..] == DryAll(ins[1..], true) && y[1..] == DryAll(ins[1..], false);
      DryNext(ins[0], a, b);
      DryStep(ins[0], a, b);
      DryFrame(ins[0]);
      DryRunMirrorsLive(NextOn(x[0], a), NextOn(y[0], b), ins[1..]);
    }
  }

  lemma DryFrame(i: Input)
    ensures Dry(i, true).f == i.f == Dry(i, false).f
  {}
}
