/**
 * Whole runs of the filter: any packets, any clocks, any kernel answers, and
 * tables that userspace may rewrite between any two packets.
 */
module Runs {
  import opened Basics
  import opened Wire
  import opened Packet
  import opened Decode
  import opened Tables
  import opened Decision

  /**
   * A packet, the tables it meets, what the kernel decides for it, and the
   * rule counters userspace has added (at zero) and removed since the packet
   * before.
   */
  datatype RawInput = Input(t: Tables, f: Frame, e: Env, added: set<u32>, removed: set<u32>)
  type Input = i: RawInput | |i.f| < TWO32
    witness Input(Tables(None, map[], map[], map[], map[], map[], map[], [], [], []), [], Env(0, true, {}, None), {}, {})

  /** The state the packet meets. */
  function Primed(i: Input, d: Data): Data {
    d.(ruleStats := (d.ruleStats - i.removed) + map id | id in i.added :: Counter(0, 0))
  }

  function StepOn(i: Input, d: Data): Outcome { Step(i.t, Primed(i, d), i.f, i.e) }

  function NextOn(i: Input, d: Data): Data { Next(i.t, Primed(i, d), i.f, i.e) }

  function Run(d: Data, ins: seq<Input>): Data
    decreases |ins|
  {
    if ins == [] then d else Run(NextOn(ins[0], d), ins[1..])
  }

  function Verdicts(d: Data, ins: seq<Input>): seq<Verdict>
    decreases |ins|
  {
    if ins == [] then [] else [StepOn(ins[0], d).verdict] + Verdicts(NextOn(ins[0], d), ins[1..])
  }

  // ------------------------------------------------------- counting bumps

  function Times(trace: seq<Stat>, i: Stat): nat {
    if trace == [] then 0 else (if trace[0] == i then 1 else 0) + Times(trace[1..], i)
  }

  lemma TimesOne(x: Stat, i: Stat)
    ensures Times([x], i) == if x == i then 1 else 0
  {
    assert [x][1..] == [];
  }

  lemma {:induction false} TimesJoin(a: seq<Stat>, b: seq<Stat>, i: Stat)
    ensures Times(a + b, i) == Times(a, i) + Times(b, i)
  {
    if a == [] {
      assert a + b == b;
    } else {
      assert (a + b)[1..] == a[1..] + b;
      TimesJoin(a[1..], b, i);
    }
  }

  /** Every counter moves by the number of its bumps, and its bytes by as many frame lengths. */
  lemma {:induction false} BumpCounts(s: Stats, trace: seq<Stat>, len: nat, i: Stat)
    requires i < STAT_MAX
    ensures BumpAll(s, trace, len)[i].pkts == s[i].pkts + Times(trace, i)
    ensures BumpAll(s, trace, len)[i].bytes == s[i].bytes + Times(trace, i) * len
    decreases |trace|
  {
    if trace == [] {
    } else {
      BumpCounts(Bump(s, trace[0], len), trace[1..], len, i);
    }
  }

  // ------------------------------------------------- one terminal per packet

  /** The observation counters; every other one names the branch that decided a packet. */
  predicate Observation(i: Stat) {
    || i == PASS_FRAG_NOPORTS || i == PASS_RULE_EXPIRED || i == DRYRUN_WOULD_DROP || i == ERR_POLICY_MISSING
    || i == FP_EMITTED || i == FP_THROTTLED || i == FP_RING_FULL
  }

  function Terminals(trace: seq<Stat>): nat {
    if trace == [] then 0
    else (if trace[0] < STAT_MAX && !Observation(trace[0]) then 1 else 0) + Terminals(trace[1..])
  }

  lemma {:induction false} TerminalsJoin(a: seq<Stat>, b: seq<Stat>)
    ensures Terminals(a + b) == Terminals(a) + Terminals(b)
  {
    if a == [] {
      assert a + b == b;
    } else {
      assert (a + b)[1..] == a[1..] + b;
      TerminalsJoin(a[1..], b);
    }
  }

  lemma {:induction false} NoTerminals(trace: seq<Stat>)
    requires forall x | x in trace :: Observation(x)
    ensures Terminals(trace) == 0
  {
    if trace == [] {
    } else {
      NoTerminals(trace[1..]);
    }
  }

  lemma RulingIsNoTerminal(t: Tables, cfg: Config, p: Pkt)
    ensures Terminals(Rule3to5(t, cfg, p).trace) == 0
  {
    hide Rule3to5;
    RulingSees(t, cfg, p);
    NoTerminals(Rule3to5(t, cfg, p).trace);
  }

  lemma ApplyHasOneTerminal(t: Tables, d: Data, p: Pkt, h: Hit, len: u32, e: Env)
    requires h.Hit?
    ensures Terminals(Apply(t, d, p, h, len, e).trace) == 1
  {
    hide RateLimit, CountRule;
  }

  lemma EngageHasOneTerminal(t: Tables, cfg: Config, d: Data, f: Frame, p: Pkt, e: Env)
    requires |f| < TWO32
    ensures Terminals(Engage(t, cfg, d, f, p, e).trace) == 1
    ensures Engage(t, cfg, d, f, p, e).dec != NOMATCH
  {
    hide Apply, Rule3to5, Samples, Sampled, Record;
    var o, r := Observe(cfg, d, f, p, e), Rule3to5(t, cfg, p);
    RulingIsNoTerminal(t, cfg, p);
    var a := Decide(t, cfg, o.d, p, |f|, e);
    if r.hit.Hit? {
      ApplyHasOneTerminal(t, o.d, p, r.hit, |f|, e);
      ApplyDecides(t, o.d, p, r.hit, |f|, e);
      TerminalsJoin(r.trace, Apply(t, o.d, p, r.hit, |f|, e).trace);
      TerminalsJoin(o.trace, a.trace);
    } else {
      TerminalsJoin(o.trace, a.trace);
      TerminalsJoin(o.trace + a.trace, [PASS_DEFAULT]);
    }
  }

  lemma ApplyDecides(t: Tables, d: Data, p: Pkt, h: Hit, len: u32, e: Env)
    requires h.Hit?
    ensures Apply(t, d, p, h, len, e).dec != NOMATCH
  {
    hide RateLimit, CountRule;
  }

  lemma JudgeHasOneTerminal(t: Tables, cfg: Config, d: Data, f: Frame, e: Env)
    requires |f| < TWO32
    ensures Terminals(Judge(t, cfg, d, f, e).trace) == 1
    ensures Judge(t, cfg, d, f, e).dec != NOMATCH
  {
    hide Engage, DecodeFrame, Allowed, Protected;
    if DecodeFrame(f).Understood? {
      var p := DecodeFrame(f).pkt.(len := |f|, now := e.now);
      EngageHasOneTerminal(t, cfg, d, f, p, e);
      TerminalsJoin(FragSeen(p), [PASS_ALLOW_SRC]);
      TerminalsJoin(FragSeen(p), [PASS_PROTECT_DST]);
      TerminalsJoin(FragSeen(p), Engage(t, cfg, d, f, p, e).trace);
    }
  }

  lemma StepHasOneTerminal(t: Tables, d: Data, f: Frame, e: Env)
    requires |f| < TWO32
    ensures Terminals(Step(t, d, f, e).trace) == 1
  {
    hide Judge;
    if t.cfg.Some? {
      JudgeHasOneTerminal(t, t.cfg.value, d, f, e);
      TerminalsJoin(Judge(t, t.cfg.value, d, f, e).trace, [DRYRUN_WOULD_DROP]);
    }
  }

  /** Packets (and octets) summed over the terminal counters below `k`. */
  function TerminalPkts(s: Stats, k: nat): nat
    requires k <= STAT_MAX
  {
    if k == 0 then 0 else TerminalPkts(s, k - 1) + if Observation(k - 1) then 0 else s[k - 1].pkts
  }

  function TerminalBytes(s: Stats, k: nat): nat
    requires k <= STAT_MAX
  {
    if k == 0 then 0 else TerminalBytes(s, k - 1) + if Observation(k - 1) then 0 else s[k - 1].bytes
  }

  lemma {:induction false} BumpSums(s: Stats, i: Stat, len: nat, k: nat)
    requires k <= STAT_MAX
    ensures TerminalPkts(Bump(s, i, len), k) == TerminalPkts(s, k) + if i < k && !Observation(i) then 1 else 0
    ensures TerminalBytes(Bump(s, i, len), k) == TerminalBytes(s, k) + if i < k && !Observation(i) then len else 0
  {
    if k == 0 {
    } else {
      BumpSums(s, i, len, k - 1);
    }
  }

  lemma {:induction false} TraceSums(s: Stats, trace: seq<Stat>, len: nat)
    ensures TerminalPkts(BumpAll(s, trace, len), STAT_MAX) == TerminalPkts(s, STAT_MAX) + Terminals(trace)
    ensures TerminalBytes(BumpAll(s, trace, len), STAT_MAX) == TerminalBytes(s, STAT_MAX) + Terminals(trace) * len
    decreases |trace|
  {
    if trace == [] {
    } else {
      BumpSums(s, trace[0], len, STAT_MAX);
      TraceSums(Bump(s, trace[0], len), trace[1..], len);
    }
  }

  function FrameBytes(ins: seq<Input>): nat {
    if ins == [] then 0 else |ins[0].f| + FrameBytes(ins[1..])
  }

  /** Over any run the terminal counters sum to the packets seen, and their bytes to the frame lengths. */
  lemma {:induction false} CountersConserve(d: Data, ins: seq<Input>)
    ensures TerminalPkts(Run(d, ins).stats, STAT_MAX) == TerminalPkts(d.stats, STAT_MAX) + |ins|
    ensures TerminalBytes(Run(d, ins).stats, STAT_MAX) == TerminalBytes(d.stats, STAT_MAX) + FrameBytes(ins)
    decreases |ins|
  {
    hide Step, TerminalPkts, TerminalBytes, BumpAll;
    if ins == [] {
    } else {
      var i := ins[0];
      StepHasOneTerminal(i.t, Primed(i, d), i.f, i.e);
      TraceSums(d.stats, StepOn(i, d).trace, |i.f|);
      CountersConserve(NextOn(i, d), ins[1..]);
    }
  }
}
