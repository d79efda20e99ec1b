/** Two traces, two sets of counters or two states that differ only in counters named beforehand. */
module Agreement {
  import opened Decision
  import opened Runs

  lemma {:induction false} TimesZero(trace: seq<Stat>, i: Stat)
    requires i !in trace
    ensures Times(trace, i) == 0
  {
    if trace == [] {
    } else {
      TimesZero(trace[1..], i);
    }
  }

  /** The same bumps, counters in `quiet` aside. */
  ghost predicate AgreeBut(quiet: set<Stat>, a: seq<Stat>, b: seq<Stat>) {
    forall i: nat | i < STAT_MAX && i !in quiet :: Times(a, i) == Times(b, i)
  }

  lemma AgreeSelf(quiet: set<Stat>, a: seq<Stat>)
    ensures AgreeBut(quiet, a, a)
  {}

  lemma AgreeJoin(quiet: set<Stat>, a1: seq<Stat>, a2: seq<Stat>, b1: seq<Stat>, b2: seq<Stat>)
    requires AgreeBut(quiet, a1, b1) && AgreeBut(quiet, a2, b2)
    ensures AgreeBut(quiet, a1 + a2, b1 + b2)
  {
    forall i: nat | i < STAT_MAX && i !in quiet ensures Times(a1 + a2, i) == Times(b1 + b2, i) {
      TimesJoin(a1, a2, i);
      TimesJoin(b1, b2, i);
    }
  }

  lemma AllQuiet(quiet: set<Stat>, a: seq<Stat>, b: seq<Stat>)
    requires (forall x | x in a :: x in quiet) && forall x | x in b :: x in quiet
    ensures AgreeBut(quiet, a, b)
  {
    forall i: nat | i < STAT_MAX && i !in quiet ensures Times(a, i) == Times(b, i) {
      TimesZero(a, i);
      TimesZero(b, i);
    }
  }

  /** Quiet bumps before or after the others change nothing loud. */
  lemma QuietAside(quiet: set<Stat>, before: seq<Stat>, a: seq<Stat>, after: seq<Stat>)
    requires (forall x | x in before :: x in quiet) && forall x | x in after :: x in quiet
    ensures AgreeBut(quiet, before + a + after, a)
  {
    AllQuiet(quiet, before, []);
    AllQuiet(quiet, after, []);
    AgreeSelf(quiet, a);
    AgreeJoin(quiet, before, a, [], a);
    AgreeJoin(quiet, before + a, after, [] + a, []);
    assert [] + a + [] == a;
  }

  ghost predicate StatsAgree(quiet: set<Stat>, a: Stats, b: Stats) {
    forall i | 0 <= i < STAT_MAX && i !in quiet :: a[i] == b[i]
  }

  lemma BumpsAgree(quiet: set<Stat>, a: Stats, b: Stats, ta: seq<Stat>, tb: seq<Stat>, len: nat)
    requires StatsAgree(quiet, a, b) && AgreeBut(quiet, ta, tb)
    ensures StatsAgree(quiet, BumpAll(a, ta, len), BumpAll(b, tb, len))
  {
    hide BumpAll;
    forall i: nat | i < STAT_MAX && i !in quiet ensures BumpAll(a, ta, len)[i] == BumpAll(b, tb, len)[i] {
      BumpCounts(a, ta, len, i);
      BumpCounts(b, tb, len, i);
    }
  }

  /** States that differ in the quiet counters at most. */
  ghost predicate Near(quiet: set<Stat>, a: Data, b: Data) {
    a == b.(stats := a.stats) && StatsAgree(quiet, a.stats, b.stats)
  }
}
