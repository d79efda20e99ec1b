/**
 * A rate limit is per source: which bucket a packet is charged to, in
 * addresses, and that what other sources send is charged to other buckets.
 */
module Sources {
  import opened Basics
  import opened Wire
  import opened Packet
  import opened Decode
  import opened TokenBucket
  import opened Tables
  import opened Decision
  import opened Precedence
  import opened Runs
  import opened Ceilings

  /** An address as its family writes it: four octets or sixteen. */
  function Octets(a: Addr, isV6: bool): seq<bv8> { if isV6 then a else a[..4] }

  /** Two packets of one family share a bucket exactly when source, anchor and profile are all the same. */
  lemma SharedBucketIff(p: Pkt, a: Addr, i: u32, q: Pkt, b: Addr, j: u32)
    requires p.isV6 == q.isV6
    ensures KeyOf(p, a, i) == KeyOf(q, b, j) <==>
            Octets(p.src, p.isV6) == Octets(q.src, q.isV6) && Octets(a, p.isV6) == Octets(b, q.isV6) && i == j
  {}

  /**
   * The bucket a packet is charged to carries its source, its profile, and the
   * end of it that the deciding rule is anchored on: the source for a rule found
   * under the source, the destination for one found under the destination and
   * for a static.
   */
  lemma ChargedBucket(i: Input, k: Key, v6: bool)
    requires Touches(i, k, v6)
    ensures var p, h := PktOf(i), Decider(i);
      && p.isV6 == v6 && k.profile == h.rule.profile && k.src == Octets(p.src, v6)
      && k.victim == Octets(if h.level.DynSrc? then p.src else p.dst, v6)
  {
    hide Rule3to5, Allowed, Protected, DecodeFrame;
  }

  /** A profile that caps either lane is enforced: an existing bucket that cannot pay in that lane denies. */
  lemma EitherLaneIsEnforced(t: Tables, d: Data, p: Pkt, h: Hit, len: u32, e: Env)
    requires h.Hit? && h.rule.action == ACT_RATELIMIT && h.rule.profile < |t.profiles|
    requires var k := KeyOf(p, h.level.Anchor(p), h.rule.profile);
      var prof := t.profiles[h.rule.profile];
      && k in Buckets(d, p.isV6) && Buckets(d, p.isV6)[k] == Bucket(e.now, 0, 0)
      && (prof.ratePps != 0 || (prof.rateBps != 0 && len != 0))
    ensures Apply(t, d, p, h, len, e).dec == DROP
  {
    hide KeyOf, After;
    ApplyDenies(t, d, p, h, len, e);
    EmptyCannotPay(t.profiles[h.rule.profile], e.now, len);
    assert Denies(t, d, p, h, len, e) by { DeniesByKey(t, d, p, h, len, e); }
  }

  lemma EmptyCannotPay(prof: Profile, now: u64, len: u32)
    requires prof.ratePps != 0 || (prof.rateBps != 0 && len != 0)
    ensures !Admits(prof, Bucket(now, 0, 0), now, len)
  {}

  lemma DeniesByKey(t: Tables, d: Data, p: Pkt, h: Hit, len: u32, e: Env)
    requires h.Hit? && h.rule.action == ACT_RATELIMIT && h.rule.profile < |t.profiles|
    ensures var prof := t.profiles[h.rule.profile];
      Denies(t, d, p, h, len, e) <==>
        (prof.ratePps != 0 || prof.rateBps != 0)
        && CannotPay(Buckets(d, p.isV6), KeyOf(p, h.level.Anchor(p), h.rule.profile), prof, len, e)
  {
    hide CannotPay;
  }

  /** A profile that caps neither lane limits nothing and makes no bucket. */
  lemma NoCapNoLimit(t: Tables, d: Data, p: Pkt, anchor: Addr, profile: u32, len: u32, e: Env)
    requires profile < |t.profiles| ==> t.profiles[profile].ratePps == 0 && t.profiles[profile].rateBps == 0
    ensures RateLimit(t, d, p, anchor, profile, len, e) == Limited(true, d)
  {}

  // ------------------------------------------------------- other sources

  /** The input is of no use to the limiter of this source: not understood, another family, or another source. */
  predicate Foreign(x: Input, src: Addr, isV6: bool) {
    !DecodeFrame(x.f).Understood? || PktOf(x).isV6 != isV6 || Octets(PktOf(x).src, isV6) != Octets(src, isV6)
  }

  /** Every bucket of the source, under any anchor and profile, is as it was. */
  ghost predicate SourceKept(d: Data, d': Data, src: Addr, isV6: bool) {
    forall k: Key | k.src == Octets(src, isV6) :: KeptAt(Buckets(d, isV6), Buckets(d', isV6), k)
  }

  /** No bucket of the source is evicted to make room. */
  ghost predicate Spared(x: Input, src: Addr, isV6: bool) {
    forall k: Key | k.src == Octets(src, isV6) :: k !in x.e.evicted
  }

  /** Whatever another source sends, every bucket of this one stays as it was. */
  lemma OthersLeaveBuckets(x: Input, d: Data, src: Addr, isV6: bool)
    requires Foreign(x, src, isV6) && Spared(x, src, isV6)
    ensures SourceKept(d, NextOn(x, d), src, isV6)
  {
    forall k: Key | k.src == Octets(src, isV6) ensures KeptAt(Buckets(d, isV6), Buckets(NextOn(x, d), isV6), k) {
      if Touches(x, k, isV6) {
        ChargedBucket(x, k, isV6);
        assert false;
      }
      hide KeptAt, Touches, Judge, BumpAll;
      if x.t.cfg.Some? {
        JudgeMoves(x, Primed(x, d), k, isV6);
      } else {
        KeptSame(Buckets(d, isV6), k);
      }
    }
  }

  /** A packet's verdict depends on the state through the buckets of its own source only. */
  lemma VerdictNeedsOwnBuckets(y: Input, d: Data, d': Data)
    requires DecodeFrame(y.f).Understood? ==> SourceKept(d, d', PktOf(y).src, PktOf(y).isV6)
    ensures StepOn(y, d').verdict == StepOn(y, d).verdict
  {
    hide Step, DecodeFrame, Allowed, Protected, SourceKept, RuledOut;
    DropsExactlyWhen(y.t, Primed(y, d), y.f, y.e);
    DropsExactlyWhen(y.t, Primed(y, d'), y.f, y.e);
    if y.t.cfg.Some? && DecodeFrame(y.f).Understood? {
      var p := Seen(DecodeFrame(y.f).pkt, y.f, y.e);
      PrimedKeeps(y, d, d', p.src, p.isV6);
      RuledOutByOwnBuckets(y.t, y.t.cfg.value, Primed(y, d), Primed(y, d'), y.f, p, y.e);
    }
  }

  lemma RuledOutByOwnBuckets(t: Tables, c: Config, d: Data, d': Data, f: Frame, p: Pkt, e: Env)
    requires |f| < TWO32 && SourceKept(d, d', p.src, p.isV6)
    ensures RuledOut(t, c, d', f, p, e) == RuledOut(t, c, d, f, p, e)
  {
    hide FirstAt, Candidates, Denies, SourceKept;
    var cs := Candidates(t, c, p);
    forall i: nat | i < |cs| ensures Denies(t, d', p, cs[i], |f|, e) == Denies(t, d, p, cs[i], |f|, e) {
      SameDenial(t, d, d', p, cs[i], |f|, e);
    }
    forall i: nat | FirstAt(cs, i, p) ensures i < |cs| { InRange(cs, i, p); }
  }

  lemma InRange(cs: seq<Hit>, i: nat, p: Pkt)
    requires FirstAt(cs, i, p)
    ensures i < |cs|
  {}

  lemma PrimedKeeps(y: Input, d: Data, d': Data, src: Addr, isV6: bool)
    requires SourceKept(d, d', src, isV6)
    ensures SourceKept(Primed(y, d), Primed(y, d'), src, isV6)
  {}

  lemma SameDenial(t: Tables, d: Data, d': Data, p: Pkt, h: Hit, len: u32, e: Env)
    requires SourceKept(d, d', p.src, p.isV6)
    ensures Denies(t, d', p, h, len, e) == Denies(t, d, p, h, len, e)
  {
    hide Admits;
    if h.Hit? {
      var end := if h.level.DynSrc? then p.src else p.dst;
      var k := Key(Octets(end, p.isV6), Octets(p.src, p.isV6), h.rule.profile);
      assert KeptAt(Buckets(d, p.isV6), Buckets(d', p.isV6), k);
    }
  }

  lemma KeptAgain(d: Data, mid: Data, d': Data, src: Addr, isV6: bool)
    requires SourceKept(d, mid, src, isV6) && SourceKept(mid, d', src, isV6)
    ensures SourceKept(d, d', src, isV6)
  {
    forall k: Key | k.src == Octets(src, isV6) ensures KeptAt(Buckets(d, isV6), Buckets(d', isV6), k) {
      assert KeptAt(Buckets(d, isV6), Buckets(mid, isV6), k) && KeptAt(Buckets(mid, isV6), Buckets(d', isV6), k);
    }
  }

  lemma {:induction false} FloodLeavesBuckets(d: Data, xs: seq<Input>, src: Addr, isV6: bool)
    requires forall x | x in xs :: Foreign(x, src, isV6) && Spared(x, src, isV6)
    ensures SourceKept(d, Run(d, xs), src, isV6)
    decreases |xs|
  {
    hide Foreign, Spared, SourceKept, NextOn;
    if xs == [] {
      KeptAlready(d, src, isV6);
    } else {
      assert xs[0] in xs && forall x | x in xs[1..] :: x in xs;
      OthersLeaveBuckets(xs[0], d, src, isV6);
      FloodLeavesBuckets(NextOn(xs[0], d), xs[1..], src, isV6);
      KeptAgain(d, NextOn(xs[0], d), Run(NextOn(xs[0], d), xs[1..]), src, isV6);
    }
  }

  lemma KeptAlready(d: Data, src: Addr, isV6: bool)
    ensures SourceKept(d, d, src, isV6)
  {}

  /**
   * A flood from other sources, however long and under whatever rules, changes
   * nothing for this one: its next packet gets the verdict it would have got
   * without them, as long as its buckets are not evicted.
   */
  lemma FloodChangesNothing(d: Data, xs: seq<Input>, y: Input)
    requires DecodeFrame(y.f).Understood?
    requires forall x | x in xs :: Foreign(x, PktOf(y).src, PktOf(y).isV6) && Spared(x, PktOf(y).src, PktOf(y).isV6)
    ensures StepOn(y, Run(d, xs)).verdict == StepOn(y, d).verdict
  {
    hide DecodeFrame, Foreign, Spared, SourceKept, StepOn;
    FloodLeavesBuckets(d, xs, PktOf(y).src, PktOf(y).isV6);
    VerdictNeedsOwnBuckets(y, d, Run(d, xs));
  }
}
