/** What a packet cannot tell apart: tables that show it the same view, and the two halves of the double buffer. */
module Views {
  import opened Basics
  import opened Wire
  import opened Packet
  import opened Decode
  import opened TokenBucket
  import opened Tables
  import opened Decision

  /** The two tables offer the same lists, limits and candidate rules to every packet. */
  ghost predicate SameView(t1: Tables, c1: Config, t2: Tables, c2: Config) {
    && t2 == t1.(cfg := t2.cfg, statics := t2.statics, policies := t2.policies)
    && c2 == c1.(dryRun := c2.dryRun)
    && StaticsFrom(t1, c1, 0) == StaticsFrom(t2, c2, 0)
    && forall a: Addr, v6: bool :: PolicyOf(t1, c1, a, v6) == PolicyOf(t2, c2, a, v6)
  }

  /** The static candidates depend on the array and on three fields of the configuration. */
  lemma {:induction false} SameStatics(t1: Tables, c1: Config, t2: Tables, c2: Config, i: nat)
    requires t1.statics == t2.statics
    requires c1.generation == c2.generation && c1.staticStride == c2.staticStride && c1.staticCount == c2.staticCount
    ensures StaticsFrom(t1, c1, i) == StaticsFrom(t2, c2, i)
    decreases StaticLimit(c1) - i
  {
    assert StaticKey(c1, i) == StaticKey(c2, i);
    hide StaticKey;
    if i >= StaticLimit(c1) || StaticKey(c1, i) >= |t1.statics| {
    } else {
      SameStatics(t1, c1, t2, c2, i + 1);
    }
  }

  lemma RuleSameView(t1: Tables, c1: Config, t2: Tables, c2: Config, p: Pkt)
    requires SameView(t1, c1, t2, c2)
    ensures Rule3to5(t1, c1, p) == Rule3to5(t2, c2, p)
  {
    hide StaticsFrom, PolicyOf, ScanRules, ScanPolicy, Then;
  }

  lemma ApplySameProfiles(t1: Tables, t2: Tables, d: Data, p: Pkt, h: Hit, len: u32, e: Env)
    requires h.Hit? && t1.profiles == t2.profiles
    ensures Apply(t1, d, p, h, len, e) == Apply(t2, d, p, h, len, e)
  {
    hide CountRule, Admits, After, KeyOf, BucketFor, Buckets;
  }

  lemma EngageSameView(t1: Tables, c1: Config, t2: Tables, c2: Config, d: Data, f: Frame, p: Pkt, e: Env)
    requires |f| < TWO32 && SameView(t1, c1, t2, c2)
    ensures Engage(t1, c1, d, f, p, e) == Engage(t2, c2, d, f, p, e)
  {
    hide Rule3to5, Apply, Record;
    RuleSameView(t1, c1, t2, c2, p);
    var r, o := Rule3to5(t1, c1, p), Observe(c1, d, f, p, e);
    if r.hit.Hit? {
      ApplySameProfiles(t1, t2, o.d, p, r.hit, |f|, e);
    }
  }

  /** What a packet cannot tell apart it is judged by alike. */
  lemma JudgeSameView(t1: Tables, c1: Config, t2: Tables, c2: Config, d: Data, f: Frame, e: Env)
    requires |f| < TWO32 && SameView(t1, c1, t2, c2)
    ensures Judge(t1, c1, d, f, e) == Judge(t2, c2, d, f, e)
  {
    hide Engage, DecodeFrame, Lookup, AddrBits;
    if DecodeFrame(f).Understood? {
      EngageSameView(t1, c1, t2, c2, d, f, DecodeFrame(f).pkt.(len := |f|, now := e.now), e);
    }
  }

  // ---------------------------------------------------------- bank isolation

  /** Slot `k` belongs to the active half of an array with `stride` slots a half. */
  predicate InBank(generation: u32, stride: u32, k: nat) {
    generation * stride <= k < generation * stride + stride
  }

  /** The layout userspace promises: counts and ids stay inside a half, and no index wraps. */
  ghost predicate LaidOut(t: Tables, c: Config) {
    && StaticLimit(c) <= c.staticStride
    && c.generation * c.staticStride + c.staticStride <= TWO32
    && c.generation * c.policyStride + c.policyStride <= TWO32
    && (forall k :: k in t.victims4 ==> t.victims4[k] < c.policyStride)
    && (forall k :: k in t.victims6 ==> t.victims6[k] < c.policyStride)
  }

  /** Slot `k` holds a static rule of the active half that the scan goes as far as. */
  predicate InScan(c: Config, k: nat) {
    c.generation * c.staticStride <= k < c.generation * c.staticStride + StaticLimit(c)
  }

  /** `t2` is `t1` with the other half of both arrays, and the statics past the scan, rewritten at will. */
  ghost predicate OtherHalfRewritten(t1: Tables, t2: Tables, c: Config) {
    && t2 == t1.(statics := t2.statics, policies := t2.policies)
    && |t1.statics| == |t2.statics| && |t1.policies| == |t2.policies|
    && (forall k | 0 <= k < |t1.statics| && InScan(c, k) :: t1.statics[k] == t2.statics[k])
    && (forall k | 0 <= k < |t1.policies| && InBank(c.generation, c.policyStride, k) ::
          t1.policies[k] == t2.policies[k])
  }

  lemma KeyInBank(generation: u32, stride: u32, i: nat)
    requires i < stride && generation * stride + stride <= TWO32
    ensures ((generation * stride) % TWO32 + i) % TWO32 == generation * stride + i
    ensures InBank(generation, stride, generation * stride + i)
  {
    var base := generation * stride;
    assert 0 <= base < TWO32;
  }

  lemma ScanSlot(t1: Tables, t2: Tables, c: Config, i: nat)
    requires OtherHalfRewritten(t1, t2, c) && i < StaticLimit(c)
    requires StaticKey(c, i) == c.generation * c.staticStride + i
    ensures |t1.statics| == |t2.statics|
    ensures StaticKey(c, i) < |t1.statics| ==> t1.statics[StaticKey(c, i)] == t2.statics[StaticKey(c, i)]
  {
    assert InScan(c, StaticKey(c, i));
    hide InScan, StaticKey;
  }

  lemma {:induction false} BankStatics(t1: Tables, t2: Tables, c: Config, i: nat)
    requires LaidOut(t1, c) && OtherHalfRewritten(t1, t2, c)
    ensures StaticsFrom(t1, c, i) == StaticsFrom(t2, c, i)
    decreases StaticLimit(c) - i
  {
    if i >= StaticLimit(c) {
    } else {
      KeyInBank(c.generation, c.staticStride, i);
      ScanSlot(t1, t2, c, i);
      hide StaticKey, OtherHalfRewritten;
      BankStatics(t1, t2, c, i + 1);
    }
  }

  lemma {:induction false} LookupKeepsBound(v: Trie<u32>, key: seq<bool>, bound: nat)
    requires forall k :: k in v ==> v[k] < bound
    ensures Lookup<u32>(v, key).Some? ==> Lookup<u32>(v, key).value < bound
    decreases |key|
  {
    if key in v || key == [] {
    } else {
      LookupKeepsBound(v, key[..|key| - 1], bound);
    }
  }

  lemma BankPolicy(t1: Tables, t2: Tables, c: Config, a: Addr, v6: bool)
    requires LaidOut(t1, c) && OtherHalfRewritten(t1, t2, c)
    ensures PolicyOf(t1, c, a, v6) == PolicyOf(t2, c, a, v6)
  {
    hide Lookup, AddrBits;
    var v := if v6 then t1.victims6 else t1.victims4;
    var id := Lookup<u32>(v, AddrBits(a, v6));
    LookupKeepsBound(v, AddrBits(a, v6), c.policyStride);
    if id.Some? {
      KeyInBank(c.generation, c.policyStride, id.value);
      BankBlock(t1, t2, c, id.value);
    }
  }

  lemma BankBlock(t1: Tables, t2: Tables, c: Config, id: u32)
    requires OtherHalfRewritten(t1, t2, c) && InBank(c.generation, c.policyStride, PolicyKey(c, id))
    ensures |t1.policies| == |t2.policies|
    ensures PolicyKey(c, id) < |t1.policies| ==> t1.policies[PolicyKey(c, id)] == t2.policies[PolicyKey(c, id)]
  {
    hide PolicyKey, InBank;
  }

  /** Whatever userspace writes to the inactive half, no packet of the active generation can notice. */
  lemma BanksAreIsolated(t1: Tables, t2: Tables, d: Data, f: Frame, e: Env)
    requires |f| < TWO32
    requires t1.cfg.Some? ==> LaidOut(t1, t1.cfg.value) && OtherHalfRewritten(t1, t2, t1.cfg.value)
    requires t1.cfg.None? ==> t2.cfg.None?
    ensures Step(t1, d, f, e) == Step(t2, d, f, e)
  {
    hide Judge;
    if t1.cfg.Some? {
      var c := t1.cfg.value;
      BankStatics(t1, t2, c, 0);
      forall a: Addr, v6: bool ensures PolicyOf(t1, c, a, v6) == PolicyOf(t2, c, a, v6) {
        BankPolicy(t1, t2, c, a, v6);
      }
      JudgeSameView(t1, c, t2, c, d, f, e);
    }
  }
}
