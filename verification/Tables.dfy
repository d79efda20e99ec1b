/** What userspace writes and the data plane only reads: configuration, prefix tries, rules, profiles. */
module Tables {
  import opened Basics
  import opened Wire
  import opened Packet
  import opened Matcher
  import opened TokenBucket

  datatype Config = Config(
    generation: u32, policyStride: u32, staticStride: u32, staticCount: u32,
    dryRun: bool, dropMalformed: bool, fpEnabled: bool,
    fpBurst: u64, fpRate: u64)

  const RULES_PER_POLICY := 8
  const MAX_STATIC_RULES := 256

  const ACT_DROP: bv8 := 1
  const ACT_RATELIMIT: bv8 := 2

  const EMPTY_RULE: Rule := Rule(0, 0, 0, ZERO_ADDR, ZERO_ADDR, 0, 0, 0, 0, 0, 0, 0, 0, 0, 0)

  /** One policy block: a count and eight slots. */
  datatype RawBlock = RawBlock(nRules: u32, rules: seq<Rule>)
  type Block = b: RawBlock | |b.rules| == RULES_PER_POLICY
    witness RawBlock(0, [EMPTY_RULE, EMPTY_RULE, EMPTY_RULE, EMPTY_RULE,
                        EMPTY_RULE, EMPTY_RULE, EMPTY_RULE, EMPTY_RULE])

  // ------------------------------------------------ longest-prefix tries

  /** A trie is a map from prefixes, written as bit strings. */
  type Trie<V> = map<seq<bool>, V>

  /** The entry under the longest prefix of `key` that has one. */
  function Lookup<V>(t: Trie<V>, key: seq<bool>): Option<V>
    decreases |key|
  {
    if key in t then Some(t[key])
    else if key == [] then None
    else Lookup(t, key[..|key| - 1])
  }

  ghost predicate LongestAt<V>(t: Trie<V>, key: seq<bool>, n: nat)
    requires n <= |key|
  {
    key[..n] in t && forall m: nat | n < m <= |key| :: key[..m] !in t
  }

  /** A lookup finds the longest stored prefix of the key, and nothing only when no prefix is stored. */
  lemma {:induction false} LookupIsLongest<V>(t: Trie<V>, key: seq<bool>)
    ensures Lookup(t, key).None? <==> forall m: nat | m <= |key| :: key[..m] !in t
    ensures Lookup(t, key).Some? ==>
              exists n: nat :: n <= |key| && LongestAt(t, key, n) && Lookup(t, key).value == t[key[..n]]
    decreases |key|
  {
    var w := |key|;
    assert key[..w] == key;
    if key in t {
      assert LongestAt(t, key, w);
    } else if key == [] {
    } else {
      var k := key[..w - 1];
      LookupIsLongest(t, k);
      assert forall m: nat | m < w :: key[..m] == k[..m];
      if Lookup(t, k).Some? {
        var n: nat :| n <= |k| && LongestAt(t, k, n) && Lookup(t, k).value == t[k[..n]];
        assert LongestAt(t, key, n);
      }
    }
  }

  function AddrBits(a: Addr, isV6: bool): (s: seq<bool>)
    ensures |s| == if isV6 then 128 else 32
  {
    seq(if isV6 then 128 else 32, k requires 0 <= k < 128 => NetBit(a, k))
  }

  // ---------------------------------------------------------- all tables

  datatype Tables = Tables(
    cfg: Option<Config>,
    allow4: Trie<bv8>, allow6: Trie<bv8>, protect4: Trie<bv8>, protect6: Trie<bv8>,
    victims4: Trie<u32>, victims6: Trie<u32>,
    statics: seq<Rule>, policies: seq<Block>, profiles: seq<Profile>)

  function Allowed(t: Tables, p: Pkt): bool {
    Lookup(if p.isV6 then t.allow6 else t.allow4, AddrBits(p.src, p.isV6)).Some?
  }

  function Protected(t: Tables, p: Pkt): bool {
    Lookup(if p.isV6 then t.protect6 else t.protect4, AddrBits(p.dst, p.isV6)).Some?
  }

  // --------------------------------------------------- candidate rules

  function StaticKey(cfg: Config, i: nat): u32 {
    ((cfg.generation * cfg.staticStride) % TWO32 + i) % TWO32
  }

  function StaticLimit(cfg: Config): nat {
    if cfg.staticCount > MAX_STATIC_RULES then MAX_STATIC_RULES else cfg.staticCount
  }

  /** The static rules a packet meets from slot `i` on: the active half, cut at the end of the array. */
  function StaticsFrom(t: Tables, cfg: Config, i: nat): seq<Rule>
    decreases StaticLimit(cfg) - i
  {
    if i >= StaticLimit(cfg) || StaticKey(cfg, i) >= |t.statics| then []
    else [t.statics[StaticKey(cfg, i)]] + StaticsFrom(t, cfg, i + 1)
  }

  function PolicyKey(cfg: Config, id: u32): u32 {
    ((cfg.generation * cfg.policyStride) % TWO32 + id) % TWO32
  }

  datatype Policy = NoPolicy | MissingBlock | Rules(rules: seq<Rule>)

  /** The policy block an address leads to, and the live prefix of its slots. */
  function PolicyOf(t: Tables, cfg: Config, anchor: Addr, isV6: bool): Policy {
    match Lookup(if isV6 then t.victims6 else t.victims4, AddrBits(anchor, isV6))
    case None => NoPolicy
    case Some(id) =>
      var idx := PolicyKey(cfg, id);
      if idx >= |t.policies| then MissingBlock
      else
        var b := t.policies[idx];
        Rules(b.rules[..if b.nRules > RULES_PER_POLICY then RULES_PER_POLICY else b.nRules])
  }

  predicate Expired(r: Rule, now: u64) {
    r.expiresAt != 0 && r.expiresAt <= now
  }

  predicate Live(r: Rule, p: Pkt) {
    RuleMatch(r, p) && !Expired(r, p.now)
  }
}
