/**
 * What the prefix tries and the policy array mean in addresses: which stored
 * prefix covers an address, and which block a victim's entry selects.
 */
module Lookups {
  import opened Basics
  import opened Wire
  import opened Tables

  /** The bits of an address in front, in the order they go on the wire. */
  ghost predicate FirstBitsOf(e: seq<bool>, a: Addr) {
    |e| <= 128 && forall k: nat | k < |e| :: e[k] == NetBit(a, k)
  }

  /** The stored prefix `e` is the start of some address that agrees with `x` as far as the prefix goes. */
  ghost predicate Covers(e: seq<bool>, x: Addr, isV6: bool) {
    |e| <= (if isV6 then 128 else 32) && exists a: Addr :: FirstBitsOf(e, a) && AgreeOnTop(x, a, |e|)
  }

  lemma CoversFirst(e: seq<bool>, x: Addr, isV6: bool)
    ensures Covers(e, x, isV6) <==> |e| <= |AddrBits(x, isV6)| && e == AddrBits(x, isV6)[..|e|]
  {
    hide NetBit;
    var key := AddrBits(x, isV6);
    if Covers(e, x, isV6) {
      var a: Addr :| FirstBitsOf(e, a) && AgreeOnTop(x, a, |e|);
      forall k: nat | k < |e| ensures e[k] == key[k] {
        assert NetBit(x, k) == NetBit(a, k);
      }
    }
    if |e| <= |key| && e == key[..|e|] {
      forall k: nat | k < |e| ensures e[k] == NetBit(x, k) {
        assert e[k] == key[k];
      }
      assert FirstBitsOf(e, x) && AgreeOnTop(x, x, |e|);
    }
  }

  /** Some stored prefix covers the address. */
  ghost predicate Covered<V>(t: Trie<V>, x: Addr, isV6: bool) {
    exists e :: e in t && Covers(e, x, isV6)
  }

  /** A lookup of an address finds something exactly when some stored prefix covers it. */
  lemma FoundIffCovered<V>(t: Trie<V>, x: Addr, isV6: bool)
    ensures Lookup(t, AddrBits(x, isV6)).Some? <==> Covered(t, x, isV6)
  {
    hide AddrBits, Covers, Lookup;
    var key := AddrBits(x, isV6);
    LookupIsLongest(t, key);
    if Lookup(t, key).Some? {
      var n: nat :| n <= |key| && LongestAt(t, key, n) && Lookup(t, key).value == t[key[..n]];
      CoversFirst(key[..n], x, isV6);
    }
    if e :| e in t && Covers(e, x, isV6) {
      CoversFirst(e, x, isV6);
    }
  }

  /** The longest of the stored prefixes that cover the address. */
  ghost predicate LongestCover<V>(t: Trie<V>, e: seq<bool>, x: Addr, isV6: bool) {
    e in t && Covers(e, x, isV6) && forall o :: o in t && Covers(o, x, isV6) ==> |o| <= |e|
  }

  /** And what it finds is the value of the longest one. */
  lemma FoundIsLongestCover<V>(t: Trie<V>, e: seq<bool>, x: Addr, isV6: bool)
    requires LongestCover(t, e, x, isV6)
    ensures Lookup(t, AddrBits(x, isV6)) == Some(t[e])
  {
    hide AddrBits, Covers, Lookup;
    var key := AddrBits(x, isV6);
    LookupIsLongest(t, key);
    CoversFirst(e, x, isV6);
    assert key[..|e|] in t;
    var n: nat :| n <= |key| && LongestAt(t, key, n) && Lookup(t, key).value == t[key[..n]];
    CoversFirst(key[..n], x, isV6);
    assert |key[..n]| <= |e|;
  }

  /** Whole octets of a prefix are compared as octets: 10.0.0.0/8 covers exactly what starts with 10. */
  lemma WholeOctets(a: Addr, x: Addr, octets: nat)
    requires octets <= 16
    ensures AgreeOnTop(x, a, 8 * octets) <==> x[..octets] == a[..octets]
  {
    hide TopBit;
    if AgreeOnTop(x, a, 8 * octets) {
      forall j: nat | j < octets ensures x[j] == a[j] {
        forall i: nat | i < 8 ensures TopBit(x[j], i) == TopBit(a[j], i) {
          assert NetBit(x, 8 * j + i) == NetBit(a, 8 * j + i);
        }
        SameBits(x[j], a[j]);
      }
    }
    if x[..octets] == a[..octets] {
      forall k: nat | k < 8 * octets ensures NetBit(x, k) == NetBit(a, k) {
        assert x[k / 8] == x[..octets][k / 8] == a[..octets][k / 8] == a[k / 8];
      }
    }
  }

  lemma SameBits(x: bv8, y: bv8)
    requires forall i: nat | i < 8 :: TopBit(x, i) == TopBit(y, i)
    ensures x == y
  {
    assert TopBit(x, 0) == TopBit(y, 0) && TopBit(x, 1) == TopBit(y, 1);
    assert TopBit(x, 2) == TopBit(y, 2) && TopBit(x, 3) == TopBit(y, 3);
    assert TopBit(x, 4) == TopBit(y, 4) && TopBit(x, 5) == TopBit(y, 5);
    assert TopBit(x, 6) == TopBit(y, 6) && TopBit(x, 7) == TopBit(y, 7);
  }

  // ------------------------------------------------------ the policy array

  /** The slot a victim's id selects: the active half's base plus the id, in 32 bits. */
  function Slot(c: Config, id: u32): u32 {
    (c.generation * c.policyStride + id) % TWO32
  }

  lemma SlotIsKey(c: Config, id: u32)
    ensures PolicyKey(c, id) == Slot(c, id)
  {
    WrapTwice(c.generation * c.policyStride, id);
  }

  lemma WrapTwice(x: nat, y: nat)
    ensures (x % TWO32 + y) % TWO32 == (x + y) % TWO32
  {
    var q := x / TWO32;
    assert x == q * TWO32 + x % TWO32;
    ShiftedByWraps(x % TWO32 + y, q);
  }

  lemma {:induction false} ShiftedByWraps(x: nat, q: nat)
    ensures (x + q * TWO32) % TWO32 == x % TWO32
    decreases q
  {
    if q == 0 {
    } else {
      ShiftedByWraps(x, q - 1);
      assert (x + q * TWO32) == (x + (q - 1) * TWO32) + TWO32;
    }
  }

  /** Where no index wraps, that is plainly the base plus the id. */
  lemma SlotPlainly(c: Config, id: u32)
    requires c.generation * c.policyStride + id < TWO32
    ensures Slot(c, id) == c.generation * c.policyStride + id
  {}

  /** Different ids select different slots, wrap or no wrap. */
  lemma SlotsApart(c: Config, id: u32, other: u32)
    requires Slot(c, id) == Slot(c, other)
    ensures id == other
  {
    WrapTwice(c.generation * c.policyStride, id);
    WrapTwice(c.generation * c.policyStride, other);
    Apart((c.generation * c.policyStride) % TWO32, id, other);
  }

  lemma Apart(base: u32, id: u32, other: u32)
    requires (base + id) % TWO32 == (base + other) % TWO32
    ensures id == other
  {
    OneWrap(base + id);
    OneWrap(base + other);
  }

  lemma OneWrap(x: nat)
    requires x < 2 * TWO32
    ensures x % TWO32 == if x < TWO32 then x else x - TWO32
  {}

  /**
   * The rules an address leads to: with `e` the longest stored prefix that
   * covers it, the slots in use of the block in the slot that `e`'s id selects,
   * or a missing block past the end of the array.
   */
  lemma VictimsBlock(t: Tables, c: Config, x: Addr, isV6: bool, e: seq<bool>)
    requires LongestCover(if isV6 then t.victims6 else t.victims4, e, x, isV6)
    ensures var slot := Slot(c, (if isV6 then t.victims6 else t.victims4)[e]);
      PolicyOf(t, c, x, isV6) ==
        if slot < |t.policies| then Rules(t.policies[slot].rules[..Min(t.policies[slot].nRules, 8)]) else MissingBlock
  {
    hide AddrBits, LongestCover, PolicyKey, Lookup;
    FoundIsLongestCover<u32>(if isV6 then t.victims6 else t.victims4, e, x, isV6);
    InTrie<u32>(if isV6 then t.victims6 else t.victims4, e, x, isV6);
    SlotIsKey(c, (if isV6 then t.victims6 else t.victims4)[e]);
  }

  lemma InTrie<V>(t: Trie<V>, e: seq<bool>, x: Addr, isV6: bool)
    requires LongestCover(t, e, x, isV6)
    ensures e in t
  {}

  /** And an address leads nowhere exactly when no victim prefix covers it. */
  lemma NoVictimIffUncovered(t: Tables, c: Config, x: Addr, isV6: bool)
    ensures PolicyOf(t, c, x, isV6).NoPolicy? <==> !Covered(if isV6 then t.victims6 else t.victims4, x, isV6)
  {
    hide AddrBits, Covered, PolicyKey, Lookup;
    FoundIffCovered<u32>(if isV6 then t.victims6 else t.victims4, x, isV6);
  }
}
