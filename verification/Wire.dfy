/** Octets, addresses and the network bit order every other module reads them in. */
module Wire {

  type u32 = x: int | 0 <= x < 0x1_0000_0000
  type u64 = x: int | 0 <= x < 0x1_0000_0000_0000_0000

  const TWO32: int := 0x1_0000_0000
  const TWO64: int := 0x1_0000_0000_0000_0000

  type Frame = seq<bv8>

  /** The 16-octet address slot; an IPv4 address sits in the first four octets. */
  type Addr = b: seq<bv8> | |b| == 16 witness [0, 0, 0, 0, 0, 0, 0, 0, 0, 0, 0, 0, 0, 0, 0, 0]

  const ZERO_ADDR: Addr := [0, 0, 0, 0, 0, 0, 0, 0, 0, 0, 0, 0, 0, 0, 0, 0]

  /** A four-octet address left-aligned in the slot. */
  function LeftAlign(a: seq<bv8>): Addr
    requires |a| == 4
  {
    a + [0, 0, 0, 0, 0, 0, 0, 0, 0, 0, 0, 0]
  }

  /** Two octets read in network order. */
  function Be16(hi: bv8, lo: bv8): bv16 {
    ((hi as bv16) << 8) | (lo as bv16)
  }

  function Hi(x: bv16): bv8 { (x >> 8) as bv8 }
  function Lo(x: bv16): bv8 { (x & 0xFF) as bv8 }

  lemma Be16RoundTrip(x: bv16)
    ensures Be16(Hi(x), Lo(x)) == x
  {}

  /** The first octet is the one that weighs more. */
  lemma Be16Weighs(hi: bv8, lo: bv8)
    ensures Be16(hi, lo) == (hi as bv16) * 256 + (lo as bv16)
  {}

  /** The address comes first in its slot, and nothing after it. */
  lemma LeftAligned(a: seq<bv8>)
    requires |a| == 4
    ensures LeftAlign(a)[..4] == a && forall k | 4 <= k < 16 :: LeftAlign(a)[k] == 0
  {}

  /** Bit `i` of an octet, counted from the most significant. */
  predicate TopBit(b: bv8, i: nat)
    requires i < 8
  {
    if i == 0 then b & 0x80 != 0
    else if i == 1 then b & 0x40 != 0
    else if i == 2 then b & 0x20 != 0
    else if i == 3 then b & 0x10 != 0
    else if i == 4 then b & 0x08 != 0
    else if i == 5 then b & 0x04 != 0
    else if i == 6 then b & 0x02 != 0
    else b & 0x01 != 0
  }

  /** Bit `k` of an address, in the order the bits go on the wire. */
  predicate NetBit(a: Addr, k: nat)
    requires k < 128
  {
    TopBit(a[k / 8], k % 8)
  }

  /** The two addresses have the same first `n` bits. */
  ghost predicate AgreeOnTop(a: Addr, p: Addr, n: nat)
    requires n <= 128
  {
    forall k: nat | k < n :: NetBit(a, k) == NetBit(p, k)
  }
}
