/** Where the bucket meets its promises exactly, and where the u64 words stop it. */
module BucketLaws {
  import opened Basics
  import opened Wire
  import opened TokenBucket

  // ----------------------------------------------- the sum that can wrap

  /** The largest sum a lane can reach still fits a u64. */
  predicate Roomy(rate: u64, burst: u64) {
    Clamp(rate) + Clamp(burst) < TWO32
  }

  lemma RoomySum(tokens: u64, delta: nat, rate: u64, burst: u64)
    requires Roomy(rate, burst) && tokens <= Cap(burst) && delta <= TWO32
    ensures tokens + delta * Clamp(rate) < TWO64
    ensures Refilled(tokens, delta, rate, burst) == Min(tokens + delta * Clamp(rate), Cap(burst))
    ensures Refilled(tokens, delta, rate, burst) >= tokens
  {
    ProductFits(delta, Clamp(rate));
    assert tokens + delta * Clamp(rate) < TWO64;
  }

  /** Some wait makes a lane within its cap hold fewer tokens than before. */
  ghost predicate WaitingCanCost(rate: u64, burst: u64) {
    exists tokens: u64, delta: nat ::
      delta <= TWO32 && tokens <= Cap(burst) && Refilled(tokens, delta, rate, burst) < tokens
  }

  /** Waiting never costs a token, whatever the state, exactly when the clamped rate and burst leave room in a u64. */
  lemma WaitingNeverCostsIffRoomy(rate: u64, burst: u64)
    ensures !WaitingCanCost(rate, burst) <==> Roomy(rate, burst)
  {
    if Roomy(rate, burst) {
      forall tokens: u64, delta: nat | delta <= TWO32 && tokens <= Cap(burst)
        ensures Refilled(tokens, delta, rate, burst) >= tokens
      {
        RoomySum(tokens, delta, rate, burst);
      }
    } else {
      var sum := Cap(burst) + TWO32 * Clamp(rate);
      assert TWO64 <= sum < 2 * TWO64;
      assert sum % TWO64 == sum - TWO64;
      assert Refilled(Cap(burst), TWO32, rate, burst) < Cap(burst);
    }
  }

  /** A full packet lane at the largest burst, refilled one unit a nanosecond, is empty after 2^32 ns of silence. */
  lemma FullLaneCanEmpty()
    ensures var prof := Profile(1, Q32_MAX, 0, 0, 1, 0);
            var b := Bucket(0, Cap(Q32_MAX), 0);
            Admits(prof, b, 0, 64) && !Admits(prof, b, TWO32, 64)
  {
    assert Cap(Q32_MAX) + TWO32 * 1 == TWO64;
  }

  // --------------------------------------------------- a source's first packet

  function LowHalf(x: u64): nat { x % TWO32 }

  lemma ShiftKeepsLowHalf(x: u64)
    ensures Shl32(x) == LowHalf(x) * TWO32
  {
    var h, l := x / TWO32, x % TWO32;
    assert x * TWO32 == h * TWO64 + l * TWO32;
    assert 0 <= l * TWO32 < TWO64;
  }

  lemma FirstRefill(rate: u64, burst: u64)
    ensures Refilled(Shl32(burst), 0, rate, burst) == LowHalf(burst) * TWO32
  {
    ShiftKeepsLowHalf(burst);
    assert 0 * Clamp(rate) == 0;
    assert LowHalf(burst) <= Clamp(burst);
  }

  /** A new source is admitted exactly when the low halves of its bursts pay for the packet. */
  lemma FirstPacket(prof: Profile, now: u64, len: u32)
    ensures Admits(prof, Fresh(prof, now), now, len) <==>
            && (prof.ratePps != 0 ==> LowHalf(prof.burstPps) >= 1)
            && (prof.rateBps != 0 ==> LowHalf(prof.burstBps) >= len)
  {
    FirstRefill(prof.pktPerNs, prof.burstPps);
    FirstRefill(prof.bytePerNs, prof.burstBps);
    if prof.rateBps != 0 {
      var l := LowHalf(prof.burstBps);
      assert l * TWO32 >= len * TWO32 <==> l >= len;
    }
  }

  /** The first bucket holds the whole clamped burst only while the burst fits, or its low half happens to be full. */
  lemma FreshLaneIsFullIff(rate: u64, burst: u64)
    ensures Refilled(Shl32(burst), 0, rate, burst) == Cap(burst) <==> burst < TWO32 || LowHalf(burst) == Q32_MAX
  {
    FirstRefill(rate, burst);
  }

  /** So a burst of 2^32 packets starts a source with nothing. */
  lemma HugeBurstStartsEmpty(now: u64, len: u32)
    ensures var prof := Profile(1, TWO32, 0, 0, 1, 0); !Admits(prof, Fresh(prof, now), now, len)
  {
    FirstPacket(Profile(1, TWO32, 0, 0, 1, 0), now, len);
  }

  // -------------------------------------------------------- a clock that steps back

  /** Stepping back underflows into a full credit, except within 2^32 ns of the far end of the clock. */
  lemma SteppingBackCredits(last: u64, now: u64)
    requires now < last
    ensures Elapsed(last, now) == TWO32 <==> last - now <= TWO64 - TWO32
  {
    assert (now - last) % TWO64 == TWO64 - (last - now);
  }

  // ---------------------------------------------------------- denied calls

  /** Both active lanes leave room and hold no more than their cap. */
  predicate Settled(prof: Profile, b: Bucket) {
    && (prof.ratePps != 0 ==> Roomy(prof.pktPerNs, prof.burstPps) && b.pkts <= Cap(prof.burstPps))
    && (prof.rateBps != 0 ==> Roomy(prof.bytePerNs, prof.burstBps) && b.bytes <= Cap(prof.burstBps))
  }

  lemma LaneTwoSteps(tokens: u64, d1: nat, d2: nat, rate: u64, burst: u64)
    requires Roomy(rate, burst) && tokens <= Cap(burst) && d1 + d2 <= TWO32
    ensures Refilled(Refilled(tokens, d1, rate, burst), d2, rate, burst) == Refilled(tokens, d1 + d2, rate, burst)
  {
    RoomySum(tokens, d1, rate, burst);
    RoomySum(Refilled(tokens, d1, rate, burst), d2, rate, burst);
    RoomySum(tokens, d1 + d2, rate, burst);
    Distribute(Clamp(rate), d1, d2);
    assert d2 * Clamp(rate) >= 0;
  }

  /** Looking at a settled bucket on the way does not change what is seen later. */
  lemma LookingIsFree(prof: Profile, b: Bucket, t1: u64, t2: u64)
    requires Settled(prof, b) && b.last <= t1 <= t2 <= b.last + TWO32
    ensures AsOf(prof, AsOf(prof, b, t1), t2) == AsOf(prof, b, t2)
  {
    hide Refilled;
    var d1, d2 := t1 - b.last, t2 - t1;
    if prof.ratePps != 0 { LaneTwoSteps(b.pkts, d1, d2, prof.pktPerNs, prof.burstPps); }
    if prof.rateBps != 0 { LaneTwoSteps(b.bytes, d1, d2, prof.bytePerNs, prof.burstBps); }
  }

  lemma StaysSettled(prof: Profile, b: Bucket, now: u64, len: u32)
    requires Settled(prof, b)
    ensures Settled(prof, After(prof, b, now, len)) && Settled(prof, AsOf(prof, b, now))
  {}

  lemma AtOnce(prof: Profile, b: Bucket)
    requires Settled(prof, b)
    ensures AsOf(prof, b, b.last) == b
  {}

  /** The calls a mask keeps. */
  function Kept<T>(xs: seq<T>, keep: seq<bool>): seq<T>
    requires |xs| == |keep|
  {
    if xs == [] then [] else (if keep[0] then [xs[0]] else []) + Kept(xs[1..], keep[1..])
  }

  /** The clock does not step back, and no call comes more than 2^32 ns after the kept call before it. */
  ghost predicate Spaced(lastKept: u64, last: u64, calls: seq<Arrival>, keep: seq<bool>)
    requires |calls| == |keep|
    decreases |calls|
  {
    calls != [] ==>
      && lastKept <= last <= calls[0].now <= lastKept + TWO32
      && Spaced(if keep[0] then calls[0].now else lastKept, calls[0].now, calls[1..], keep[1..])
  }

  ghost predicate OnlyDeniedDropped(keep: seq<bool>, ds: seq<bool>)
    requires |keep| == |ds|
  {
    forall i | 0 <= i < |keep| :: !keep[i] ==> !ds[i]
  }

  /**
   * `full` is the bucket of the whole run, `kept` the bucket of the run with
   * denied calls removed: they differ only in when they were last looked at.
   */
  lemma {:induction false} DeniedRunsAgree(prof: Profile, full: Bucket, kept: Bucket,
                                           calls: seq<Arrival>, keep: seq<bool>)
    requires |calls| == |keep| && Settled(prof, kept) && kept.last <= full.last <= kept.last + TWO32
    requires full == AsOf(prof, kept, full.last)
    requires Spaced(kept.last, full.last, calls, keep)
    requires OnlyDeniedDropped(keep, Decisions(prof, full, calls))
    ensures Decisions(prof, kept, Kept(calls, keep)) == Kept(Decisions(prof, full, calls), keep)
    ensures var end := Final(prof, full, calls);
            end == AsOf(prof, Final(prof, kept, Kept(calls, keep)), end.last)
    decreases |calls|
  {
    if calls == [] {
    } else {
      hide PktTokens, ByteTokens;
      var c := calls[0];
      var ds := Decisions(prof, full, calls);
      var full' := After(prof, full, c.now, c.len);
      assert ds[1..] == Decisions(prof, full', calls[1..]);
      assert forall i | 0 <= i < |keep| - 1 :: keep[1..][i] == keep[i + 1] && ds[1..][i] == ds[i + 1];
      LookingIsFree(prof, kept, full.last, c.now);
      assert AsOf(prof, full, c.now) == AsOf(prof, kept, c.now);
      SameCall(prof, full, kept, c);
      StaysSettled(prof, kept, c.now, c.len);
      if keep[0] {
        AtOnce(prof, full');
        DeniedRunsAgree(prof, full', full', calls[1..], keep[1..]);
        assert Kept(calls, keep) == [c] + Kept(calls[1..], keep[1..]);
        assert Kept(calls, keep)[1..] == Kept(calls[1..], keep[1..]);
      } else {
        assert !ds[0];
        DeniedRunsAgree(prof, full', kept, calls[1..], keep[1..]);
        assert Kept(calls, keep) == Kept(calls[1..], keep[1..]);
        assert Kept(ds, keep) == Kept(ds[1..], keep[1..]);
      }
    }
  }

  /** Buckets that look the same at a call decide it the same way. */
  lemma SameCall(prof: Profile, a: Bucket, b: Bucket, c: Arrival)
    requires AsOf(prof, a, c.now) == AsOf(prof, b, c.now)
    ensures Admits(prof, a, c.now, c.len) == Admits(prof, b, c.now, c.len)
    ensures After(prof, a, c.now, c.len) == After(prof, b, c.now, c.len)
  {
    hide PktTokens, ByteTokens;
  }

  /** Removing denied calls from a run changes no other decision, and no token at the end. */
  lemma DeniedCallsCostNothing(prof: Profile, b: Bucket, calls: seq<Arrival>, keep: seq<bool>)
    requires |calls| == |keep| && Settled(prof, b) && Spaced(b.last, b.last, calls, keep)
    requires OnlyDeniedDropped(keep, Decisions(prof, b, calls))
    ensures Decisions(prof, b, Kept(calls, keep)) == Kept(Decisions(prof, b, calls), keep)
    ensures var end := Final(prof, b, calls);
            end == AsOf(prof, Final(prof, b, Kept(calls, keep)), end.last)
  {
    AtOnce(prof, b);
    DeniedRunsAgree(prof, b, b, calls, keep);
  }

  // ------------------------------------------------------------ exact books

  /** Octets of a list of calls. */
  function Octets(calls: seq<Arrival>): nat {
    if calls == [] then 0 else calls[0].len + Octets(calls[1..])
  }

  /** What the bucket holds pays for every one of the calls: 2^32 a packet and 2^32 an octet, lane by lane. */
  predicate Affords(prof: Profile, b: Bucket, calls: seq<Arrival>) {
    && (prof.ratePps != 0 ==> |calls| * TWO32 <= b.pkts)
    && (prof.rateBps != 0 ==> Octets(calls) * TWO32 <= b.bytes)
  }

  ghost predicate AllAdmitted(ds: seq<bool>) {
    forall k | 0 <= k < |ds| :: ds[k]
  }

  lemma AllOfBoth(first: bool, rest: seq<bool>)
    ensures AllAdmitted([first] + rest) <==> first && AllAdmitted(rest)
  {
    var ds := [first] + rest;
    assert ds[0] == first && ds[1..] == rest;
    assert forall k | 0 <= k < |rest| :: rest[k] == ds[k + 1];
  }

  /**
   * A burst is spent to the last token: calls that come all at once, on a
   * bucket within its caps, are all admitted exactly when it holds enough for
   * them together, and what they leave is what it held less exactly their cost.
   */
  lemma {:induction false} BurstIsSpentExactly(prof: Profile, b: Bucket, calls: seq<Arrival>)
    requires prof.ratePps != 0 ==> b.pkts <= Min(prof.burstPps, 0xFFFF_FFFF) * TWO32
    requires prof.rateBps != 0 ==> b.bytes <= Min(prof.burstBps, 0xFFFF_FFFF) * TWO32
    requires forall k | 0 <= k < |calls| :: calls[k].now == b.last
    ensures AllAdmitted(Decisions(prof, b, calls)) <==> Affords(prof, b, calls)
    ensures Affords(prof, b, calls) ==>
              Final(prof, b, calls) ==
              Bucket(b.last,
                     if prof.ratePps == 0 then b.pkts else b.pkts - |calls| * TWO32,
                     if prof.rateBps == 0 then b.bytes else b.bytes - Octets(calls) * TWO32)
    decreases |calls|
  {
    if calls == [] {
    } else {
      var c, rest := calls[0], calls[1..];
      NothingRefilled(prof, b);
      hide PktTokens, ByteTokens, AllAdmitted;
      var b' := After(prof, b, c.now, c.len);
      AllOfBoth(Admits(prof, b, c.now, c.len), Decisions(prof, b', rest));
      BurstIsSpentExactly(prof, b', rest);
    }
  }

  lemma NothingRefilled(prof: Profile, b: Bucket)
    requires prof.ratePps != 0 ==> b.pkts <= Cap(prof.burstPps)
    requires prof.rateBps != 0 ==> b.bytes <= Cap(prof.burstBps)
    ensures PktTokens(prof, b, b.last) == b.pkts && ByteTokens(prof, b, b.last) == b.bytes
  {}

  /**
   * The books balance: as long as what is held and what is credited together
   * stay under the cap, every token is either still there or was spent on an
   * admitted packet, whatever was admitted and denied on the way.
   */
  lemma {:induction false} BooksBalance(prof: Profile, b: Bucket, calls: seq<Arrival>)
    ensures prof.ratePps != 0 && b.pkts + Clamp(prof.pktPerNs) * Credited(b.last, calls) <= Cap(prof.burstPps) ==>
              AdmittedPkts(calls, Decisions(prof, b, calls)) * TWO32 + Final(prof, b, calls).pkts
              == b.pkts + Clamp(prof.pktPerNs) * Credited(b.last, calls)
    ensures prof.rateBps != 0 && b.bytes + Clamp(prof.bytePerNs) * Credited(b.last, calls) <= Cap(prof.burstBps) ==>
              AdmittedBytes(calls, Decisions(prof, b, calls)) * TWO32 + Final(prof, b, calls).bytes
              == b.bytes + Clamp(prof.bytePerNs) * Credited(b.last, calls)
    decreases |calls|
  {
    if calls == [] {
    } else {
      var c := calls[0];
      var b' := After(prof, b, c.now, c.len);
      var d, rest := Elapsed(b.last, c.now), Credited(c.now, calls[1..]);
      Distribute(Clamp(prof.pktPerNs), d, rest);
      Distribute(Clamp(prof.bytePerNs), d, rest);
      BooksBalance(prof, b', calls[1..]);
      assert Decisions(prof, b, calls)[1..] == Decisions(prof, b', calls[1..]);
      LaneBalances(b.pkts, d, rest, prof.pktPerNs, prof.burstPps);
      LaneBalances(b.bytes, d, rest, prof.bytePerNs, prof.burstBps);
    }
  }

  /** Under the cap a refill adds exactly what it credits. */
  lemma LaneBalances(tokens: u64, d: nat, rest: nat, rate: u64, burst: u64)
    requires d <= TWO32
    ensures tokens + d * Clamp(rate) + Clamp(rate) * rest <= Cap(burst) ==>
              Refilled(tokens, d, rate, burst) == tokens + d * Clamp(rate)
  {
    assert d * Clamp(rate) >= 0 && Clamp(rate) * rest >= 0;
  }

  // ------------------------------------------------------ conforming sources

  /** The wait before a call earns what the call costs, and the burst could hold it. */
  predicate Earned(prof: Profile, last: u64, c: Arrival) {
    var d := Elapsed(last, c.now);
    && (prof.ratePps != 0 ==> d * Clamp(prof.pktPerNs) >= TWO32 && Clamp(prof.burstPps) >= 1)
    && (prof.rateBps != 0 ==> d * Clamp(prof.bytePerNs) >= c.len * TWO32 && Clamp(prof.burstBps) >= c.len)
  }

  ghost predicate Conforming(prof: Profile, last: u64, calls: seq<Arrival>)
    decreases |calls|
  {
    calls != [] ==> Earned(prof, last, calls[0]) && Conforming(prof, calls[0].now, calls[1..])
  }

  lemma EarnedIsAdmitted(prof: Profile, b: Bucket, c: Arrival)
    requires Settled(prof, b) && Earned(prof, b.last, c)
    ensures Admits(prof, b, c.now, c.len)
  {
    hide Refilled;
    var d := Elapsed(b.last, c.now);
    if prof.ratePps != 0 { RoomySum(b.pkts, d, prof.pktPerNs, prof.burstPps); }
    if prof.rateBps != 0 { RoomySum(b.bytes, d, prof.bytePerNs, prof.burstBps); }
  }

  /** A source that stays under both rates is never limited, however long the run. */
  lemma {:induction false} ConformingIsNeverLimited(prof: Profile, b: Bucket, calls: seq<Arrival>)
    requires Settled(prof, b) && Conforming(prof, b.last, calls)
    ensures forall i | 0 <= i < |calls| :: Decisions(prof, b, calls)[i]
    decreases |calls|
  {
    if calls == [] {
    } else {
      var c := calls[0];
      EarnedIsAdmitted(prof, b, c);
      StaysSettled(prof, b, c.now, c.len);
      ConformingIsNeverLimited(prof, After(prof, b, c.now, c.len), calls[1..]);
    }
  }

  /** From its very first packet, when the first bucket is not cut short by the shift. */
  lemma NewConformingSourceIsNeverLimited(prof: Profile, first: Arrival, calls: seq<Arrival>)
    requires Settled(prof, Fresh(prof, first.now))
    requires prof.ratePps != 0 ==> LowHalf(prof.burstPps) >= 1
    requires prof.rateBps != 0 ==> LowHalf(prof.burstBps) >= first.len
    requires Conforming(prof, first.now, calls)
    ensures forall i | 0 <= i < |calls| + 1 :: Decisions(prof, Fresh(prof, first.now), [first] + calls)[i]
  {
    var b := Fresh(prof, first.now);
    FirstPacket(prof, first.now, first.len);
    StaysSettled(prof, b, first.now, first.len);
    ConformingIsNeverLimited(prof, After(prof, b, first.now, first.len), calls);
    assert ([first] + calls)[1..] == calls;
  }
}
