/**
 * The two-ceiling token bucket in Q32 fixed point: one packet lane, one byte
 * lane, both refilled and tested before either is spent.
 */
module TokenBucket {
  import opened Basics
  import opened Wire

  datatype Profile = Profile(
    ratePps: u64, burstPps: u64, rateBps: u64, burstBps: u64,
    pktPerNs: u64, bytePerNs: u64)

  datatype Bucket = Bucket(last: u64, pkts: u64, bytes: u64)

  const Q32_MAX: int := 0xFFFF_FFFF

  /** A rate or a burst as the datapath uses it. */
  function Clamp(x: u64): (r: nat)
    ensures r <= Q32_MAX
  {
    Min(x, Q32_MAX)
  }

  /** Nanoseconds credited: the u64 difference, so a clock that steps back underflows, cut at 2^32. */
  function Elapsed(last: u64, now: u64): (d: nat)
    ensures d <= TWO32
    ensures last <= now <= last + TWO32 ==> d == now - last
    ensures last <= now ==> d <= now - last
  {
    Min((now - last) % TWO64, TWO32)
  }

  function Shl32(x: u64): u64 { (x * TWO32) % TWO64 }

  function Cap(burst: u64): u64 { Clamp(burst) * TWO32 }

  lemma ProductFits(delta: nat, q: nat)
    requires delta <= TWO32 && q <= Q32_MAX
    ensures 0 <= delta * q <= TWO32 * q <= TWO32 * Q32_MAX < TWO64
  {}

  /** One lane after `delta` nanoseconds: the u64 sum, which may wrap, cut at the cap. */
  function Refilled(tokens: u64, delta: nat, rate: u64, burst: u64): u64 {
    Min((tokens + delta * Clamp(rate)) % TWO64, Cap(burst))
  }

  function PktTokens(prof: Profile, b: Bucket, now: u64): u64 {
    if prof.ratePps == 0 then b.pkts
    else Refilled(b.pkts, Elapsed(b.last, now), prof.pktPerNs, prof.burstPps)
  }

  function ByteTokens(prof: Profile, b: Bucket, now: u64): u64 {
    if prof.rateBps == 0 then b.bytes
    else Refilled(b.bytes, Elapsed(b.last, now), prof.bytePerNs, prof.burstBps)
  }

  /** What a packet takes from each lane. */
  function PktCost(prof: Profile): nat {
    if prof.ratePps == 0 then 0 else TWO32
  }

  function ByteCost(prof: Profile, len: u32): nat {
    if prof.rateBps == 0 then 0 else len * TWO32
  }

  predicate Admits(prof: Profile, b: Bucket, now: u64, len: u32) {
    PktTokens(prof, b, now) >= PktCost(prof) && ByteTokens(prof, b, now) >= ByteCost(prof, len)
  }

  /** The bucket brought up to date without spending anything. */
  function AsOf(prof: Profile, b: Bucket, now: u64): Bucket {
    Bucket(now, PktTokens(prof, b, now), ByteTokens(prof, b, now))
  }

  /** The bucket after one call; a denied packet takes nothing from either lane. */
  function After(prof: Profile, b: Bucket, now: u64, len: u32): Bucket {
    var r := AsOf(prof, b, now);
    if Admits(prof, b, now, len) then Bucket(now, r.pkts - PktCost(prof), r.bytes - ByteCost(prof, len)) else r
  }

  /** The bucket a source gets on its first packet. */
  function Fresh(prof: Profile, now: u64): Bucket {
    Bucket(now, Shl32(prof.burstPps), Shl32(prof.burstBps))
  }

  /** One lane's refill, step by step. */
  method Refill(tokens: u64, delta: nat, rate: u64, burst: u64) returns (t: u64)
    requires delta <= TWO32
    ensures t == Refilled(tokens, delta, rate, burst)
  {
    var q := rate;
    if q > Q32_MAX { q := Q32_MAX; }
    var cap := burst;
    if cap > Q32_MAX { cap := Q32_MAX; }
    cap := cap * TWO32;
    t := (tokens + delta * q) % TWO64;
    if t > cap { t := cap; }
  }

  /** The arithmetic of one call, in the order the datapath does it. */
  method Spend(prof: Profile, b0: Bucket, now: u64, len: u32) returns (admit: bool, b: Bucket)
    ensures admit == Admits(prof, b0, now, len)
    ensures b == After(prof, b0, now, len)
  {
    hide Refilled;
    admit := true;
    var delta := (now - b0.last) % TWO64;
    if delta > TWO32 { delta := TWO32; }
    assert delta == Elapsed(b0.last, now);
    var tp, tb := b0.pkts, b0.bytes;
    if prof.ratePps != 0 {
      tp := Refill(tp, delta, prof.pktPerNs, prof.burstPps);
      if tp < TWO32 { admit := false; }
    }
    if prof.rateBps != 0 {
      tb := Refill(tb, delta, prof.bytePerNs, prof.burstBps);
      var need := len * TWO32;
      if tb < need { admit := false; }
    }
    if admit {
      if prof.ratePps != 0 { tp := tp - TWO32; }
      if prof.rateBps != 0 { tb := tb - len * TWO32; }
    }
    b := Bucket(now, tp, tb);
  }

  // ------------------------------------------------------------------- runs

  datatype Arrival = Arrival(now: u64, len: u32)

  function Decisions(prof: Profile, b: Bucket, calls: seq<Arrival>): (ds: seq<bool>)
    ensures |ds| == |calls|
    decreases |calls|
  {
    if calls == [] then []
    else [Admits(prof, b, calls[0].now, calls[0].len)]
         + Decisions(prof, After(prof, b, calls[0].now, calls[0].len), calls[1..])
  }

  function Final(prof: Profile, b: Bucket, calls: seq<Arrival>): Bucket
    decreases |calls|
  {
    if calls == [] then b
    else Final(prof, After(prof, b, calls[0].now, calls[0].len), calls[1..])
  }

  /** A window of a run is itself a run, from the bucket the earlier calls left behind. */
  lemma {:induction false} RunSplits(prof: Profile, b: Bucket, before: seq<Arrival>, window: seq<Arrival>)
    ensures Decisions(prof, b, before + window) ==
            Decisions(prof, b, before) + Decisions(prof, Final(prof, b, before), window)
    ensures Final(prof, b, before + window) == Final(prof, Final(prof, b, before), window)
    decreases |before|
  {
    if before == [] {
      assert before + window == window;
    } else {
      assert (before + window)[1..] == before[1..] + window;
      RunSplits(prof, After(prof, b, before[0].now, before[0].len), before[1..], window);
    }
  }

  function AdmittedPkts(calls: seq<Arrival>, ds: seq<bool>): nat
    requires |ds| == |calls|
  {
    if calls == [] then 0 else (if ds[0] then 1 else 0) + AdmittedPkts(calls[1..], ds[1..])
  }

  function AdmittedBytes(calls: seq<Arrival>, ds: seq<bool>): nat
    requires |ds| == |calls|
  {
    if calls == [] then 0 else (if ds[0] then calls[0].len else 0) + AdmittedBytes(calls[1..], ds[1..])
  }

  /** The time credited over a run that starts from a bucket last touched at `last`. */
  function Credited(last: u64, calls: seq<Arrival>): nat
    decreases |calls|
  {
    if calls == [] then 0 else Elapsed(last, calls[0].now) + Credited(calls[0].now, calls[1..])
  }

  ghost predicate Ordered(last: u64, calls: seq<Arrival>)
    decreases |calls|
  {
    calls != [] ==> last <= calls[0].now && Ordered(calls[0].now, calls[1..])
  }

  function LastSeen(last: u64, calls: seq<Arrival>): u64
    decreases |calls|
  {
    if calls == [] then last else LastSeen(calls[0].now, calls[1..])
  }

  lemma {:induction false} CreditedIsElapsed(last: u64, calls: seq<Arrival>)
    requires Ordered(last, calls)
    ensures last <= LastSeen(last, calls) && Credited(last, calls) <= LastSeen(last, calls) - last
    decreases |calls|
  {
    if calls == [] {
    } else {
      CreditedIsElapsed(calls[0].now, calls[1..]);
    }
  }

  lemma RefillGains(tokens: u64, delta: nat, rate: u64, burst: u64)
    ensures Refilled(tokens, delta, rate, burst) <= tokens + delta * Clamp(rate)
    ensures Refilled(tokens, delta, rate, burst) <= Cap(burst)
  {
    assert delta * Clamp(rate) >= 0;
  }

  /** From any bucket, what is admitted plus what is left is at most what was there plus what was credited. */
  lemma {:induction false} RunSpends(prof: Profile, b: Bucket, calls: seq<Arrival>)
    ensures prof.ratePps != 0 ==>
              AdmittedPkts(calls, Decisions(prof, b, calls)) * TWO32 + Final(prof, b, calls).pkts
              <= b.pkts + Clamp(prof.pktPerNs) * Credited(b.last, calls)
    ensures prof.rateBps != 0 ==>
              AdmittedBytes(calls, Decisions(prof, b, calls)) * TWO32 + Final(prof, b, calls).bytes
              <= b.bytes + Clamp(prof.bytePerNs) * Credited(b.last, calls)
    decreases |calls|
  {
    if calls == [] {
    } else {
      var c := calls[0];
      var b' := After(prof, b, c.now, c.len);
      RunSpends(prof, b', calls[1..]);
      var d, rest := Elapsed(b.last, c.now), Credited(c.now, calls[1..]);
      RefillGains(b.pkts, d, prof.pktPerNs, prof.burstPps);
      RefillGains(b.bytes, d, prof.bytePerNs, prof.burstBps);
      Distribute(Clamp(prof.pktPerNs), d, rest);
      Distribute(Clamp(prof.bytePerNs), d, rest);
      assert Decisions(prof, b, calls)[1..] == Decisions(prof, b', calls[1..]);
    }
  }

  lemma Distribute(q: nat, d: nat, rest: nat)
    ensures q * (d + rest) == d * q + q * rest
  {}

  /**
   * The ceiling, over any window of calls on one bucket, whether or not a sum
   * wraps: the burst plus the rate times the time credited inside the window.
   */
  lemma WindowIsBounded(prof: Profile, b: Bucket, calls: seq<Arrival>)
    requires calls != []
    ensures prof.ratePps != 0 ==>
              AdmittedPkts(calls, Decisions(prof, b, calls)) * TWO32
              <= Cap(prof.burstPps) + Clamp(prof.pktPerNs) * Credited(calls[0].now, calls[1..])
    ensures prof.rateBps != 0 ==>
              AdmittedBytes(calls, Decisions(prof, b, calls)) * TWO32
              <= Cap(prof.burstBps) + Clamp(prof.bytePerNs) * Credited(calls[0].now, calls[1..])
  {
    var c := calls[0];
    var b' := After(prof, b, c.now, c.len);
    RunSpends(prof, b', calls[1..]);
    RefillGains(b.pkts, Elapsed(b.last, c.now), prof.pktPerNs, prof.burstPps);
    RefillGains(b.bytes, Elapsed(b.last, c.now), prof.bytePerNs, prof.burstBps);
    assert Decisions(prof, b, calls)[1..] == Decisions(prof, b', calls[1..]);
  }

  lemma TimesMore(q: nat, x: nat, y: nat)
    requires x <= y
    ensures q * x <= q * y
  {}

  /** The same bound by the wall clock, for any window of a run whose clock does not step back. */
  lemma WindowIsBoundedByTime(prof: Profile, b: Bucket, before: seq<Arrival>, window: seq<Arrival>)
    requires window != [] && Ordered(window[0].now, window[1..])
    ensures var ds := Decisions(prof, b, before + window)[|before|..];
            var span := LastSeen(window[0].now, window[1..]) - window[0].now;
            && (prof.ratePps != 0 ==>
                  AdmittedPkts(window, ds) * TWO32 <= Cap(prof.burstPps) + Clamp(prof.pktPerNs) * span)
            && (prof.rateBps != 0 ==>
                  AdmittedBytes(window, ds) * TWO32 <= Cap(prof.burstBps) + Clamp(prof.bytePerNs) * span)
  {
    RunSplits(prof, b, before, window);
    var start := Final(prof, b, before);
    assert Decisions(prof, b, before + window)[|before|..] == Decisions(prof, start, window);
    WindowIsBounded(prof, start, window);
    CreditedIsElapsed(window[0].now, window[1..]);
    var t, span := Credited(window[0].now, window[1..]), LastSeen(window[0].now, window[1..]) - window[0].now;
    TimesMore(Clamp(prof.pktPerNs), t, span);
    TimesMore(Clamp(prof.bytePerNs), t, span);
  }
}
