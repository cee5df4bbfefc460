/** The fixed-memory latency histogram and its quantile bound.

  Each power of two is split into 32 buckets. A percentile is the upper edge of
  the bucket that holds the exact rank statistic, so it never underestimates it
  and overestimates it by at most a 32nd.
 */
module Latency {
  import opened Records

  const SUBDIVISIONS: nat := 32
  const BUCKETS: nat := 64 * 32

  function Pow2(n: nat): (p: nat)
    ensures p > 0
  {
    if n == 0 then 1 else 2 * Pow2(n - 1)
  }

  /** Position of the highest set bit. */
  function Exponent(ns: nat): (e: nat)
    requires ns > 0
    ensures Pow2(e) <= ns < 2 * Pow2(e)
  {
    if ns == 1 then 0 else 1 + Exponent(ns / 2)
  }

  function Shift(e: nat): nat {
    if e >= 5 then e - 5 else 0
  }

  function Subdivision(ns: nat): nat
    requires ns > 0
  {
    (ns - Pow2(Exponent(ns))) / Pow2(Shift(Exponent(ns)))
  }

  function Bucket(ns: nat): nat
    requires ns > 0
  {
    Exponent(ns) * SUBDIVISIONS + Subdivision(ns)
  }

  /** The largest value a bucket can hold. */
  function Upper(index: nat): nat {
    var e, sub := index / SUBDIVISIONS, index % SUBDIVISIONS;
    Pow2(e) + (sub + 1) * Pow2(Shift(e)) - 1
  }

  lemma {:induction false} Pow2Monotone(a: nat, b: nat)
    requires a <= b
    ensures Pow2(a) <= Pow2(b)
    ensures a < b ==> 2 * Pow2(a) <= Pow2(b)
    decreases b
  {
    if a < b { Pow2Monotone(a, b - 1); }
  }

  lemma Pow2Split(e: nat)
    ensures e >= 5 ==> Pow2(e) == 32 * Pow2(Shift(e))
    ensures e < 5 ==> Pow2(Shift(e)) == 1 && Pow2(e) <= 16
  {
    if e >= 5 {
      assert Pow2(e) == 2 * Pow2(e - 1);
      assert Pow2(e - 1) == 2 * Pow2(e - 2);
      assert Pow2(e - 2) == 2 * Pow2(e - 3);
      assert Pow2(e - 3) == 2 * Pow2(e - 4);
    } else {
      Pow2Monotone(e, 4);
      assert Pow2(4) == 16;
    }
  }

  lemma Quotient(n: nat, d: nat, k: nat)
    requires d > 0 && n < k * d
    ensures n / d < k && (n / d) * d <= n < (n / d + 1) * d
  {
    if n / d >= k {
      assert (n / d) * d >= k * d by { Times(k, n / d, d); }
    }
  }

  lemma Times(a: nat, b: nat, d: nat)
    requires a <= b
    ensures a * d <= b * d
  {
  }

  /** Where a value lies in its bucket. */
  lemma InBucket(ns: nat)
    requires ns > 0
    ensures Subdivision(ns) < SUBDIVISIONS
    ensures
      var e := Exponent(ns);
      var d := Pow2(Shift(e));
      Pow2(e) + Subdivision(ns) * d <= ns < Pow2(e) + (Subdivision(ns) + 1) * d
  {
    var e := Exponent(ns);
    Pow2Split(e);
    var d := Pow2(Shift(e));
    Quotient(ns - Pow2(e), d, 32);
  }

  lemma BucketParts(ns: nat)
    requires ns > 0
    ensures Bucket(ns) / SUBDIVISIONS == Exponent(ns) && Bucket(ns) % SUBDIVISIONS == Subdivision(ns)
  {
    InBucket(ns);
  }

  /** The upper edge bounds the value from above, within a 32nd of it. */
  lemma UpperBounds(ns: nat)
    requires ns > 0
    ensures ns <= Upper(Bucket(ns))
    ensures 32 * Upper(Bucket(ns)) <= 33 * ns
  {
    var e := Exponent(ns);
    var d := Pow2(Shift(e));
    InBucket(ns);
    BucketParts(ns);
    Pow2Split(e);
    assert (Subdivision(ns) + 1) * d == Subdivision(ns) * d + d;
    assert Upper(Bucket(ns)) < ns + d;
  }

  lemma {:induction false} ExponentMonotone(a: nat, b: nat)
    requires 0 < a <= b
    ensures Exponent(a) <= Exponent(b)
  {
    if Exponent(a) > Exponent(b) {
      Pow2Monotone(Exponent(b), Exponent(a));
    }
  }

  lemma DivMonotone(a: nat, b: nat, d: nat)
    requires a <= b && d > 0
    ensures a / d <= b / d
  {
    Floor(a, d);
    Floor(b, d);
    if a / d > b / d {
      Times(b / d + 1, a / d, d);
    }
  }

  lemma Floor(n: nat, d: nat)
    requires d > 0
    ensures (n / d) * d <= n < (n / d + 1) * d
  {
  }

  lemma BucketMonotone(a: nat, b: nat)
    requires 0 < a <= b
    ensures Bucket(a) <= Bucket(b)
  {
    ExponentMonotone(a, b);
    InBucket(a);
    InBucket(b);
    if Exponent(a) == Exponent(b) {
      DivMonotone(a - Pow2(Exponent(a)), b - Pow2(Exponent(a)), Pow2(Shift(Exponent(a))));
    }
  }

  lemma BucketInRange(ns: nat)
    requires 0 < ns <= U64_MAX
    ensures Bucket(ns) < BUCKETS
  {
    InBucket(ns);
    var e := Exponent(ns);
    if e >= 64 {
      Pow2Monotone(64, e);
      Pow2Of64();
    }
  }

  lemma Pow2Of64()
    ensures Pow2(64) == U64_MAX + 1
  {
    assert Pow2(4) == 16 by { assert Pow2(2) == 4; }
    hide Pow2;
    Squared(4, 16);
    Squared(8, 256);
    Squared(16, 0x1_0000);
    Squared(32, 0x1_0000_0000);
  }

  lemma Squared(a: nat, v: nat)
    requires Pow2(a) == v
    ensures Pow2(2 * a) == v * v
  {
    hide Pow2;
    PowSum(a, a);
  }

  lemma {:induction false} PowSum(a: nat, b: nat)
    ensures Pow2(a + b) == Pow2(a) * Pow2(b)
  {
    if b > 0 {
      PowSum(a, b - 1);
      assert Pow2(a + b) == 2 * Pow2(a + b - 1);
      assert Pow2(a) * Pow2(b) == 2 * (Pow2(a) * Pow2(b - 1));
    }
  }

  // Counting. ------------------------------------------------------------------------

  /** Samples that are at most `x`. */
  ghost function AtMost(samples: seq<nat>, x: int): nat {
    if samples == [] then 0
    else AtMost(samples[..|samples| - 1], x) + if samples[|samples| - 1] <= x then 1 else 0
  }

  /** Samples in buckets below `index`, zeroes included. */
  ghost function Before(samples: seq<nat>, index: nat): nat {
    if samples == [] then 0
    else
      var last := samples[|samples| - 1];
      Before(samples[..|samples| - 1], index) + if last == 0 || Bucket(last) < index then 1 else 0
  }

  ghost function InIndex(samples: seq<nat>, index: nat): nat {
    if samples == [] then 0
    else
      var last := samples[|samples| - 1];
      InIndex(samples[..|samples| - 1], index) + if last > 0 && Bucket(last) == index then 1 else 0
  }

  lemma AppendCounts(samples: seq<nat>, ns: nat)
    ensures AtMost(samples + [ns], 0) == AtMost(samples, 0) + (if ns == 0 then 1 else 0)
    ensures forall j: nat :: InIndex(samples + [ns], j) == InIndex(samples, j) + (if ns > 0 && Bucket(ns) == j then 1 else 0)
  {
    hide Bucket;
    var all := samples + [ns];
    assert all[..|all| - 1] == samples;
  }

  lemma {:induction false} BeforeStep(samples: seq<nat>, index: nat)
    ensures Before(samples, index + 1) == Before(samples, index) + InIndex(samples, index)
    ensures Before(samples, 0) == AtMost(samples, 0)
  {
    if samples != [] {
      BeforeStep(samples[..|samples| - 1], index);
    }
  }

  /** Buckets follow the order of the values. */
  lemma {:induction false} BeforeBounds(samples: seq<nat>, x: nat)
    requires x > 0
    ensures Before(samples, Bucket(x)) <= AtMost(samples, x - 1)
    ensures AtMost(samples, x) <= Before(samples, Bucket(x) + 1)
  {
    if samples != [] {
      BeforeBounds(samples[..|samples| - 1], x);
      var last := samples[|samples| - 1];
      if last > 0 {
        if last >= x { BucketMonotone(x, last); }
        if last <= x { BucketMonotone(last, x); }
      }
    }
  }

  lemma {:induction false} BeforeMonotone(samples: seq<nat>, a: nat, b: nat)
    requires a <= b
    ensures Before(samples, a) <= Before(samples, b)
    ensures AtMost(samples, 0) <= Before(samples, a) <= |samples|
  {
    if samples != [] {
      BeforeMonotone(samples[..|samples| - 1], a, b);
    }
  }

  lemma {:induction false} AllBefore(samples: seq<nat>)
    requires forall i :: 0 <= i < |samples| ==> samples[i] <= U64_MAX
    ensures Before(samples, BUCKETS) == |samples|
  {
    if samples != [] {
      AllBefore(samples[..|samples| - 1]);
      var last := samples[|samples| - 1];
      if last > 0 { BucketInRange(last); }
    }
  }

  /** `x` is the sample of the given rank: enough samples reach it, too few stop short. */
  ghost predicate IsRank(samples: seq<nat>, rank: nat, x: nat) {
    AtMost(samples, x) >= rank && AtMost(samples, x - 1) < rank
  }

  /** `x` is the smallest value that `percent` in a hundred samples do not exceed. */
  ghost predicate IsPercentile(samples: seq<nat>, percent: nat, x: nat) {
    && 100 * AtMost(samples, x) >= percent * |samples|
    && 100 * AtMost(samples, x - 1) < percent * |samples|
  }

  /** The rank a percentile asks for. */
  function Rank(count: nat, percent: nat): nat {
    (count * percent + 99) / 100
  }

  lemma RankBounds(count: nat, percent: nat)
    requires 1 <= percent <= 100
    ensures Rank(count, percent) <= count && (count > 0 ==> Rank(count, percent) >= 1)
  {
    assert count * percent >= count * 1 by { Times(1, percent, count); }
    assert count * percent <= count * 100 by { Times(percent, 100, count); }
  }

  /** The rounded-up rank picks out exactly the percentile. */
  lemma RankIsPercentile(samples: seq<nat>, percent: nat, x: nat)
    ensures IsRank(samples, Rank(|samples|, percent), x) <==> IsPercentile(samples, percent, x)
  {
    var product := |samples| * percent;
    assert percent * |samples| == product;
  }

  /** The bucket the loop stops at is the bucket of the rank statistic. */
  lemma StopsAtRank(samples: seq<nat>, rank: nat, index: nat, x: nat)
    requires IsRank(samples, rank, x) && x > 0
    requires Before(samples, index) < rank <= Before(samples, index + 1)
    ensures index == Bucket(x)
  {
    BeforeBounds(samples, x);
    if index < Bucket(x) {
      BeforeMonotone(samples, index + 1, Bucket(x));
    } else if index > Bucket(x) {
      BeforeMonotone(samples, Bucket(x) + 1, index);
    }
  }

  class Latencies {
    const buckets: array<nat>
    var count: nat
    var zeroes: nat
    var sum: nat
    var max: nat
    /** Every sample recorded so far. */
    ghost var samples: seq<nat>

    ghost predicate Valid()
      reads this, buckets
    {
      && buckets.Length == BUCKETS
      && (forall i :: 0 <= i < |samples| ==> samples[i] <= max)
      && max <= U64_MAX
      && count == |samples|
      && zeroes == AtMost(samples, 0)
      && (forall j :: 0 <= j < BUCKETS ==> buckets[j] == InIndex(samples, j))
    }

    constructor ()
      ensures Valid() && samples == [] && fresh(buckets)
    {
      buckets := new nat[BUCKETS](_ => 0);
      count, zeroes, sum, max, samples := 0, 0, 0, 0, [];
    }

    /** `record`: a duration beyond 64 bits counts as the largest one. */
    method Record(duration: nat)
      requires Valid()
      modifies this`count, this`zeroes, this`sum, this`max, this`samples, buckets
      ensures Valid() && samples == old(samples) + [if duration <= U64_MAX then duration else U64_MAX]
      ensures sum == old(sum) + samples[|samples| - 1]
    {
      hide Bucket, AtMost, InIndex;
      var ns := if duration <= U64_MAX then duration else U64_MAX;
      AppendCounts(samples, ns);
      count, sum, max := count + 1, sum + ns, if max >= ns then max else ns;
      samples := samples + [ns];
      if ns == 0 {
        zeroes := zeroes + 1;
        return;
      }
      BucketInRange(ns);
      buckets[Bucket(ns)] := buckets[Bucket(ns)] + 1;
    }

    /** `percentile`: at least the exact percentile of the samples, at most 33/32 of it. */
    method Percentile(percent: nat) returns (upper: nat)
      requires Valid() && 1 <= percent <= 100
      ensures count == 0 ==> upper == 0
      ensures forall x: nat :: count > 0 && IsPercentile(samples, percent, x) ==> x <= upper && 32 * upper <= 33 * x
      ensures count > 0 ==> exists x: nat :: x in samples && IsPercentile(samples, percent, x)
    {
      hide AtMost, Before, InIndex, IsRank, IsPercentile, Upper, Rank;
      var rank := Rank(count, percent);
      RankBounds(count, percent);
      forall x: nat ensures IsRank(samples, rank, x) <==> IsPercentile(samples, percent, x) {
        RankIsPercentile(samples, percent, x);
      }
      if count > 0 {
        ghost var exact := RankExists(samples, rank);
      }
      var total := zeroes;
      if total >= rank {
        RankOfZero(samples, rank);
        return 0;
      }
      BeforeStep(samples, 0);
      for index := 0 to BUCKETS
        invariant total == Before(samples, index) < rank
      {
        BeforeStep(samples, index);
        total := total + buckets[index];
        if total >= rank {
          upper := if Upper(index) <= max then Upper(index) else max;
          BoundAtRank(samples, rank, index, max, upper);
          return;
        }
      }
      AllBefore(samples);
      assert false;
    }
  }

  lemma RankOfZero(samples: seq<nat>, rank: nat)
    requires AtMost(samples, 0) >= rank
    ensures forall x: nat :: IsRank(samples, rank, x) ==> x == 0
  {
    forall x: nat | IsRank(samples, rank, x)
      ensures x == 0
    {
      if x > 0 { AtMostMonotone(samples, 0, x - 1); }
    }
  }

  lemma {:induction false} AtMostMonotone(samples: seq<nat>, a: int, b: int)
    requires a <= b
    ensures AtMost(samples, a) <= AtMost(samples, b)
  {
    if samples != [] { AtMostMonotone(samples[..|samples| - 1], a, b); }
  }

  lemma BoundAtRank(samples: seq<nat>, rank: nat, index: nat, max: nat, upper: nat)
    requires Before(samples, index) < rank <= Before(samples, index + 1)
    requires AtMost(samples, 0) < rank
    requires forall i :: 0 <= i < |samples| ==> samples[i] <= max
    requires upper == if Upper(index) <= max then Upper(index) else max
    ensures forall x: nat :: IsRank(samples, rank, x) ==> x <= upper && 32 * upper <= 33 * x
  {
    forall x: nat | IsRank(samples, rank, x)
      ensures x <= upper && 32 * upper <= 33 * x
    {
      if x > 0 {
        StopsAtRank(samples, rank, index, x);
        UpperBounds(x);
        RankIsSample(samples, rank, x);
      }
    }
  }

  /** A rank statistic is one of the samples. */
  lemma RankIsSample(samples: seq<nat>, rank: nat, x: nat)
    requires IsRank(samples, rank, x)
    ensures x in samples
  {
    if x !in samples { NoneEqual(samples, x); }
  }

  lemma {:induction false} NoneEqual(samples: seq<nat>, x: nat)
    requires x !in samples
    ensures AtMost(samples, x) == AtMost(samples, x - 1)
  {
    if samples != [] { NoneEqual(samples[..|samples| - 1], x); }
  }

  lemma {:induction false} RankExists(samples: seq<nat>, rank: nat) returns (x: nat)
    requires 1 <= rank <= |samples|
    ensures IsRank(samples, rank, x) && x in samples
  {
    var high := Highest(samples);
    x := high;
    while AtMost(samples, x - 1) >= rank
      invariant AtMost(samples, x) >= rank
      decreases x
    {
      if x == 0 { NoneBelow(samples); }
      x := x - 1;
    }
    RankIsSample(samples, rank, x);
  }

  lemma {:induction false} Highest(samples: seq<nat>) returns (x: nat)
    ensures AtMost(samples, x) == |samples|
  {
    if samples == [] {
      x := 0;
    } else {
      var y := Highest(samples[..|samples| - 1]);
      x := if y >= samples[|samples| - 1] then y else samples[|samples| - 1];
      AtMostMonotone(samples[..|samples| - 1], y, x);
      AllAtMost(samples[..|samples| - 1], x);
    }
  }

  lemma {:induction false} AllAtMost(samples: seq<nat>, x: int)
    ensures AtMost(samples, x) <= |samples|
  {
    if samples != [] { AllAtMost(samples[..|samples| - 1], x); }
  }

  lemma {:induction false} NoneBelow(samples: seq<nat>)
    ensures AtMost(samples, -1) == 0
  {
    if samples != [] { NoneBelow(samples[..|samples| - 1]); }
  }
}
