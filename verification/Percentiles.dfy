/**
 * Percentiles from bucket counts, and how far they can be from the truth (meter/percentile_buckets.cc and
 * meter/percentile_dist_summary.cc).
 */
module Percentiles {
  import opened Collections
  import opened Doubles
  import opened BucketTable

  // ----- Cumulative counts -----

  function Cum(counts: seq<nat>, i: nat): nat
    requires i <= |counts|
  {
    if i == 0 then 0 else Cum(counts, i - 1) + counts[i - 1]
  }

  lemma {:induction false} CumMonotone(counts: seq<nat>, i: nat, j: nat)
    requires i <= j <= |counts|
    ensures Cum(counts, i) <= Cum(counts, j)
  {
    if i < j { CumMonotone(counts, i, j - 1); }
  }

  function Total(counts: seq<nat>): nat { Cum(counts, |counts|) }

  /** 100.0 * n / total; 0/0 is not a number. */
  function Percent(n: nat, total: nat): Double {
    if total == 0 then NaN else Val(100.0 * (n as real) / (total as real))
  }

  predicate AtLeast(x: Double, p: real) { x.Val? && x.r >= p }

  /** f * (nextB - prevB) + prevB with f = (p - prevP) / (nextP - prevP); the one division by zero in range is 0/0. */
  function Interpolated(p: real, prevP: Double, nextP: Double, prevB: int, nextB: int): Double {
    if prevP.NaN? || nextP.NaN? || nextP.r == prevP.r then NaN
    else Val((p - prevP.r) / (nextP.r - prevP.r) * ((nextB - prevB) as real) + (prevB as real))
  }

  // ----- What one requested percentile should be -----

  /** The share of counts in the buckets before `i`. */
  function ShareBefore(counts: seq<nat>, i: nat): Double
    requires i <= |counts|
  {
    if i == 0 then Val(0.0) else Percent(Cum(counts, i), Total(counts))
  }

  predicate Reaches(counts: seq<nat>, p: real, i: nat)
    requires i < |counts|
  {
    AtLeast(Percent(Cum(counts, i + 1), Total(counts)), p)
  }

  /** The first bucket from `i` on whose cumulative share reaches `p`. */
  function FirstBucket(counts: seq<nat>, p: real, i: nat): (b: nat)
    requires i < |counts|
    ensures i <= b < |counts|
    ensures forall j :: i <= j < b ==> !Reaches(counts, p, j)
    decreases |counts| - i
  {
    if Reaches(counts, p, i) || i + 1 == |counts| then i else FirstBucket(counts, p, i + 1)
  }

  function PercentileOf(counts: seq<nat>, p: real): Double
    requires |counts| == LENGTH
  {
    if Total(counts) == 0 then NaN
    else
      var b := FirstBucket(counts, p, 0);
      Interpolated(p, ShareBefore(counts, b), Percent(Cum(counts, b + 1), Total(counts)), Below(b), Value(b))
  }

  lemma EverythingReaches(counts: seq<nat>, p: real)
    requires |counts| > 0 && Total(counts) > 0 && p <= 100.0
    ensures Reaches(counts, p, |counts| - 1)
  {
    AllOfIt(Total(counts) as real);
  }

  lemma AllOfIt(t: real)
    requires t > 0.0
    ensures 100.0 * t / t == 100.0
  {
  }

  lemma {:induction false} FirstBucketIs(counts: seq<nat>, p: real, i: nat, b: nat)
    requires i <= b < |counts| && Reaches(counts, p, b)
    requires forall j :: i <= j < b ==> !Reaches(counts, p, j)
    ensures FirstBucket(counts, p, i) == b
    decreases b - i
  {
    if i < b { FirstBucketIs(counts, p, i + 1, b); }
  }

  // ----- The loop -----

  /** Requested percentiles are sorted and lie between 0 and 100. */
  ghost predicate Requested(pcts: seq<real>) {
    && (forall j :: 0 <= j < |pcts| ==> 0.0 <= pcts[j] <= 100.0)
    && (forall j, k :: 0 <= j < k < |pcts| ==> pcts[j] <= pcts[k])
  }

  /** The requests still open at bucket `i` were not reached by any earlier bucket. */
  ghost predicate Open(counts: seq<nat>, pcts: seq<real>, pctIdx: nat, i: nat)
    requires i <= |counts|
  {
    forall j, b :: pctIdx <= j < |pcts| && 0 <= b < i ==> !Reaches(counts, pcts[j], b)
  }

  /** The first `n` requests have been answered. */
  ghost predicate Answered(counts: seq<nat>, pcts: seq<real>, n: nat, results: seq<Double>)
    requires |counts| == LENGTH
  {
    |results| == |pcts| && n <= |pcts| && forall j :: 0 <= j < n ==> results[j] == PercentileOf(counts, pcts[j])
  }

  method Percentiles(counts: seq<nat>, pcts: seq<real>) returns (results: seq<Double>)
    requires |counts| == LENGTH && Requested(pcts)
    ensures |results| == |pcts|
    ensures forall j :: 0 <= j < |pcts| ==> results[j] == PercentileOf(counts, pcts[j])
  {
    var total := 0;
    for i := 0 to LENGTH
      invariant total == Cum(counts, i)
    {
      total := total + counts[i];
    }
    var pctIdx: nat := 0;
    var prev := 0;
    var prevP := Val(0.0);
    var prevB := 0;
    results := seq(|pcts|, _ => Val(0.0));

    var i := 0;
    while i < LENGTH
      invariant 0 <= i <= LENGTH && 0 <= pctIdx && Answered(counts, pcts, pctIdx, results)
      invariant prev == Cum(counts, i) && prevP == ShareBefore(counts, i)
      invariant prevB == if i < LENGTH then Below(i) else INT64_MAX
      invariant Open(counts, pcts, pctIdx, i)
    {
      var next := prev + counts[i];
      var nextP := Percent(next, total);
      var nextB := Value(i);
      pctIdx, results := AnswerInBucket(counts, pcts, i, prevP, nextP, prevB, nextB, pctIdx, results);
      if pctIdx >= |pcts| {
        break;
      }
      StillOpen(counts, pcts, pctIdx, i);
      prev := next;
      prevP := nextP;
      prevB := nextB;
      i := i + 1;
    }

    var nextP := Val(100.0);
    var nextB := INT64_MAX;
    while pctIdx < |pcts|
      invariant 0 <= pctIdx && Answered(counts, pcts, pctIdx, results)
      invariant pctIdx < |pcts| ==> i == LENGTH && prevP == ShareBefore(counts, LENGTH)
      invariant pctIdx < |pcts| ==> Open(counts, pcts, pctIdx, LENGTH)
    {
      OnlyWhenEmpty(counts, pcts, pctIdx);
      results := results[pctIdx := Interpolated(pcts[pctIdx], prevP, nextP, prevB, nextB)];
      pctIdx := pctIdx + 1;
    }
  }

  /** The inner loop: every open request that bucket `i` reaches. */
  method AnswerInBucket(
    ghost counts: seq<nat>, pcts: seq<real>, ghost i: nat, prevP: Double, nextP: Double, prevB: int, nextB: int,
    start: nat, before: seq<Double>)
    returns (pctIdx: nat, results: seq<Double>)
    requires |counts| == LENGTH && i < LENGTH && prevP == ShareBefore(counts, i) && prevB == Below(i)
    requires nextP == Percent(Cum(counts, i + 1), Total(counts)) && nextB == Value(i)
    requires Answered(counts, pcts, start, before) && Open(counts, pcts, start, i)
    ensures Answered(counts, pcts, pctIdx, results) && Open(counts, pcts, pctIdx, i)
    ensures pctIdx < |pcts| ==> !Reaches(counts, pcts[pctIdx], i)
  {
    pctIdx, results := start, before;
    while pctIdx < |pcts| && AtLeast(nextP, pcts[pctIdx])
      invariant Answered(counts, pcts, pctIdx, results) && Open(counts, pcts, pctIdx, i)
    {
      AnsweredHere(counts, pcts[pctIdx], i);
      results := results[pctIdx := Interpolated(pcts[pctIdx], prevP, nextP, prevB, nextB)];
      pctIdx := pctIdx + 1;
    }
  }

  /** The bucket that is the first to reach a request answers it. */
  lemma AnsweredHere(counts: seq<nat>, p: real, i: nat)
    requires |counts| == LENGTH && i < LENGTH && Reaches(counts, p, i)
    requires forall b :: 0 <= b < i ==> !Reaches(counts, p, b)
    ensures PercentileOf(counts, p) ==
      Interpolated(p, ShareBefore(counts, i), Percent(Cum(counts, i + 1), Total(counts)), Below(i), Value(i))
  {
    FirstBucketIs(counts, p, 0, i);
  }

  lemma StillOpen(counts: seq<nat>, pcts: seq<real>, pctIdx: nat, i: nat)
    requires Requested(pcts) && pctIdx < |pcts| && i < |counts|
    requires Open(counts, pcts, pctIdx, i) && !Reaches(counts, pcts[pctIdx], i)
    ensures Open(counts, pcts, pctIdx, i + 1)
  {
    forall j, b | pctIdx <= j < |pcts| && 0 <= b < i + 1 ensures !Reaches(counts, pcts[j], b) {
      if b == i { assert pcts[pctIdx] <= pcts[j]; }
    }
  }

  /** Requests survive all buckets only if nothing was counted. */
  lemma OnlyWhenEmpty(counts: seq<nat>, pcts: seq<real>, pctIdx: nat)
    requires |counts| == LENGTH && Requested(pcts) && pctIdx < |pcts| && Open(counts, pcts, pctIdx, LENGTH)
    ensures Total(counts) == 0
  {
    if Total(counts) > 0 { EverythingReaches(counts, pcts[pctIdx]); }
  }

  method PercentileFromCounts(counts: seq<nat>, p: real) returns (result: Double)
    requires |counts| == LENGTH && 0.0 <= p <= 100.0
    ensures result == PercentileOf(counts, p)
  {
    var results := Percentiles(counts, [p]);
    result := results[0];
  }

  // ----- Counts from recorded amounts -----

  predicate Amount(x: int) { INT64_MIN <= x <= INT64_MAX }

  function CountIf(amounts: seq<int>, f: int -> bool): nat {
    if amounts == [] then 0
    else CountIf(amounts[..|amounts| - 1], f) + (if f(amounts[|amounts| - 1]) then 1 else 0)
  }

  lemma {:induction false} CountIfLe(amounts: seq<int>, f: int -> bool, g: int -> bool)
    requires forall x :: x in amounts && f(x) ==> g(x)
    ensures CountIf(amounts, f) <= CountIf(amounts, g) <= |amounts|
  {
    if amounts != [] {
      var last := amounts[|amounts| - 1];
      assert f(last) ==> g(last) by { assert last in amounts; }
      CountIfLe(amounts[..|amounts| - 1], f, g);
    }
  }

  function InBucket(i: nat): int -> bool { x => Amount(x) && IndexOf(x) == i }

  function BeforeBucket(i: nat): int -> bool { x => Amount(x) && IndexOf(x) < i }

  /** The counts are those of the recorded amounts. */
  ghost predicate CountsOf(counts: seq<nat>, amounts: seq<int>) {
    && |counts| == LENGTH
    && (forall x :: x in amounts ==> Amount(x))
    && (forall i :: 0 <= i < LENGTH ==> counts[i] == CountIf(amounts, InBucket(i)))
  }

  lemma {:induction false} SplitBuckets(amounts: seq<int>, i: nat)
    requires forall x :: x in amounts ==> Amount(x)
    ensures CountIf(amounts, BeforeBucket(i + 1)) == CountIf(amounts, BeforeBucket(i)) + CountIf(amounts, InBucket(i))
  {
    if amounts != [] { SplitBuckets(amounts[..|amounts| - 1], i); }
  }

  lemma {:induction false} NoneBefore(amounts: seq<int>)
    ensures CountIf(amounts, BeforeBucket(0)) == 0
  {
    if amounts != [] { NoneBefore(amounts[..|amounts| - 1]); }
  }

  lemma {:induction false} AllBefore(amounts: seq<int>)
    requires forall x :: x in amounts ==> Amount(x)
    ensures CountIf(amounts, BeforeBucket(LENGTH)) == |amounts|
  {
    if amounts != [] { AllBefore(amounts[..|amounts| - 1]); }
  }

  lemma {:induction false} CumIs(counts: seq<nat>, amounts: seq<int>, i: nat)
    requires CountsOf(counts, amounts) && i <= LENGTH
    ensures Cum(counts, i) == CountIf(amounts, BeforeBucket(i))
  {
    if i == 0 {
      NoneBefore(amounts);
    } else {
      CumIs(counts, amounts, i - 1);
      SplitBuckets(amounts, i - 1);
    }
  }

  // ----- Nearest rank, and the error bound -----

  function LessThan(x: int): int -> bool { y => y < x }

  function AtMost(x: int): int -> bool { y => y <= x }

  /** `x` is the p-th percentile by nearest rank: fewer than p% of the amounts are below it, p% or more not above. */
  ghost predicate NearestRank(amounts: seq<int>, p: real, x: int) {
    && x in amounts
    && 100.0 * (CountIf(amounts, LessThan(x)) as real) < p * (|amounts| as real)
    && p * (|amounts| as real) <= 100.0 * (CountIf(amounts, AtMost(x)) as real)
  }

  lemma NearestRankUnique(amounts: seq<int>, p: real, x: int, y: int)
    requires NearestRank(amounts, p, x) && NearestRank(amounts, p, y)
    ensures x == y
  {
    if x < y { CountIfLe(amounts, AtMost(x), LessThan(y)); }
    if y < x { CountIfLe(amounts, AtMost(y), LessThan(x)); }
  }

  lemma PercentCompares(n: nat, total: nat, p: real)
    requires total > 0
    ensures AtLeast(Percent(n, total), p) <==> 100.0 * (n as real) >= p * (total as real)
  {
    var t := total as real;
    var q := 100.0 * (n as real) / t;
    assert q * t == 100.0 * (n as real);
    if q >= p { assert (q - p) * t >= 0.0; } else { assert (p - q) * t > 0.0; }
  }

  /** The amounts in buckets before that of `x` are below `x`; those not above `x` are in no later bucket. */
  lemma RankCounts(counts: seq<nat>, amounts: seq<int>, x: int)
    requires CountsOf(counts, amounts) && x in amounts
    ensures Total(counts) == |amounts| > 0
    ensures Cum(counts, IndexOf(x)) <= CountIf(amounts, LessThan(x))
    ensures CountIf(amounts, AtMost(x)) <= Cum(counts, IndexOf(x) + 1)
  {
    var b := IndexOf(x);
    CumIs(counts, amounts, LENGTH); AllBefore(amounts);
    CumIs(counts, amounts, b); CumIs(counts, amounts, b + 1);
    forall y | y in amounts
      ensures BeforeBucket(b)(y) ==> LessThan(x)(y)
      ensures AtMost(x)(y) ==> BeforeBucket(b + 1)(y)
    {
      if y >= x { IndexOfMonotone(x, y); } else { IndexOfMonotone(y, x); }
    }
    CountIfLe(amounts, BeforeBucket(b), LessThan(x));
    CountIfLe(amounts, AtMost(x), BeforeBucket(b + 1));
  }

  /** p * n, as repeated addition. */
  function RankOf(p: real, n: nat): real { if n == 0 then 0.0 else RankOf(p, n - 1) + p }

  lemma {:induction false} RankOfIsProduct(p: real, n: nat)
    ensures RankOf(p, n) == p * (n as real)
  {
    if n > 0 {
      RankOfIsProduct(p, n - 1);
      assert p * (n as real) == p * ((n - 1) as real) + p;
    }
  }

  /** NearestRank without the product. */
  ghost predicate Ranked(amounts: seq<int>, p: real, x: int) {
    && x in amounts
    && 100.0 * (CountIf(amounts, LessThan(x)) as real) < RankOf(p, |amounts|)
    && RankOf(p, |amounts|) <= 100.0 * (CountIf(amounts, AtMost(x)) as real)
  }

  lemma NearestRankRanked(amounts: seq<int>, p: real, x: int)
    requires NearestRank(amounts, p, x)
    ensures Ranked(amounts, p, x)
  {
    RankOfIsProduct(p, |amounts|);
  }

  lemma PercentRank(n: nat, total: nat, p: real)
    requires total > 0
    ensures AtLeast(Percent(n, total), p) <==> 100.0 * (n as real) >= RankOf(p, total)
  {
    RankOfIsProduct(p, total);
    PercentCompares(n, total, p);
  }

  /** The percentile falls in the bucket of the nearest-rank amount. */
  lemma RankBucket(counts: seq<nat>, amounts: seq<int>, p: real, x: int)
    requires CountsOf(counts, amounts) && Ranked(amounts, p, x)
    ensures Total(counts) == |amounts| > 0
    ensures FirstBucket(counts, p, 0) == IndexOf(x)
    ensures Reaches(counts, p, IndexOf(x))
  {
    RankCounts(counts, amounts, x);
    FirstReached(counts, p, IndexOf(x));
  }

  lemma FirstReached(counts: seq<nat>, p: real, b: nat)
    requires b < |counts| && Total(counts) > 0
    requires 100.0 * (Cum(counts, b) as real) < RankOf(p, Total(counts)) <= 100.0 * (Cum(counts, b + 1) as real)
    ensures FirstBucket(counts, p, 0) == b && Reaches(counts, p, b)
  {
    PercentRank(Cum(counts, b + 1), Total(counts), p);
    forall j | 0 <= j < b ensures !Reaches(counts, p, j) { NotReachedAt(counts, p, j, b); }
    FirstBucketIs(counts, p, 0, b);
  }

  lemma NotReachedAt(counts: seq<nat>, p: real, j: nat, b: nat)
    requires j < b < |counts| && Total(counts) > 0
    requires 100.0 * (Cum(counts, b) as real) < RankOf(p, Total(counts))
    ensures !Reaches(counts, p, j)
  {
    CumMonotone(counts, j + 1, b);
    PercentRank(Cum(counts, j + 1), Total(counts), p);
  }

  lemma Between(f: real, a: int, b: int)
    requires 0.0 < f <= 1.0 && a < b
    ensures (a as real) < f * ((b - a) as real) + (a as real) <= (b as real)
  {
    var d := (b - a) as real;
    assert f * d > 0.0;
    assert (1.0 - f) * d >= 0.0;
  }

  lemma FractionInRange(p: real, prev: real, next: real)
    requires prev < p <= next
    ensures 0.0 < (p - prev) / (next - prev) <= 1.0
  {
    var d := next - prev;
    var f := (p - prev) / d;
    assert f * d == p - prev;
    assert f <= 0.0 ==> f * d <= 0.0;
    assert f > 1.0 ==> (f - 1.0) * d > 0.0;
  }

  /** Interpolation stays inside the bucket: above the previous value, at most the bucket's own. */
  lemma PercentileInBucket(counts: seq<nat>, p: real)
    requires |counts| == LENGTH && Total(counts) > 0 && 0.0 < p
    requires Reaches(counts, p, FirstBucket(counts, p, 0))
    ensures var b, r := FirstBucket(counts, p, 0), PercentileOf(counts, p);
      r.Val? && (Below(b) as real) < r.r <= (Value(b) as real)
  {
    var b := FirstBucket(counts, p, 0);
    var prevP, nextP := ShareBefore(counts, b), Percent(Cum(counts, b + 1), Total(counts));
    assert b > 0 ==> !Reaches(counts, p, b - 1);
    InterpolatedInRange(p, prevP, nextP, Below(b), Value(b)) by {
      if b == 0 { ValueIncreasing(0); } else { ValueIncreasing(b - 1); }
    }
  }

  lemma InterpolatedInRange(p: real, prevP: Double, nextP: Double, prevB: int, nextB: int)
    requires prevP.Val? && nextP.Val? && prevP.r < p <= nextP.r && prevB < nextB
    ensures var r := Interpolated(p, prevP, nextP, prevB, nextB);
      r.Val? && (prevB as real) < r.r <= (nextB as real)
  {
    FractionInRange(p, prevP.r, nextP.r);
    Between((p - prevP.r) / (nextP.r - prevP.r), prevB, nextB);
  }

  // ----- Where in the bucket the answer lies -----

  /**
   * `r` divides the range from `a` to `b` in the proportion in which `p` percent of the total divide the counts of the
   * bucket.
   */
  ghost predicate Divides(r: real, a: int, b: int, p: real, total: nat, before: nat, here: nat) {
    (r - (a as real)) * (100.0 * (here as real)) ==
      (p * (total as real) - 100.0 * (before as real)) * ((b - a) as real)
  }

  /** For every request the answer divides its bucket's range as the request divides the bucket's counts. */
  lemma Proportion(counts: seq<nat>, p: real)
    requires |counts| == LENGTH && Total(counts) > 0 && 0.0 < p <= 100.0
    ensures var b, r := FirstBucket(counts, p, 0), PercentileOf(counts, p);
      && counts[b] > 0 && r.Val?
      && Divides(r.r, Below(b), Value(b), p, Total(counts), Cum(counts, b), counts[b])
  {
    var b := FirstBucket(counts, p, 0);
    RequestInShare(counts, p);
    AnswerIs(counts, p, b);
    InProportion(p, Cum(counts, b), counts[b], Total(counts), Below(b), Value(b));
  }

  /** The request lies in the share of the first bucket that reaches it. */
  lemma RequestInShare(counts: seq<nat>, p: real)
    requires |counts| > 0 && Total(counts) > 0 && 0.0 < p <= 100.0
    ensures var b, t := FirstBucket(counts, p, 0), Total(counts);
      Percent(Cum(counts, b), t).r < p <= Percent(Cum(counts, b + 1), t).r
  {
    EverythingReaches(counts, p);
    ReachedInTheEnd(counts, p, 0);
    var b := FirstBucket(counts, p, 0);
    if b > 0 { assert !Reaches(counts, p, b - 1); } else { PercentTimes(0, Total(counts)); }
  }

  lemma AnswerIs(counts: seq<nat>, p: real, b: nat)
    requires |counts| == LENGTH && Total(counts) > 0 && b == FirstBucket(counts, p, 0)
    ensures Cum(counts, b + 1) == Cum(counts, b) + counts[b]
    ensures PercentileOf(counts, p) ==
      Interpolated(p, Percent(Cum(counts, b), Total(counts)), Percent(Cum(counts, b) + counts[b], Total(counts)),
                   Below(b), Value(b))
  {
    if b == 0 { PercentTimes(0, Total(counts)); }
  }

  lemma InProportion(p: real, before: nat, here: nat, total: nat, a: int, b: int)
    requires total > 0 && Percent(before, total).r < p <= Percent(before + here, total).r
    ensures var r := Interpolated(p, Percent(before, total), Percent(before + here, total), a, b);
      here > 0 && r.Val? && Divides(r.r, a, b, p, total, before, here)
  {
    var t, prev, next := total as real, Percent(before, total).r, Percent(before + here, total).r;
    PercentTimes(before, total); PercentTimes(before + here, total);
    assert (next - prev) * t == 100.0 * (here as real);
    assert (p - prev) * t == p * t - 100.0 * (before as real);
    Shared(p - prev, next - prev, t, (b - a) as real);
  }

  lemma PercentTimes(n: nat, total: nat)
    requires total > 0
    ensures Percent(n, total).r * (total as real) == 100.0 * (n as real)
  {
  }

  lemma Shared(x: real, d: real, t: real, range: real)
    requires d > 0.0
    ensures x / d * range * (d * t) == x * t * range
  {
    assert x / d * d == x;
    assert x / d * range * (d * t) == (x / d * d) * t * range;
  }

  /** `p` percent of the total is `n`. */
  ghost predicate IsShare(p: real, total: nat, n: nat) { p * (total as real) == 100.0 * (n as real) }

  /** A request equal to the share of the counts through a bucket is answered by that bucket's value. */
  lemma WholeBucket(counts: seq<nat>, p: real)
    requires |counts| == LENGTH && Total(counts) > 0 && 0.0 < p <= 100.0
    requires IsShare(p, Total(counts), Cum(counts, FirstBucket(counts, p, 0) + 1))
    ensures PercentileOf(counts, p) == Val(Value(FirstBucket(counts, p, 0)) as real)
  {
    Proportion(counts, p);
    var b := FirstBucket(counts, p, 0);
    WholeRange(PercentileOf(counts, p).r, Below(b), Value(b), p, Total(counts), Cum(counts, b), counts[b]);
  }

  lemma WholeRange(r: real, a: int, b: int, p: real, total: nat, before: nat, here: nat)
    requires Divides(r, a, b, p, total, before, here) && here > 0
    requires IsShare(p, total, before + here)
    ensures r == b as real
  {
    var k := 100.0 * (here as real);
    assert (r - (a as real)) * k == k * ((b - a) as real);
    SameFactor(r - (a as real), (b - a) as real, k);
  }

  lemma SameFactor(x: real, y: real, k: real)
    requires k > 0.0 && x * k == k * y
    ensures x == y
  {
    assert (x - y) * k == 0.0;
  }

  /** Within a third of `x`, plus 4. */
  predicate Near(r: Double, x: int) {
    r.Val? && -(x as real) / 3.0 - 4.0 <= r.r - (x as real) <= (x as real) / 3.0 + 4.0
  }

  /** The error bound: within a third of the true nearest-rank percentile, plus 4, outside the last bucket. */
  lemma ErrorBound(counts: seq<nat>, amounts: seq<int>, p: real, x: int)
    requires CountsOf(counts, amounts) && NearestRank(amounts, p, x) && 0.0 < p <= 100.0
    requires x >= 0 && IndexOf(x) < LAST
    ensures Near(PercentileOf(counts, p), x)
  {
    NearestRankRanked(amounts, p, x);
    RankedErrorBound(counts, amounts, p, x);
  }

  lemma RankedErrorBound(counts: seq<nat>, amounts: seq<int>, p: real, x: int)
    requires CountsOf(counts, amounts) && Ranked(amounts, p, x) && 0.0 < p <= 100.0
    requires x >= 0 && IndexOf(x) < LAST
    ensures Near(PercentileOf(counts, p), x)
  {
    RankBucket(counts, amounts, p, x);
    PercentileInBucket(counts, p);
    NotLastIsSmall(x);
    IndexOfBracket(x);
    ThirdAsReal(x);
  }

  lemma NotLastIsSmall(x: int)
    requires Amount(x) && IndexOf(x) < LAST
    ensures x < INT64_MAX
  {
    if x == INT64_MAX {
      IndexOfMonotone(0x4000_0000_0000_0000, x);
      TopIndex();
    }
  }

  /** 2^62 is in the last bucket. */
  lemma TopIndex()
    ensures IndexOf(0x4000_0000_0000_0000) == LAST
  {
    var k, o := IndexShape(0x4000_0000_0000_0000);
    TopPower();
    DeltaGrows(k, 31);
    if k < 31 { DeltaGrows(k + 1, 31); }
  }

  // ----- Exactly when the bound holds -----

  /** Whenever `x` is the true percentile, the answer is near it. */
  ghost predicate AlwaysNear(x: int) {
    forall counts, amounts, p ::
      CountsOf(counts, amounts) && NearestRank(amounts, p, x) && 0.0 < p <= 100.0 ==> Near(PercentileOf(counts, p), x)
  }

  /** The bound holds for a non-negative amount in every history exactly when it is not in the last bucket. */
  lemma AlwaysNearIff(x: int)
    requires Amount(x) && x >= 0
    ensures AlwaysNear(x) <==> IndexOf(x) < LAST
  {
    if IndexOf(x) < LAST {
      forall counts, amounts, p | CountsOf(counts, amounts) && NearestRank(amounts, p, x) && 0.0 < p <= 100.0
        ensures Near(PercentileOf(counts, p), x)
      {
        ErrorBound(counts, amounts, p, x);
      }
    } else {
      var counts := CountsOfOne(x);
      LastBucketMisses(counts, x);
    }
  }

  /** A history of one amount of the last bucket: its low percentiles are too low, or its maximum too high. */
  lemma LastBucketMisses(counts: seq<nat>, x: int)
    requires Amount(x) && x >= 0 && IndexOf(x) == LAST && CountsOf(counts, [x])
    ensures NearestRank([x], 1.0, x) && NearestRank([x], 100.0, x)
    ensures !Near(PercentileOf(counts, 1.0), x) || !Near(PercentileOf(counts, 100.0), x)
  {
    OneAmount(counts, x, 1.0);
    OneAmount(counts, x, 100.0);
    BelowLast();
    EndsOfLastBucket(x, PercentileOf(counts, 1.0), PercentileOf(counts, 100.0));
  }

  /** Nothing is near both ends of the last bucket. */
  lemma EndsOfLastBucket(x: int, low: Double, high: Double)
    requires low == Interpolated(1.0, Val(0.0), Val(100.0), 4227378850225105576, INT64_MAX)
    requires high == Interpolated(100.0, Val(0.0), Val(100.0), 4227378850225105576, INT64_MAX)
    ensures !Near(low, x) || !Near(high, x)
  {
    assert low.r < 4277500000000000000.0;
    assert high.r > 9223000000000000000.0;
  }

  lemma BelowLast()
    ensures Below(LAST) == 4227378850225105576
  {
    assert Delta(8) == 21845;
    assert Delta(16) == 1431655765;
    assert Delta(24) == 93824992236885;
    assert Delta(30) == 384307168202282325;
    ValueInBlock(30, 8);
    SmallProducts(Delta(30));
  }

  lemma CountOne(x: int, f: int -> bool)
    ensures CountIf([x], f) == if f(x) then 1 else 0
  {
    assert [x][..0] == [];
  }

  lemma CountsOfOne(x: int) returns (counts: seq<nat>)
    requires Amount(x)
    ensures CountsOf(counts, [x])
  {
    counts := seq(LENGTH, i => if i == IndexOf(x) then 1 else 0);
    forall i | 0 <= i < LENGTH ensures counts[i] == CountIf([x], InBucket(i)) { CountOne(x, InBucket(i)); }
  }

  /** With one amount recorded, the answer is that share of the way through its bucket. */
  lemma OneAmount(counts: seq<nat>, x: int, p: real)
    requires Amount(x) && CountsOf(counts, [x]) && 0.0 < p <= 100.0
    ensures NearestRank([x], p, x)
    ensures var b := IndexOf(x); PercentileOf(counts, p) == Interpolated(p, Val(0.0), Val(100.0), Below(b), Value(b))
  {
    var amounts := [x];
    CountOne(x, LessThan(x)); CountOne(x, AtMost(x));
    assert p * (|amounts| as real) == p;
    RankCounts(counts, amounts, x);
    CumMonotone(counts, IndexOf(x) + 1, LENGTH);
    NearestRankRanked(amounts, p, x);
    RankBucket(counts, amounts, p, x);
  }

  lemma ThirdAsReal(x: int)
    requires x >= 0
    ensures ((x / 3) as real) <= (x as real) / 3.0
  {
    assert 3 * (x / 3) <= x;
  }

  // ----- When there is an answer at all -----

  /** At p = 0 the first bucket answers: 0, or 0/0 when it is empty. */
  lemma ZeroPercent(counts: seq<nat>)
    requires |counts| == LENGTH && Total(counts) > 0
    ensures PercentileOf(counts, 0.0) == if counts[0] > 0 then Val(0.0) else NaN
  {
    var t := Total(counts) as real;
    assert Cum(counts, 1) == counts[0] && 100.0 * (counts[0] as real) / t * t == 100.0 * (counts[0] as real);
    PercentCompares(counts[0], Total(counts), 0.0);
    FirstBucketIs(counts, 0.0, 0, 0);
    ValueIncreasing(0);
  }

  /** With something counted there is an answer, except at p = 0 with an empty first bucket. */
  lemma AnswerIff(counts: seq<nat>, p: real)
    requires |counts| == LENGTH && 0.0 <= p <= 100.0
    ensures PercentileOf(counts, p).Val? <==> Total(counts) > 0 && (p > 0.0 || counts[0] > 0)
  {
    if Total(counts) > 0 {
      if p > 0.0 {
        EverythingReaches(counts, p);
        ReachedInTheEnd(counts, p, 0);
        PercentileInBucket(counts, p);
      } else {
        ZeroPercent(counts);
      }
    }
  }

  lemma {:induction false} ReachedInTheEnd(counts: seq<nat>, p: real, i: nat)
    requires i < |counts| && Reaches(counts, p, |counts| - 1)
    ensures Reaches(counts, p, FirstBucket(counts, p, i))
    decreases |counts| - i
  {
    if !Reaches(counts, p, i) { ReachedInTheEnd(counts, p, i + 1); }
  }

  /** The first bucket counts the amounts that are not positive. */
  lemma {:induction false} FirstBucketCounts(amounts: seq<int>)
    requires forall x :: x in amounts ==> Amount(x)
    ensures CountIf(amounts, InBucket(0)) > 0 <==> exists x :: x in amounts && x <= 0
  {
    if amounts != [] {
      var n := |amounts| - 1;
      FirstBucketCounts(amounts[..n]);
      assert amounts == amounts[..n] + [amounts[n]];
      assert forall x :: x in amounts <==> x in amounts[..n] || x == amounts[n];
      assert amounts[n] in amounts;
      if amounts[n] > 0 { PositiveBucket(amounts[n]); }
      assert InBucket(0)(amounts[n]) <==> amounts[n] <= 0;
    }
  }

  lemma PositiveBucket(x: int)
    requires 0 < x <= INT64_MAX
    ensures IndexOf(x) > 0
  {
    if x < INT64_MAX { IndexOfBracket(x); } else { IndexOfMonotone(1, x); }
  }

  // ----- Existence of the nearest rank -----

  lemma {:induction false} CountAll(amounts: seq<int>, f: int -> bool)
    requires forall x :: x in amounts ==> f(x)
    ensures CountIf(amounts, f) == |amounts|
  {
    if amounts != [] {
      var last := amounts[|amounts| - 1];
      assert f(last) by { assert last in amounts; }
      CountAll(amounts[..|amounts| - 1], f);
    }
  }

  lemma {:induction false} Largest(amounts: seq<int>) returns (x: int)
    requires amounts != []
    ensures x in amounts && forall y :: y in amounts ==> y <= x
  {
    var n := |amounts| - 1;
    x := amounts[n];
    assert amounts == amounts[..n] + [amounts[n]];
    if n > 0 {
      var m := Largest(amounts[..n]);
      if m > x { x := m; }
    }
  }

  /** Starting from an amount with enough at or below it, the least such amount is the nearest rank. */
  lemma {:induction false} Descend(amounts: seq<int>, p: real, x: int) returns (r: int)
    requires x in amounts && 0.0 < p && p * (|amounts| as real) <= 100.0 * (CountIf(amounts, AtMost(x)) as real)
    ensures NearestRank(amounts, p, r)
    decreases CountIf(amounts, LessThan(x))
  {
    if 100.0 * (CountIf(amounts, LessThan(x)) as real) < p * (|amounts| as real) {
      r := x;
    } else {
      PositiveProduct(p, |amounts|);
      var y := Predecessor(amounts, x);
      CountIfLe(amounts, LessThan(x), AtMost(y));
      StrictlyFewer(amounts, LessThan(y), LessThan(x), y);
      r := Descend(amounts, p, y);
    }
  }

  lemma PositiveProduct(p: real, n: nat)
    requires p > 0.0 && n > 0
    ensures p * (n as real) > 0.0
  {
  }

  lemma {:induction false} Predecessor(amounts: seq<int>, x: int) returns (y: int)
    requires CountIf(amounts, LessThan(x)) > 0
    ensures y in amounts && y < x && forall z :: z in amounts && z < x ==> z <= y
  {
    var n := |amounts| - 1;
    assert amounts == amounts[..n] + [amounts[n]];
    if CountIf(amounts[..n], LessThan(x)) > 0 {
      y := Predecessor(amounts[..n], x);
      if amounts[n] < x && amounts[n] > y { y := amounts[n]; }
    } else {
      y := amounts[n];
      NoneCounted(amounts[..n], LessThan(x));
    }
  }

  lemma {:induction false} NoneCounted(amounts: seq<int>, f: int -> bool)
    requires CountIf(amounts, f) == 0
    ensures forall x :: x in amounts ==> !f(x)
  {
    if amounts != [] {
      var n := |amounts| - 1;
      NoneCounted(amounts[..n], f);
      assert amounts == amounts[..n] + [amounts[n]];
    }
  }

  lemma {:induction false} StrictlyFewer(amounts: seq<int>, f: int -> bool, g: int -> bool, y: int)
    requires y in amounts && g(y) && !f(y) && forall x :: x in amounts && f(x) ==> g(x)
    ensures CountIf(amounts, f) < CountIf(amounts, g)
  {
    var n := |amounts| - 1;
    assert amounts == amounts[..n] + [amounts[n]];
    var last := amounts[n];
    assert f(last) ==> g(last) by { assert last in amounts; }
    if y in amounts[..n] { StrictlyFewer(amounts[..n], f, g, y); } else { CountIfLe(amounts[..n], f, g); }
  }

  lemma NearestRankExists(amounts: seq<int>, p: real) returns (x: int)
    requires amounts != [] && 0.0 < p <= 100.0
    ensures NearestRank(amounts, p, x)
  {
    var m := Largest(amounts);
    CountAll(amounts, AtMost(m));
    assert (100.0 - p) * (|amounts| as real) >= 0.0;
    x := Descend(amounts, p, m);
  }

  // ----- The distribution summary -----

  class PercentileDistributionSummary {
    /** One counter per bucket, made on first use. */
    const counters: array<Option<nat>>

    ghost var recorded: seq<int>

    function CountAt(i: nat): nat
      requires i < counters.Length
      reads counters
    {
      if counters[i].None? then 0 else counters[i].value
    }

    ghost predicate Valid()
      reads this, counters
    {
      && counters.Length == LENGTH
      && (forall x :: x in recorded ==> Amount(x))
      && (forall i :: 0 <= i < LENGTH ==> CountAt(i) == CountIf(recorded, InBucket(i)))
    }

    constructor ()
      ensures Valid() && recorded == [] && fresh(counters)
    {
      counters := new Option<nat>[LENGTH](_ => None);
      recorded := [];
    }

    /** The counter of bucket `i`, created at zero if it was not there. */
    method CounterFor(i: nat) returns (count: nat)
      requires Valid() && i < LENGTH
      modifies counters
      ensures Valid() && recorded == old(recorded)
      ensures counters[i] == Some(count) && count == CountIf(recorded, InBucket(i))
      ensures forall j :: 0 <= j < LENGTH && j != i ==> counters[j] == old(counters[j])
    {
      if counters[i].None? {
        counters[i] := Some(0);
      }
      count := counters[i].value;
    }

    method Record(amount: int)
      requires Valid() && Amount(amount)
      modifies this, counters
      ensures Valid() && recorded == old(recorded) + [amount]
    {
      var i := IndexOf(amount);
      var count := CounterFor(i);
      counters[i] := Some(count + 1);
      recorded := recorded + [amount];
      assert recorded[..|recorded| - 1] == old(recorded);
      assert forall j :: 0 <= j < LENGTH ==> InBucket(j)(amount) == (j == i);
    }

    /** When there is an answer, and how near it is to the true percentile of what was recorded. */
    method Percentile(p: real) returns (result: Double)
      requires Valid() && 0.0 <= p <= 100.0
      modifies counters
      ensures Valid() && recorded == old(recorded)
      ensures result.Val? <==> recorded != [] && (p > 0.0 || exists x :: x in recorded && x <= 0)
      ensures p == 0.0 && result.Val? ==> result == Val(0.0)
      ensures p > 0.0 ==>
        forall x :: NearestRank(recorded, p, x) && x >= 0 && IndexOf(x) < LAST ==> Near(result, x)
    {
      var counts: seq<nat> := [];
      for i := 0 to LENGTH
        invariant Valid() && recorded == old(recorded)
        invariant |counts| == i && forall j :: 0 <= j < i ==> counts[j] == CountIf(recorded, InBucket(j))
      {
        var c := CounterFor(i);
        counts := counts + [c];
      }
      result := PercentileFromCounts(counts, p);
      CumIs(counts, recorded, LENGTH); AllBefore(recorded);
      AnswerIff(counts, p); FirstBucketCounts(recorded);
      if p == 0.0 && result.Val? { ZeroPercent(counts); }
      if p > 0.0 {
        forall x | NearestRank(recorded, p, x) && x >= 0 && IndexOf(x) < LAST
          ensures Near(result, x)
        {
          ErrorBound(counts, recorded, p, x);
        }
      }
    }
  }
}
