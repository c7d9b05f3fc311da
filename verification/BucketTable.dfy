/**
 * The generated percentile bucket table (gen_perc_bucket_values.cc) and the lookup into it
 * (meter/percentile_buckets.cc).
 */
module BucketTable {
  import opened Arithmetic

  const INT64_MAX: int := 0x7FFF_FFFF_FFFF_FFFF
  const INT64_MIN: int := -0x8000_0000_0000_0000

  /** Two's-complement wrap-around to 64 bits. */
  function Wrap64(x: int): int {
    (x - INT64_MIN) % 0x1_0000_0000_0000_0000 + INT64_MIN
  }

  function Pow2(e: nat): nat { if e == 0 then 1 else 2 * Pow2(e - 1) }

  /** j * d, as repeated addition. */
  function Times(j: nat, d: nat): nat { if j == 0 then 0 else Times(j - 1, d) + d }

  /** n / d, as repeated subtraction. */
  function Quotient(n: nat, d: nat): nat
    requires d > 0
  {
    if n < d then 0 else 1 + Quotient(n - d, d)
  }

  lemma {:induction false} QuotientBounds(n: nat, d: nat)
    requires d > 0
    ensures Times(Quotient(n, d), d) <= n < Times(Quotient(n, d), d) + d
  {
    if n >= d { QuotientBounds(n - d, d); }
  }

  lemma {:induction false} TimesIsProduct(j: nat, d: nat)
    ensures Times(j, d) == j * d
  {
    if j > 0 {
      TimesIsProduct(j - 1, d);
      assert j * d == (j - 1) * d + d;
    }
  }

  /** Repeated subtraction equals integer division. */
  lemma QuotientIsDivision(n: nat, d: nat)
    requires d > 0
    ensures Quotient(n, d) == n / d
  {
    var q := Quotient(n, d);
    QuotientBounds(n, d);
    TimesIsProduct(q, d);
    DivisionUnique(n, d, q, n - q * d);
  }

  lemma {:induction false} QuotientMonotone(a: nat, b: nat, d: nat)
    requires a <= b && d > 0
    ensures Quotient(a, d) <= Quotient(b, d)
  {
    if a >= d { QuotientMonotone(a - d, b - d, d); }
  }

  lemma {:induction false} TimesMonotone(a: nat, b: nat, d: nat)
    requires a <= b
    ensures Times(a, d) <= Times(b, d)
  {
    if a < b { TimesMonotone(a, b - 1, d); }
  }

  /** The products the table needs. */
  lemma SmallProducts(d: nat)
    ensures Times(0, d) == 0 && Times(1, d) == d
    ensures Times(8, d) == 8 * d && Times(9, d) == 9 * d && Times(10, d) == 10 * d && Times(11, d) == 11 * d
  {
    TimesIsProduct(0, d); TimesIsProduct(1, d); TimesIsProduct(8, d);
    TimesIsProduct(9, d); TimesIsProduct(10, d); TimesIsProduct(11, d);
  }

  // ----- Closed form of the table -----

  /** (4^k - 1) / 3 */
  function Delta(k: nat): nat { if k == 0 then 0 else 4 * Delta(k - 1) + 1 }

  /** 4^k */
  function Pow4(k: nat): nat { 3 * Delta(k) + 1 }

  const LAST: nat := 275
  const LENGTH: nat := 276

  /** Values from 4^k up to the next power of four. */
  function Width(k: nat): nat { if k == 0 then 3 else if k == 1 then 11 else 9 }

  /** Index of 4^k in the table. */
  function StartOf(k: nat): nat { if k == 0 then 0 else if k == 1 then 3 else 9 * k - 4 }

  function BlockOf(i: nat): nat { if i < 3 then 0 else if i < 14 then 1 else (i + 4) / 9 }

  /** The value at index `i`. */
  function Value(i: nat): int
    requires i < LENGTH
  {
    if i == LAST then INT64_MAX
    else if i < 3 then i + 1
    else var k := BlockOf(i); Pow4(k) + Times(i - StartOf(k), Delta(k))
  }

  lemma {:induction false} DeltaGrows(j: nat, k: nat)
    requires j <= k
    ensures Delta(j) + (k - j) <= Delta(k)
    ensures k >= 1 ==> Delta(k) >= 1
    ensures k >= 2 ==> Delta(k) >= 5
    decreases k
  {
    if j < k { DeltaGrows(j, k - 1); } else if k > 0 { DeltaGrows(j - 1, k - 1); }
  }

  lemma {:induction false} PowersAgree(k: nat)
    ensures Pow2(2 * k) == Pow4(k)
    ensures Pow2(2 * k + 1) == 2 * Pow4(k)
  {
    if k > 0 {
      PowersAgree(k - 1);
      assert Pow2(2 * k) == 2 * Pow2(2 * k - 1);
    }
  }

  lemma TopPower()
    ensures Pow4(31) == 0x4000_0000_0000_0000
  {
    assert Delta(8) == 21845;
    assert Delta(16) == 1431655765;
    assert Delta(24) == 93824992236885;
    assert Delta(31) == 1537228672809129301;
  }

  lemma ValueInBlock(k: nat, j: nat)
    requires 1 <= k <= 30 && j < Width(k)
    ensures StartOf(k) + j < LAST
    ensures Value(StartOf(k) + j) == Pow4(k) + Times(j, Delta(k))
  {
    assert BlockOf(StartOf(k) + j) == k;
  }

  /** From each power of four on the values go up by a third of it, rounded down: 11 from 4, 9 from each other. */
  lemma TableValues(k: nat, j: nat)
    requires 1 <= k <= 30 && j < (if k == 1 then 11 else 9)
    ensures var start := if k == 1 then 3 else 9 * k - 4;
      start + j < LAST && Value(start + j) == Pow2(2 * k) + j * (Pow2(2 * k) / 3)
    ensures Value(0) == 1 && Value(1) == 2 && Value(2) == 3 && Value(LAST) == INT64_MAX
  {
    ValueInBlock(k, j);
    TimesIsProduct(j, Delta(k));
    PowersAgree(k);
    assert (3 * Delta(k) + 1) / 3 == Delta(k);
  }

  // ----- The generator -----

  /** Inner loop bound: how many values fit below the next power of four less one delta. */
  lemma BlockEnds(k: nat, j: nat)
    requires 1 <= k
    ensures j < Width(k) ==> Pow4(k) + Times(j, Delta(k)) < 4 * Pow4(k) - Delta(k)
    ensures j == Width(k) ==> Pow4(k) + Times(j, Delta(k)) >= 4 * Pow4(k) - Delta(k)
  {
    DeltaGrows(1, k); SmallProducts(Delta(k));
    if k == 1 {
      assert Delta(1) == 1;
      SmallProducts(1);
      if j < 11 { TimesMonotone(j, 10, 1); }
    } else if j < 9 {
      TimesMonotone(j, 8, Delta(k));
    }
  }

  /** The values of one power of four, appended in order. */
  method GenerateBlock(k: nat, prefix: seq<int>) returns (bucketValues: seq<int>)
    requires 1 <= k <= 31 && |prefix| == StartOf(k)
    requires forall i :: 0 <= i < |prefix| ==> prefix[i] == Value(i)
    ensures |bucketValues| == if k <= 30 then StartOf(k + 1) else LAST
    ensures forall i :: 0 <= i < |bucketValues| ==> bucketValues[i] == Value(i)
  {
    bucketValues := prefix;
    var exp := 2 * k;
    var current := Pow2(exp);
    var delta := current / 3;
    var next := Wrap64(4 * current) - delta;
    BlockSetup(k);
    ghost var j := 0;
    while current < next
      invariant current == Pow4(k) + Times(j, delta)
      invariant k == 31 ==> j == 0
      invariant k <= 30 ==> j <= Width(k)
      invariant |bucketValues| == StartOf(k) + j
      invariant forall i :: 0 <= i < |bucketValues| ==> bucketValues[i] == Value(i)
      decreases next - current
    {
      BlockEnds(k, j);
      ValueInBlock(k, j);
      bucketValues := bucketValues + [current];
      current := current + delta;
      j := j + 1;
    }
    if k <= 30 { BlockEnds(k, j); }
  }

  /** The generator's locals before a block. At exponent 62 the shift wraps to 0, and no value is pushed. */
  lemma BlockSetup(k: nat)
    requires 1 <= k <= 31
    ensures Pow2(2 * k) == Pow4(k) && Pow4(k) / 3 == Delta(k) >= 1
    ensures Wrap64(4 * Pow4(k)) == if k <= 30 then 4 * Pow4(k) else 0
  {
    PowersAgree(k); DeltaGrows(1, k); TopPower();
    Wraps(4 * Pow4(k));
    if k <= 30 {
      DeltaGrows(k + 1, 31);
      assert Delta(k + 1) == 4 * Delta(k) + 1;
    }
  }

  lemma Wraps(x: int)
    ensures 0 <= x <= INT64_MAX ==> Wrap64(x) == x
    ensures x == 0x1_0000_0000_0000_0000 ==> Wrap64(x) == 0
  {
  }

  /** init() in the generator: both arrays, exactly the closed form. */
  method Generate() returns (bucketValues: seq<int>, powerOf4Index: seq<nat>)
    ensures bucketValues == seq(LENGTH, i requires 0 <= i < LENGTH => Value(i))
    ensures powerOf4Index == seq(32, k requires 0 <= k < 32 => StartOf(k))
  {
    powerOf4Index := [0];
    bucketValues := [1, 2, 3];
    var exp := 2;
    while exp < 64
      invariant 2 <= exp <= 64 && exp % 2 == 0
      invariant |powerOf4Index| == exp / 2
      invariant forall k :: 0 <= k < exp / 2 ==> powerOf4Index[k] == StartOf(k)
      invariant |bucketValues| == if exp < 64 then StartOf(exp / 2) else LAST
      invariant forall i :: 0 <= i < |bucketValues| ==> bucketValues[i] == Value(i)
      decreases 64 - exp
    {
      powerOf4Index := powerOf4Index + [|bucketValues|];
      bucketValues := GenerateBlock(exp / 2, bucketValues);
      exp := exp + 2;
    }
    bucketValues := bucketValues + [INT64_MAX];
  }

  /** The table climbs strictly. */
  lemma ValueIncreasing(i: nat)
    requires i < LAST
    ensures Value(i) < Value(i + 1)
    ensures Value(i) >= 1
  {
    if i >= 3 {
      var k := BlockOf(i);
      NextInBlock(k, i - StartOf(k));
    }
  }

  lemma NextInBlock(k: nat, j: nat)
    requires 1 <= k <= 30 && j < Width(k)
    ensures var i := StartOf(k) + j; i < LAST && 1 <= Value(i) < Value(i + 1)
  {
    DeltaGrows(1, k);
    ValueInBlock(k, j);
    if j + 1 < Width(k) {
      ValueInBlock(k, j + 1);
    } else {
      BlockEnds(k, j);
      assert Pow4(k + 1) == 4 * Pow4(k);
      if k < 30 { ValueInBlock(k + 1, 0); } else { TopPower(); }
    }
  }

  // ----- IndexOf -----

  function Log2(v: nat): nat
    requires v > 0
  {
    if v == 1 then 0 else 1 + Log2(v / 2)
  }

  /** __builtin_clzll */
  function LeadingZeros(v: nat): int
    requires v > 0
  {
    63 - Log2(v)
  }

  function ShiftRight(v: nat, e: nat): nat { if e == 0 then v else ShiftRight(v / 2, e - 1) }

  function ShiftLeft(v: nat, e: nat): nat { if e == 0 then v else 2 * ShiftLeft(v, e - 1) }

  lemma {:induction false} TopBit(v: nat)
    requires v > 0
    ensures ShiftRight(v, Log2(v)) == 1
    ensures Pow2(Log2(v)) <= v < 2 * Pow2(Log2(v))
  {
    if v > 1 { TopBit(v / 2); }
  }

  lemma {:induction false} ShiftLeftOne(e: nat)
    ensures ShiftLeft(1, e) == Pow2(e)
  {
    if e > 0 { ShiftLeftOne(e - 1); }
  }

  /** The largest power of four not above `v`, by the bit operations, with the shift that gives it. */
  function PowerBelow(v: nat): (r: (nat, nat))
    requires v > 0
  {
    var shift := 64 - LeadingZeros(v) - 1;
    var prevPowerOf2 := ShiftLeft(ShiftRight(v, shift), shift);
    if shift % 2 != 0 then (shift - 1, prevPowerOf2 / 2) else (shift, prevPowerOf2)
  }

  lemma PowerBelowIs(v: nat)
    requires v > 0
    ensures var (shift, base) := PowerBelow(v); var k := shift / 2;
      && base == Pow4(k) && Pow4(k) <= v < Pow4(k + 1)
      && base / 3 == Delta(k) && (v > 4 ==> k >= 1 && Delta(k) >= 1)
  {
    var s := Log2(v);
    var k := s / 2;
    assert s == 2 * k || s == 2 * k + 1;
    TopBit(v);
    ShiftLeftOne(s);
    PowersAgree(k);
    assert Pow4(k + 1) == 4 * Pow4(k);
    assert Pow2(s) == if s == 2 * k then Pow4(k) else 2 * Pow4(k);
    assert PowerBelow(v) == (2 * k, Pow4(k));
    assert Pow4(0) == 1;
    if k >= 1 { DeltaGrows(1, k); }
  }

  function IndexOf(v: int): (i: nat)
    requires INT64_MIN <= v <= INT64_MAX
    ensures i < LENGTH
  {
    if v <= 0 then 0
    else if v <= 4 then v
    else
      PowerBelowIs(v);
      var (shift, base) := PowerBelow(v);
      var delta := base / 3;
      var offset := Quotient(v - base, delta);
      var pos := offset + StartOf(shift / 2);
      if pos >= LAST then LAST else pos + 1
  }

  /** `v` lies in block `k` at offset `o`. */
  ghost predicate At(v: int, k: nat, o: nat) {
    && 1 <= k <= 31 && Pow4(k) <= v < Pow4(k + 1) && Delta(k) >= 1
    && Times(o, Delta(k)) <= v - Pow4(k) < Times(o, Delta(k)) + Delta(k)
    && o <= (if k == 1 then 11 else 9)
  }

  lemma OffsetBelow(v: int, k: nat)
    requires 1 <= k && Pow4(k) <= v < Pow4(k + 1) && v <= INT64_MAX && Delta(k) >= 1
    ensures At(v, k, Quotient(v - Pow4(k), Delta(k)))
  {
    var d := Delta(k);
    var o := Quotient(v - Pow4(k), d);
    QuotientBounds(v - Pow4(k), d);
    DeltaGrows(1, k); SmallProducts(d);
    FitsBelow32(v, k);
    assert Delta(k + 1) == 4 * d + 1;
    if k == 1 {
      assert Delta(1) == 1;
      TimesIsProduct(o, 1);
    } else if o >= 10 {
      TimesMonotone(10, o, d);
    }
  }

  lemma FitsBelow32(v: int, k: nat)
    requires Pow4(k) <= v <= INT64_MAX
    ensures k <= 31
  {
    TopPower();
    assert Delta(32) == 4 * Delta(31) + 1;
    if k >= 32 { DeltaGrows(32, k); }
  }

  lemma IndexShape(v: int) returns (k: nat, o: nat)
    requires 4 < v <= INT64_MAX
    ensures At(v, k, o)
    ensures o == Quotient(v - Pow4(k), Delta(k))
    ensures IndexOf(v) == if StartOf(k) + o >= LAST then LAST else StartOf(k) + o + 1
  {
    PowerBelowIs(v);
    k := PowerBelow(v).0 / 2;
    o := Quotient(v - Pow4(k), Delta(k));
    OffsetBelow(v, k);
  }

  /**
   * A value is below its bucket, above the previous one but for the last three under a power of four, and close to
   * both.
   */
  lemma IndexOfBracket(v: int)
    requires INT64_MIN <= v < INT64_MAX
    ensures v < Value(IndexOf(v))
    ensures v >= 1 ==> IndexOf(v) >= 1 && Value(IndexOf(v) - 1) <= v + 3
    ensures v >= 0 && IndexOf(v) < LAST ==> Value(IndexOf(v)) <= v + v / 3 + 4
    ensures v >= 0 && IndexOf(v) < LAST ==> v - Below(IndexOf(v)) <= v / 3 + 4
  {
    if v <= 4 {
      SmallProducts(1);
      assert Delta(1) == 1;
      ValueInBlock(1, 0); ValueInBlock(1, 1);
    } else {
      var k, o := IndexShape(v);
      BracketInBlock(v, k, o);
    }
  }

  /** The table value before index `i`, 0 before the first. */
  function Below(i: nat): int
    requires i < LENGTH
  {
    if i == 0 then 0 else Value(i - 1)
  }

  lemma BracketInBlock(v: int, k: nat, o: nat)
    requires v < INT64_MAX && At(v, k, o)
    ensures var i := if StartOf(k) + o >= LAST then LAST else StartOf(k) + o + 1;
      && v < Value(i) && Value(i - 1) <= v + 3
      && (i < LAST ==> Value(i) <= v + v / 3 + 4 && v - Value(i - 1) <= v / 3 + 4)
  {
    if k == 31 {
      TopPower(); LastValue();
    } else if o + 1 < Width(k) {
      ValueInBlock(k, o); ValueInBlock(k, o + 1);
    } else {
      BracketAtEdge(v, k, o);
    }
  }

  /** At the top of a block the next value is the next power of four. */
  lemma BracketAtEdge(v: int, k: nat, o: nat)
    requires v < INT64_MAX && At(v, k, o) && k <= 30 && o + 1 >= Width(k)
    ensures var i := if StartOf(k) + o >= LAST then LAST else StartOf(k) + o + 1;
      && v < Value(i) && Value(i - 1) <= v + 3
      && (i < LAST ==> Value(i) <= v + v / 3 + 4 && v - Value(i - 1) <= v / 3 + 4)
  {
    SmallProducts(Delta(k));
    assert Delta(k + 1) == 4 * Delta(k) + 1;
    if k == 30 {
      TopPower(); LastValue();
      if o + 1 == Width(k) { ValueInBlock(30, 8); }
    } else {
      if k == 1 { assert Delta(1) == 1; }
      ValueInBlock(k + 1, 0);
      SmallProducts(Delta(k + 1));
      if o + 1 == Width(k) { AtEdge(v, k, o); } else { PastEdge(v, k, o); }
    }
  }

  lemma AtEdge(v: int, k: nat, o: nat)
    requires At(v, k, o) && k < 30 && o + 1 == Width(k)
    ensures var i := StartOf(k) + o + 1;
      i < LAST && v < Value(i) <= v + v / 3 + 4 && Value(i - 1) <= v && v - Value(i - 1) <= v / 3 + 4
  {
    var next := k + 1;
    assert StartOf(k) + o + 1 == StartOf(next) + 0;
    assert Value(StartOf(next) + 0) == Pow4(next) by { ValueInBlock(next, 0); SmallProducts(Delta(next)); }
    ValueInBlock(k, o);
    AtEdgeNear(v, k, o);
  }

  lemma AtEdgeNear(v: int, k: nat, o: nat)
    requires At(v, k, o) && k < 30 && o + 1 == Width(k)
    ensures Pow4(k + 1) <= v + v / 3 + 4
    ensures 0 <= v - (Pow4(k) + Times(o, Delta(k))) <= v / 3 + 4
  {
    SmallProducts(Delta(k));
    assert Delta(k + 1) == 4 * Delta(k) + 1;
    if k == 1 { assert Delta(1) == 1; }
  }

  /** The last three values under a power of four go one bucket up. */
  lemma PastEdge(v: int, k: nat, o: nat)
    requires At(v, k, o) && k < 30 && o == Width(k)
    ensures var i := StartOf(k) + o + 1;
      i < LAST && v < Value(i) <= v + v / 3 + 4 && Value(i - 1) == Pow4(k + 1) <= v + 3
  {
    var next := k + 1;
    assert StartOf(k) + o == StartOf(next) + 0 && StartOf(k) + o + 1 == StartOf(next) + 1;
    assert Value(StartOf(next) + 0) == Pow4(next) by { ValueInBlock(next, 0); SmallProducts(Delta(next)); }
    assert Value(StartOf(next) + 1) == Pow4(next) + Delta(next) by {
      ValueInBlock(next, 1); SmallProducts(Delta(next));
    }
    assert StartOf(next) + 1 < LAST by { ValueInBlock(next, 1); }
    PastEdgeNear(v, k, o);
  }

  lemma PastEdgeNear(v: int, k: nat, o: nat)
    requires At(v, k, o) && k < 30 && o == Width(k)
    ensures Pow4(k + 1) <= v + 3 && Pow4(k + 1) + Delta(k + 1) <= v + v / 3 + 4
  {
    SmallProducts(Delta(k));
    assert Delta(k + 1) == 4 * Delta(k) + 1;
    if k == 1 { assert Delta(1) == 1; }
  }

  lemma LastValue()
    ensures Value(LAST - 1) <= Pow4(31)
  {
    ValueInBlock(30, 8);
    SmallProducts(Delta(30));
    assert Delta(31) == 4 * Delta(30) + 1;
  }

  /** 15, or one of the last three values under a power of four (64 to 4^30). */
  ghost predicate Overshoots(v: int) {
    v == 15 || exists k: nat :: 3 <= k <= 30 && Pow4(k) - 3 <= v < Pow4(k)
  }

  /** Exactly when a value lands above the bucket it belongs to. */
  lemma OvershootsIff(v: int)
    requires 1 <= v <= INT64_MAX
    ensures IndexOf(v) >= 1
    ensures Value(IndexOf(v) - 1) > v <==> Overshoots(v)
  {
    if v <= 4 {
      SmallValues(v);
    } else {
      var k, o := IndexShape(v);
      OvershootBlock(v, k, o);
      PreviousValue(v, k, o);
    }
  }

  lemma PreviousValue(v: int, k: nat, o: nat)
    requires At(v, k, o)
    ensures var i := if StartOf(k) + o >= LAST then LAST else StartOf(k) + o + 1;
      Value(i - 1) > v <==> k < 30 && o == Width(k)
  {
    if k == 31 || o + 1 < Width(k) {
      InBlockBelow(v, k, o);
    } else if k == 30 {
      LastBlockBelow(v, o);
    } else if o + 1 == Width(k) {
      AtEdge(v, k, o);
    } else {
      PastEdge(v, k, o);
    }
  }

  lemma SmallValues(v: int)
    requires 1 <= v <= 4
    ensures Value(v - 1) == v && !Overshoots(v)
  {
    SmallProducts(1);
    assert Delta(1) == 1;
    ValueInBlock(1, 0);
    forall k: nat | 3 <= k ensures Pow4(k) - 3 > v { DeltaGrows(3, k); assert Delta(3) == 21; }
  }

  lemma InBlockBelow(v: int, k: nat, o: nat)
    requires At(v, k, o) && (k == 31 || o + 1 < Width(k))
    ensures var i := if StartOf(k) + o >= LAST then LAST else StartOf(k) + o + 1;
      Value(i - 1) <= v
  {
    if k == 31 { LastValue(); } else { ValueInBlock(k, o); ValueInBlock(k, o + 1); }
  }

  lemma LastBlockBelow(v: int, o: nat)
    requires At(v, 30, o) && o + 1 >= Width(30)
    ensures StartOf(30) + o + 1 >= LAST && Value(LAST - 1) <= v
  {
    TimesMonotone(8, o, Delta(30));
    ValueInBlock(30, 8);
  }

  /** In block terms, overshooting is being past the last value of a block that has a successor. */
  lemma OvershootBlock(v: int, k: nat, o: nat)
    requires At(v, k, o)
    ensures Overshoots(v) <==> k < 30 && o == Width(k)
  {
    SmallProducts(Delta(k));
    assert Delta(k + 1) == 4 * Delta(k) + 1;
    if k == 1 {
      assert Delta(1) == 1 && Delta(2) == 5;
      TimesIsProduct(o, 1);
      forall j: nat | 3 <= j ensures Pow4(j) - 3 > v { DeltaGrows(3, j); assert Delta(3) == 21; }
    } else {
      DeltaGrows(2, k); assert Delta(2) == 5;
      if o == 9 && k < 30 {
        assert Pow4(k + 1) - 3 <= v < Pow4(k + 1);
      }
      if j: nat :| 3 <= j <= 30 && Pow4(j) - 3 <= v < Pow4(j) {
        if j <= k { DeltaGrows(j, k); }
        assert Delta(k + 2) == 4 * Delta(k + 1) + 1;
        if j >= k + 2 { DeltaGrows(k + 2, j); }
        assert j == k + 1;
        if o <= 8 { TimesMonotone(o, 8, Delta(k)); }
      }
    }
  }

  lemma IndexOfMonotone(v: int, w: int)
    requires INT64_MIN <= v <= w <= INT64_MAX
    ensures IndexOf(v) <= IndexOf(w)
  {
    if w > 4 {
      var kw, ow := IndexShape(w);
      if v > 4 {
        var kv, ov := IndexShape(v);
        if kv == kw {
          QuotientMonotone(v - Pow4(kv), w - Pow4(kv), Delta(kv));
        } else if kv > kw {
          DeltaGrows(kw + 1, kv);
        }
      }
    }
  }
}
