/** The baseline estimator and the deviation test (internal/kliq/baseline/baseline.go), over the reals. */
module Baseline {
  import opened Basics

  type Samples = seq<real>

  function Abs(x: real): real { if x < 0.0 then -x else x }

  // ---------------------------------------------------------------- sorting

  predicate Ascending(s: Samples) {
    |s| <= 1 || (s[0] <= s[1] && Ascending(s[1..]))
  }

  function Insert(x: real, s: Samples): Samples {
    if s == [] || x <= s[0] then [x] + s else [s[0]] + Insert(x, s[1..])
  }

  /** sort.Float64s, as the ascending rearrangement. */
  function Sort(s: Samples): Samples {
    if s == [] then [] else Insert(s[0], Sort(s[1..]))
  }

  lemma {:induction false} InsertSorts(x: real, s: Samples)
    requires Ascending(s)
    ensures Ascending(Insert(x, s)) && |Insert(x, s)| == |s| + 1
    ensures Insert(x, s)[0] == if s == [] || x <= s[0] then x else s[0]
  {
    if s == [] || x <= s[0] {
      assert ([x] + s)[1..] == s;
    } else {
      InsertSorts(x, s[1..]);
      assert Insert(x, s)[1..] == Insert(x, s[1..]);
    }
  }

  lemma {:induction false} InsertBag(x: real, s: Samples)
    ensures multiset(Insert(x, s)) == multiset{x} + multiset(s)
  {
    if s != [] && x > s[0] {
      InsertBag(x, s[1..]);
      assert s == [s[0]] + s[1..];
      assert multiset(s) == multiset{s[0]} + multiset(s[1..]);
    }
  }

  /** The sorted list is ascending and holds the same samples. */
  lemma {:induction false} SortSorts(s: Samples)
    ensures Ascending(Sort(s)) && |Sort(s)| == |s| && multiset(Sort(s)) == multiset(s)
  {
    if s != [] {
      SortSorts(s[1..]);
      InsertSorts(s[0], Sort(s[1..]));
      InsertBag(s[0], Sort(s[1..]));
      assert s == [s[0]] + s[1..];
    }
  }

  lemma {:induction false} AscendingAt(s: Samples, i: nat, j: nat)
    requires Ascending(s) && i <= j < |s|
    ensures s[i] <= s[j]
  {
    if i > 0 {
      AscendingAt(s[1..], i - 1, j - 1);
    } else if j > 0 {
      AscendingAt(s[1..], 0, j - 1);
    }
  }

  /** An ascending list is determined by its elements. */
  lemma {:induction false} AscendingUnique(a: Samples, b: Samples)
    requires Ascending(a) && Ascending(b) && multiset(a) == multiset(b)
    ensures a == b
  {
    hide Ascending;
    assert |a| == |multiset(a)| == |multiset(b)| == |b|;
    if a != [] {
      HeadLeast(a, b[0]);
      HeadLeast(b, a[0]);
      TailBag(a);
      TailBag(b);
      AscendingUnique(a[1..], b[1..]);
      assert a == [a[0]] + a[1..] && b == [b[0]] + b[1..];
    }
  }

  lemma {:induction false} HeadLeast(s: Samples, y: real)
    requires Ascending(s) && s != []
    ensures y in multiset(s) ==> s[0] <= y
    ensures s[0] in multiset(s)
  {
    if y in multiset(s) {
      var j :| 0 <= j < |s| && s[j] == y;
      AscendingAt(s, 0, j);
    }
  }

  lemma {:induction false} TailBag(s: Samples)
    requires s != [] && Ascending(s)
    ensures multiset(s[1..]) == multiset(s) - multiset{s[0]} && Ascending(s[1..])
  {
    assert s == [s[0]] + s[1..];
  }

  // ---------------------------------------------------------------- the estimator

  function Median(v: Samples): real {
    if v == [] then 0.0
    else
      var mid := |v| / 2;
      if |v| % 2 == 1 then v[mid] else (v[mid - 1] + v[mid]) / 2.0
  }

  function Deviations(v: Samples, center: real): (d: Samples)
    ensures |d| == |v| && forall i :: 0 <= i < |v| ==> d[i] == Abs(v[i] - center)
  {
    seq(|v|, i requires 0 <= i < |v| => Abs(v[i] - center))
  }

  datatype Estimate = Estimate(center: real, spread: real)

  function DefaultMinimum(minSamples: int): int { if minSamples == 0 then 5 else minSamples }

  /** MedianMADEstimator.Estimate: the deviations are taken in the order of the sorted samples and not sorted again. */
  function EstimateOf(minSamples: int, samples: Samples): Option<Estimate> {
    if |samples| < DefaultMinimum(minSamples) then None
    else
      var values := Sort(samples);
      var center := Median(values);
      var spread := Median(Deviations(values, center));
      Some(Estimate(center, if spread == 0.0 then 1.0 else spread))
  }

  method ComputeEstimate(minSamples: int, samples: Samples) returns (e: Option<Estimate>)
    ensures e == EstimateOf(minSamples, samples)
  {
    if |samples| < DefaultMinimum(minSamples) { return None; }
    var values := Sort(samples);
    var center := Median(values);
    var deviations: Samples := [];
    for i := 0 to |values|
      invariant deviations == Deviations(values[..i], center)
    {
      deviations := deviations + [Abs(values[i] - center)];
      assert deviations == Deviations(values[..i + 1], center);
    }
    assert values[..|values|] == values;
    var spread := Median(deviations);
    if spread == 0.0 {
      spread := 1.0;
    }
    return Some(Estimate(center, spread));
  }

  /** The estimate depends only on which samples there are, not on their order. */
  lemma {:induction false} EstimateOfBag(minSamples: int, a: Samples, b: Samples)
    requires multiset(a) == multiset(b)
    ensures EstimateOf(minSamples, a) == EstimateOf(minSamples, b)
  {
    assert |a| == |multiset(a)| == |multiset(b)| == |b|;
    SortSorts(a);
    SortSorts(b);
    AscendingUnique(Sort(a), Sort(b));
  }

  /** The exact spread: 1 for an odd number of samples; for an even number half the gap between the two middle samples,
      or 1 when they are equal. */
  lemma {:induction false} SpreadExact(minSamples: int, samples: Samples)
    requires samples != [] && EstimateOf(minSamples, samples).Some?
    ensures
      var v := Sort(samples);
      |v| == |samples| &&
      var gap := if |v| % 2 == 1 then 0.0 else v[|v| / 2] - v[|v| / 2 - 1];
      EstimateOf(minSamples, samples).value.spread == if gap == 0.0 then 1.0 else gap / 2.0
  {
    hide Sort, Median, Deviations, Ascending;
    SortSorts(samples);
    MiddleDeviation(Sort(samples));
  }

  /** The middle of the deviations, taken in sample order: nothing, or half the gap around the center. */
  lemma {:induction false} MiddleDeviation(v: Samples)
    requires v != [] && Ascending(v)
    ensures Median(Deviations(v, Median(v))) == if |v| % 2 == 1 then 0.0 else (v[|v| / 2] - v[|v| / 2 - 1]) / 2.0
  {
    hide Ascending;
    var d, mid := Deviations(v, Median(v)), |v| / 2;
    if |v| % 2 == 1 {
      assert d[mid] == 0.0;
    } else {
      AscendingAt(v, mid - 1, mid);
      assert d[mid - 1] == d[mid] == (v[mid] - v[mid - 1]) / 2.0;
    }
  }

  /** An estimate is made exactly from the minimal number of samples on, five unless another is given. */
  lemma {:induction false} EstimatedIff(minSamples: int, samples: Samples)
    ensures EstimateOf(minSamples, samples).Some? <==> |samples| >= if minSamples == 0 then 5 else minSamples
  {
  }

  /** The spread is always positive. */
  lemma {:induction false} SpreadPositive(minSamples: int, samples: Samples)
    requires EstimateOf(minSamples, samples).Some?
    ensures EstimateOf(minSamples, samples).value.spread > 0.0
  {
  }

  function CountAtMost(s: Samples, c: real): nat {
    if s == [] then 0 else (if s[0] <= c then 1 else 0) + CountAtMost(s[1..], c)
  }

  function CountAtLeast(s: Samples, c: real): nat {
    if s == [] then 0 else (if s[0] >= c then 1 else 0) + CountAtLeast(s[1..], c)
  }

  lemma {:induction false} InsertCounts(x: real, s: Samples, c: real)
    ensures CountAtMost(Insert(x, s), c) == (if x <= c then 1 else 0) + CountAtMost(s, c)
    ensures CountAtLeast(Insert(x, s), c) == (if x >= c then 1 else 0) + CountAtLeast(s, c)
  {
    if s == [] || x <= s[0] {
      assert ([x] + s)[1..] == s;
    } else {
      InsertCounts(x, s[1..], c);
      assert Insert(x, s)[1..] == Insert(x, s[1..]);
    }
  }

  lemma {:induction false} SortCounts(s: Samples, c: real)
    ensures CountAtMost(Sort(s), c) == CountAtMost(s, c) && CountAtLeast(Sort(s), c) == CountAtLeast(s, c)
  {
    if s != [] {
      SortCounts(s[1..], c);
      InsertCounts(s[0], Sort(s[1..]), c);
    }
  }

  /** In an ascending list, an element at least `c` at position `k` leaves |v| - k elements at or above it. */
  lemma {:induction false} AscendingCounts(v: Samples, c: real, k: nat)
    requires Ascending(v) && k < |v|
    ensures v[k] <= c ==> CountAtMost(v, c) >= k + 1
    ensures v[k] >= c ==> CountAtLeast(v, c) >= |v| - k
  {
    if k > 0 {
      AscendingAt(v, 0, k);
      AscendingCounts(v[1..], c, k - 1);
    } else if v[0] >= c && |v| > 1 {
      AscendingCounts(v[1..], c, 0);
    }
  }

  /** The center is a median: at least half of the samples lie on each side of it. */
  lemma {:induction false} CenterSplitsSamples(minSamples: int, samples: Samples)
    requires samples != [] && EstimateOf(minSamples, samples).Some?
    ensures
      var c := EstimateOf(minSamples, samples).value.center;
      2 * CountAtMost(samples, c) >= |samples| && 2 * CountAtLeast(samples, c) >= |samples|
  {
    SortSorts(samples);
    var v := Sort(samples);
    var c := Median(v);
    SortCounts(samples, c);
    var mid := |v| / 2;
    if |v| % 2 == 1 {
      AscendingCounts(v, c, mid);
    } else {
      AscendingAt(v, mid - 1, mid);
      AscendingCounts(v, c, mid - 1);
      AscendingCounts(v, c, mid);
    }
  }

  function Shift(s: Samples, delta: real): (r: Samples)
    ensures |r| == |s| && forall i :: 0 <= i < |s| ==> r[i] == s[i] + delta
  {
    seq(|s|, i requires 0 <= i < |s| => s[i] + delta)
  }

  lemma {:induction false} ShiftParts(s: Samples, delta: real)
    requires s != []
    ensures Shift(s, delta) == [s[0] + delta] + Shift(s[1..], delta)
  {
  }

  lemma {:induction false} InsertShift(x: real, s: Samples, delta: real)
    ensures Insert(x + delta, Shift(s, delta)) == Shift(Insert(x, s), delta)
  {
    if s != [] {
      ShiftParts(s, delta);
      assert Shift(s, delta)[1..] == Shift(s[1..], delta);
    }
    hide Shift;
    ShiftParts(Insert(x, s), delta);
    if s != [] && x > s[0] {
      InsertShift(x, s[1..], delta);
      assert Insert(x, s)[1..] == Insert(x, s[1..]);
    } else {
      assert Insert(x, s)[1..] == s;
    }
  }

  lemma {:induction false} SortShift(s: Samples, delta: real)
    ensures Sort(Shift(s, delta)) == Shift(Sort(s), delta)
  {
    if s != [] {
      SortShift(s[1..], delta);
      assert Shift(s, delta)[1..] == Shift(s[1..], delta);
      InsertShift(s[0], Sort(s[1..]), delta);
    }
  }

  lemma {:induction false} MedianShift(v: Samples, delta: real)
    requires v != []
    ensures Median(Shift(v, delta)) == Median(v) + delta
    ensures Deviations(Shift(v, delta), Median(v) + delta) == Deviations(v, Median(v))
  {
  }

  /** Moving every sample moves the center along and keeps the spread. */
  lemma {:induction false} ShiftMovesCenter(minSamples: int, samples: Samples, delta: real)
    requires samples != [] && EstimateOf(minSamples, samples).Some?
    ensures
      var e := EstimateOf(minSamples, samples).value;
      EstimateOf(minSamples, Shift(samples, delta)) == Some(Estimate(e.center + delta, e.spread))
  {
    hide Sort, Median, Deviations, Shift;
    SortSorts(samples);
    SortShift(samples, delta);
    MedianShift(Sort(samples), delta);
  }

  // ---------------------------------------------------------------- the median absolute deviation

  /** The median absolute deviation that the estimator is named after, for ascending samples. */
  function TrueMad(v: Samples): real {
    Median(Sort(Deviations(v, Median(v))))
  }

  /** The estimator reports 1 in the place of a spread of zero. */
  function Reported(spread: real): real {
    if spread == 0.0 then 1.0 else spread
  }

  /** The spread is not always the median absolute deviation: for 0, 10, 30 it is 1 where the deviations have median 10. */
  lemma {:induction false} NotMedianAbsoluteDeviation()
    ensures
      var s := [0.0, 10.0, 30.0];
      EstimateOf(3, s) == Some(Estimate(10.0, 1.0)) && TrueMad(Sort(s)) == 10.0
  {
  }

  /** By counting alone: `x` is the k-th smallest element, from 0. */
  predicate AtRank(s: Samples, k: nat, x: real) {
    CountAtMost(s, x) >= k + 1 && CountAtLeast(s, x) >= |s| - k
  }

  /** The two middle elements are `x` and what is missing to 2. */
  predicate MiddlesSumToTwo(s: Samples, x: real)
    requires |s| >= 2
  {
    AtRank(s, |s| / 2 - 1, x) && AtRank(s, |s| / 2, 2.0 - x)
  }

  lemma {:induction false} CountsBounded(v: Samples, x: real)
    ensures CountAtMost(v, x) <= |v| && CountAtLeast(v, x) <= |v|
  {
    if v != [] {
      CountsBounded(v[1..], x);
    }
  }

  lemma {:induction false} AscendingCountsBelow(v: Samples, x: real, k: nat)
    requires Ascending(v) && k < |v|
    ensures v[k] > x ==> CountAtMost(v, x) <= k
    ensures v[k] < x ==> CountAtLeast(v, x) <= |v| - 1 - k
  {
    CountsBounded(v[1..], x);
    if k > 0 {
      AscendingAt(v, 0, k);
      AscendingCountsBelow(v[1..], x, k - 1);
    } else if |v| > 1 {
      AscendingCountsBelow(v[1..], x, 0);
    }
  }

  /** Sorting puts at place k exactly the element that counting finds there. */
  lemma {:induction false} RankIff(s: Samples, k: nat, x: real)
    requires k < |s|
    ensures |Sort(s)| == |s|
    ensures Sort(s)[k] == x <==> AtRank(s, k, x)
    ensures Sort(s)[k] <= x <==> CountAtMost(s, x) >= k + 1
  {
    hide Sort, Ascending;
    SortSorts(s);
    SortCounts(s, x);
    AscendingCounts(Sort(s), x, k);
    AscendingCountsBelow(Sort(s), x, k);
  }

  /** Half the gap between the middle samples of an even number of them. */
  function HalfGap(v: Samples): real
    requires v != [] && |v| % 2 == 0
  {
    (v[|v| / 2] - v[|v| / 2 - 1]) / 2.0
  }

  /** No sample is nearer to the center than the two in the middle. */
  lemma {:induction false} MiddleIsNearest(v: Samples)
    requires v != [] && Ascending(v) && |v| % 2 == 0
    ensures |Sort(Deviations(v, Median(v)))| == |v|
    ensures forall i :: 0 <= i < |v| ==> Sort(Deviations(v, Median(v)))[i] >= HalfGap(v) >= 0.0
  {
    hide Sort, Ascending;
    var c, mid := Median(v), |v| / 2;
    var d := Deviations(v, c);
    SortSorts(d);
    AscendingAt(v, mid - 1, mid);
    forall j | 0 <= j < |v|
      ensures d[j] >= HalfGap(v)
    {
      if j < mid { AscendingAt(v, j, mid - 1); } else { AscendingAt(v, mid, j); }
    }
    forall i | 0 <= i < |v|
      ensures Sort(d)[i] >= HalfGap(v)
    {
      assert Sort(d)[i] in multiset(Sort(d));
      var j :| 0 <= j < |d| && d[j] == Sort(d)[i];
    }
  }

  /** Exactly when the spread is the reported median absolute deviation, by counting distances from the center. For an
      even number of samples: more than half of them lie at the least distance, half the gap in the middle; or that gap is
      zero and the two middle distances sum to 2. For an odd number: more than half of them lie at the center, or the
      middle distance is 1. */
  lemma {:induction false} SpreadIsMadIff(minSamples: int, samples: Samples)
    requires samples != [] && EstimateOf(minSamples, samples).Some?
    ensures
      var v := Sort(samples);
      |v| == |samples| &&
      var d, mid := Deviations(v, Median(v)), |v| / 2;
      EstimateOf(minSamples, samples).value.spread == Reported(TrueMad(v))
      <==> if |v| % 2 == 1 then CountAtMost(d, 0.0) >= mid + 1 || AtRank(d, mid, 1.0)
           else || CountAtMost(d, HalfGap(v)) >= mid + 1
                || (HalfGap(v) == 0.0 && exists x :: MiddlesSumToTwo(d, x))
  {
    hide Sort, Ascending, Median, Deviations, EstimateOf, AtRank, MiddlesSumToTwo;
    SortSorts(samples);
    SpreadExact(minSamples, samples);
    var v := Sort(samples);
    if |v| % 2 == 1 {
      OddMadIff(v);
    } else {
      EvenMadIff(v);
    }
  }

  lemma {:induction false} OddMadIff(v: Samples)
    requires v != [] && |v| % 2 == 1
    ensures var d := Deviations(v, Median(v));
            Reported(TrueMad(v)) == 1.0 <==> CountAtMost(d, 0.0) >= |v| / 2 + 1 || AtRank(d, |v| / 2, 1.0)
  {
    hide Sort, AtRank, CountAtMost;
    var d, mid := Deviations(v, Median(v)), |v| / 2;
    RankIff(d, mid, 0.0);
    RankIff(d, mid, 1.0);
    assert Sort(d)[mid] >= 0.0 by { SortedFromBag(d, mid); }
  }

  lemma {:induction false} SortedFromBag(d: Samples, i: nat)
    requires i < |d| && forall j :: 0 <= j < |d| ==> d[j] >= 0.0
    ensures |Sort(d)| == |d| && Sort(d)[i] >= 0.0
  {
    hide Sort;
    SortSorts(d);
    assert Sort(d)[i] in multiset(Sort(d));
    var j :| 0 <= j < |d| && d[j] == Sort(d)[i];
  }

  lemma {:induction false} EvenMadIff(v: Samples)
    requires v != [] && Ascending(v) && |v| % 2 == 0
    ensures var d, mid, half := Deviations(v, Median(v)), |v| / 2, HalfGap(v);
            Reported(half) == Reported(TrueMad(v))
            <==> || CountAtMost(d, half) >= mid + 1
                 || (half == 0.0 && exists x :: MiddlesSumToTwo(d, x))
  {
    hide Sort, AtRank, CountAtMost, Ascending, Deviations;
    var d, mid, half := Deviations(v, Median(v)), |v| / 2, HalfGap(v);
    var w := Sort(d);
    MiddleIsNearest(v);
    RankIff(d, mid, half);
    assert TrueMad(v) == (w[mid - 1] + w[mid]) / 2.0;
    assert w[mid - 1] <= w[mid] by { SortSorts(d); AscendingAt(w, mid - 1, mid); }
    forall x
      ensures MiddlesSumToTwo(d, x) <==> w[mid - 1] == x && w[mid] == 2.0 - x
    {
      RankIff(d, mid - 1, x);
      RankIff(d, mid, 2.0 - x);
    }
    assert TrueMad(v) == 1.0 <==> MiddlesSumToTwo(d, w[mid - 1]);
  }

  // ---------------------------------------------------------------- the deviation test

  /** EvaluateSample: the score of a sample that deviates by at least three spreads. */
  function EvaluateSample(value: real, e: Estimate): Option<real> {
    var spread := if e.spread <= 0.0 then 1.0 else e.spread;
    var score := Abs(value - e.center) / spread;
    if score < 3.0 then None else Some(score)
  }

  /** A sample deviates exactly when it lies at least three spreads from the center, and its score counts the spreads; a
      spread that is not positive counts as 1. */
  lemma {:induction false} DeviatesIff(value: real, e: Estimate)
    ensures var spread := if e.spread > 0.0 then e.spread else 1.0;
            && (EvaluateSample(value, e).Some? <==> Abs(value - e.center) >= 3.0 * spread)
            && (EvaluateSample(value, e).Some? ==> EvaluateSample(value, e).value * spread == Abs(value - e.center))
  {
    var spread := if e.spread > 0.0 then e.spread else 1.0;
    var distance := Abs(value - e.center);
    assert distance / spread * spread == distance;
    QuotientAtLeast(distance, spread, 3.0);
  }

  lemma {:induction false} QuotientAtLeast(x: real, y: real, k: real)
    requires y > 0.0
    ensures x / y >= k <==> x >= k * y
  {
    var q := x / y;
    assert q * y == x;
    if q >= k {
      assert (q - k) * y >= 0.0;
    } else {
      assert (k - q) * y > 0.0;
    }
  }

  /** Against a baseline learned from an odd number of samples, a sample deviates exactly when it lies at least 3 away
      from the median, however wide the samples were spread. */
  lemma {:induction false} OddBaselineIgnoresScale(minSamples: int, samples: Samples, value: real)
    requires |samples| % 2 == 1 && EstimateOf(minSamples, samples).Some?
    ensures EvaluateSample(value, EstimateOf(minSamples, samples).value).Some?
            <==> Abs(value - Median(Sort(samples))) >= 3.0
  {
    hide Sort, EvaluateSample, EstimateOf, Abs, Median;
    OddEstimate(minSamples, samples);
    UnitSpread(value, EstimateOf(minSamples, samples).value);
  }

  lemma {:induction false} OddEstimate(minSamples: int, samples: Samples)
    requires |samples| % 2 == 1 && EstimateOf(minSamples, samples).Some?
    ensures Sort(samples) != [] && EstimateOf(minSamples, samples).value == Estimate(Median(Sort(samples)), 1.0)
  {
    hide Sort;
    SortSorts(samples);
    SpreadExact(minSamples, samples);
  }

  lemma {:induction false} UnitSpread(value: real, e: Estimate)
    requires e.spread == 1.0
    ensures EvaluateSample(value, e).Some? <==> Abs(value - e.center) >= 3.0
  {
  }
}
