/** Baseline statistics of a metric: mean, population standard deviation, minimum and maximum, rounded to cents. */
module Baseline {
  import opened Sequences
  import opened Rounding
  import opened Samples

  datatype Baseline = Baseline(metricName: string, mean: real, stdDev: real, min: real, max: real, sampleSize: nat)

  function MinOf(xs: seq<real>): real
    requires xs != []
  {
    if |xs| == 1 then xs[0]
    else
      var m := MinOf(Init(xs));
      if Last(xs) < m then Last(xs) else m
  }

  function MaxOf(xs: seq<real>): real
    requires xs != []
  {
    if |xs| == 1 then xs[0]
    else
      var m := MaxOf(Init(xs));
      if Last(xs) > m then Last(xs) else m
  }

  /** They are the least and the greatest member. */
  lemma {:induction false} ExtremesBound(xs: seq<real>)
    requires xs != []
    ensures MinOf(xs) in xs && MaxOf(xs) in xs
    ensures forall i :: 0 <= i < |xs| ==> MinOf(xs) <= xs[i] <= MaxOf(xs)
  {
    if |xs| > 1 {
      ExtremesBound(Init(xs));
    }
  }

  /** round(sqrt(v)) without the root: the least k whose upper half-way point squares to more than v. */
  function RootFrom(v: real, k: nat): (r: nat)
    requires v >= 0.0
    requires k > 0 ==> Square(k as real - 0.5) <= v
    ensures v < Square(r as real + 0.5) && (r > 0 ==> Square(r as real - 0.5) <= v)
    decreases v.Floor + 1 - k
  {
    if v < Square(k as real + 0.5) then k
    else
      RootBounded(v, k);
      RootFrom(v, k + 1)
  }

  lemma RootBounded(v: real, k: nat)
    requires Square(k as real + 0.5) <= v
    ensures k <= v.Floor
  {
    assert Square(k as real + 0.5) == Square(k as real) + k as real + 0.25;
    SquareNonNegative(k as real);
  }

  /** The square root of a variance, rounded to cents. */
  function RoundedRoot(variance: real): real
    requires variance >= 0.0
  {
    RootFrom(variance * 10000.0, 0) as real / 100.0
  }

  function Variance(xs: seq<real>): (v: real)
    requires xs != []
    ensures v >= 0.0
  {
    SumSqDevNonNegative(xs, Mean(xs));
    SumSqDev(xs, Mean(xs)) / |xs| as real
  }

  function Stats(name: string, xs: seq<real>): Baseline {
    if xs == [] then Baseline(name, 0.0, 0.0, 0.0, 0.0, 0)
    else Baseline(name, Cents(Mean(xs)), if |xs| > 1 then RoundedRoot(Variance(xs)) else 0.0,
                  Cents(MinOf(xs)), Cents(MaxOf(xs)), |xs|)
  }

  method Total(values: seq<real>) returns (sum: real)
    ensures sum == Sum(values)
  {
    sum := 0.0;
    for i := 0 to |values|
      invariant sum == Sum(values[..i])
    {
      sum := sum + values[i];
      assert Init(values[..i + 1]) == values[..i];
    }
    assert values[..|values|] == values;
  }

  lemma ExtremesOneMore(xs: seq<real>, x: real)
    requires xs != []
    ensures MinOf(xs + [x]) == if x < MinOf(xs) then x else MinOf(xs)
    ensures MaxOf(xs + [x]) == if x > MaxOf(xs) then x else MaxOf(xs)
  {
    assert Init(xs + [x]) == xs;
  }

  method Extremes(values: seq<real>) returns (minVal: real, maxVal: real)
    requires values != []
    ensures minVal == MinOf(values) && maxVal == MaxOf(values)
  {
    minVal, maxVal := values[0], values[0];
    assert MinOf(values[..1]) == MaxOf(values[..1]) == values[0];
    hide MinOf, MaxOf;
    for i := 1 to |values|
      invariant minVal == MinOf(values[..i]) && maxVal == MaxOf(values[..i])
    {
      ExtremesOneMore(values[..i], values[i]);
      assert values[..i + 1] == values[..i] + [values[i]];
      if values[i] < minVal {
        minVal := values[i];
      }
      if values[i] > maxVal {
        maxVal := values[i];
      }
    }
    assert values[..|values|] == values;
  }

  method SumSquaredDiffs(values: seq<real>, mean: real) returns (sumSqDiff: real)
    ensures sumSqDiff == SumSqDev(values, mean)
  {
    sumSqDiff := 0.0;
    for i := 0 to |values|
      invariant sumSqDiff == SumSqDev(values[..i], mean)
    {
      var diff := values[i] - mean;
      SumSqDevOneMore(values[..i + 1], mean);
      assert Init(values[..i + 1]) == values[..i];
      sumSqDiff := sumSqDiff + diff * diff;
    }
    assert values[..|values|] == values;
  }

  method ComputeStats(name: string, values: seq<real>) returns (b: Baseline)
    ensures b == Stats(name, values)
  {
    b := Baseline(name, 0.0, 0.0, 0.0, 0.0, |values|);
    if |values| == 0 {
      return;
    }
    hide Cents, RoundedRoot, Sum, SumSqDev;
    var sum := Total(values);
    var mean := sum / |values| as real;
    var minVal, maxVal := Extremes(values);
    var stdDev := 0.0;
    if |values| > 1 {
      var sumSqDiff := SumSquaredDiffs(values, mean);
      SumSqDevNonNegative(values, mean);
      stdDev := RoundedRoot(sumSqDiff / |values| as real);
    }
    b := Baseline(name, Cents(mean), stdDev, Cents(minVal), Cents(maxVal), |values|);
  }

  /** Rounded minimum, mean and maximum are in order. */
  lemma {:induction false} RoundedInOrder(name: string, xs: seq<real>)
    requires xs != []
    ensures var b := Stats(name, xs); b.min <= b.mean <= b.max
  {
    hide MinOf, MaxOf, Mean;
    ExtremesBound(xs);
    MeanWithin(xs, MinOf(xs), MaxOf(xs));
    CentsMonotone(MinOf(xs), Mean(xs));
    CentsMonotone(Mean(xs), MaxOf(xs));
    hide Cents;
  }

  /** The variance is at most (max - mean)(mean - min), which is at most ((max - min) / 2)^2. */
  lemma {:induction false} VarianceBound(xs: seq<real>)
    requires xs != []
    ensures var lo, m, hi := MinOf(xs), Mean(xs), MaxOf(xs);
            Variance(xs) <= ChordGap(m, lo, hi) <= Square((hi - lo) / 2.0)
  {
    hide SumSqDev, Mean, Square, ChordGap, MinOf, MaxOf;
    var lo, m, hi := MinOf(xs), Mean(xs), MaxOf(xs);
    SpreadOfSample(xs);
    SumSqDevNonNegative(xs, m);
    var s, n := SumSqDev(xs, m), |xs| as real;
    assert Variance(xs) == s / n;
    hide Variance;
    DividedBound(s, n, ChordGap(m, lo, hi));
  }

  lemma {:induction false} SpreadOfSample(xs: seq<real>)
    requires xs != []
    ensures var lo, m, hi := MinOf(xs), Mean(xs), MaxOf(xs);
            SumSqDev(xs, m) <= |xs| as real * ChordGap(m, lo, hi) && ChordGap(m, lo, hi) <= Square((hi - lo) / 2.0)
  {
    hide SumSqDev, Mean, Square, ChordGap, MinOf, MaxOf;
    ExtremesBound(xs);
    SpreadBound(xs, MinOf(xs), MaxOf(xs));
  }

  lemma DividedBound(s: real, n: real, p: real)
    requires n > 0.0 && s <= n * p
    ensures s / n <= p
  {
    var q := s / n;
    assert n * (p - q) == n * p - s;
    PositiveFactor(n, p - q);
  }

  lemma SquareMonotone(x: real, y: real)
    requires 0.0 <= x <= y
    ensures Square(x) <= Square(y)
  {
  }

  /** The reported deviation is the rounded root, nothing else: within half a cent of the true one. */
  lemma StdDevNearRoot(name: string, xs: seq<real>)
    requires |xs| > 1
    ensures var s := Stats(name, xs).stdDev;
            && Variance(xs) * 10000.0 < Square(s * 100.0 + 0.5)
            && (s > 0.0 ==> Square(s * 100.0 - 0.5) <= Variance(xs) * 10000.0)
  {
    var r := RootFrom(Variance(xs) * 10000.0, 0);
    assert Stats(name, xs).stdDev * 100.0 == r as real;
  }

  /** The reported deviation is at most the rounded half range. */
  lemma {:induction false} StdDevWithinHalfRange(name: string, xs: seq<real>)
    requires |xs| > 1
    ensures Stats(name, xs).stdDev <= Cents((MaxOf(xs) - MinOf(xs)) / 2.0)
  {
    hide Variance, Mean, Cents, Square, RoundedRoot, ChordGap, MinOf, MaxOf;
    ExtremesBound(xs);
    var v, half := Variance(xs), (MaxOf(xs) - MinOf(xs)) / 2.0;
    VarianceBound(xs);
    MeanWithin(xs, MinOf(xs), MaxOf(xs));
    RootWithin(v, half);
  }

  lemma RootWithin(v: real, half: real)
    requires 0.0 <= v <= Square(half) && half >= 0.0
    ensures RoundedRoot(v) <= Cents(half)
  {
    var r, k := RootFrom(v * 10000.0, 0), Round(half * 100.0);
    RoundIsNearest(half * 100.0, k);
    assert Square(half * 100.0) == Square(half) * 10000.0;
    SquareStrict(half * 100.0, k as real + 0.5);
    hide Round, RootFrom;
    if r > k {
      SquareMonotone(k as real + 0.5, r as real - 0.5);
      hide Square;
      assert false;
    }
  }

  lemma SquareStrict(x: real, y: real)
    requires 0.0 <= x < y
    ensures Square(x) < Square(y)
  {
    var d := y - x;
    assert d * d > 0.0 && x * d >= 0.0;
    assert Square(y) == Square(x) + 2.0 * (x * d) + d * d;
  }

  /** No output depends on the order of the sample. */
  lemma {:induction false} StatsPermuted(name: string, xs: seq<real>, ys: seq<real>)
    requires multiset(xs) == multiset(ys)
    ensures Stats(name, xs) == Stats(name, ys)
  {
    hide Cents, RoundedRoot, Mean, SumSqDev, MinOf, MaxOf;
    SameLength(xs, ys);
    if xs != [] {
      MeanPermuted(xs, ys);
      SumSqDevPermuted(xs, ys, Mean(xs));
      ExtremesPermuted(xs, ys);
    }
  }

  lemma ExtremesPermuted(xs: seq<real>, ys: seq<real>)
    requires xs != [] && ys != [] && multiset(xs) == multiset(ys)
    ensures MinOf(xs) == MinOf(ys) && MaxOf(xs) == MaxOf(ys)
  {
    ExtremesBound(xs);
    ExtremesBound(ys);
    hide MinOf, MaxOf;
    assert MinOf(xs) in multiset(ys) && MinOf(ys) in multiset(xs);
    assert MaxOf(xs) in multiset(ys) && MaxOf(ys) in multiset(xs);
  }

  /** `v` is the mean of the squared deviations. */
  lemma VarianceTimesSize(xs: seq<real>)
    requires xs != []
    ensures Mul(Variance(xs), |xs| as real) == SumSqDev(xs, Mean(xs))
  {
    hide SumSqDev, Mean;
    SumSqDevNonNegative(xs, Mean(xs));
  }

  predicate Near(x: real, y: real) {
    y - 0.005 <= x <= y + 0.005
  }

  /** Name, size, and each statistic but the deviation within half a cent of the sample's own. */
  lemma StatsAreOfSample(name: string, xs: seq<real>, mean: real, least: real, greatest: real)
    requires xs != [] && Mul(mean, |xs| as real) == Sum(xs)
    requires least in xs && greatest in xs && forall i :: 0 <= i < |xs| ==> least <= xs[i] <= greatest
    ensures var b := Stats(name, xs);
            && b.metricName == name && b.sampleSize == |xs|
            && Near(b.mean, mean) && Near(b.min, least) && Near(b.max, greatest)
  {
    ExtremesBound(xs);
    MeanIs(xs, mean);
    hide MinOf, MaxOf, Mean, Sum, Cents, RoundedRoot, Variance;
    assert MinOf(xs) == least && MaxOf(xs) == greatest;
    CentsWithinHalfCent(mean);
    CentsWithinHalfCent(least);
    CentsWithinHalfCent(greatest);
  }

  lemma MeanIs(xs: seq<real>, mean: real)
    requires xs != [] && Mul(mean, |xs| as real) == Sum(xs)
    ensures Mean(xs) == mean
  {
    hide Sum;
  }

  /** An empty sample gives zeros, and a single value no deviation. */
  lemma StatsOfFew(name: string, x: real)
    ensures Stats(name, []) == Baseline(name, 0.0, 0.0, 0.0, 0.0, 0)
    ensures Stats(name, [x]).stdDev == 0.0
  {
    hide Cents;
  }
}
