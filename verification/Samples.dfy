/** Sums of squared deviations over exact reals, and the inequalities that bound them. */
module Samples {
  import opened Sequences

  /** A product by name, for contexts where the solver should not multiply out. */
  function Mul(x: real, y: real): real {
    x * y
  }

  function Square(x: real): real {
    x * x
  }

  function SquaredFrom(c: real): real -> real {
    x => Square(x - c)
  }

  function SumSqDev(xs: seq<real>, c: real): real {
    Sum(Map(xs, SquaredFrom(c)))
  }

  function Mean(xs: seq<real>): real
    requires xs != []
  {
    Sum(xs) / |xs| as real
  }

  lemma MeanTimesSize(xs: seq<real>)
    requires xs != []
    ensures Mean(xs) * |xs| as real == Sum(xs)
  {
  }

  lemma SumSqDevOneMore(xs: seq<real>, c: real)
    requires xs != []
    ensures SumSqDev(xs, c) == SumSqDev(Init(xs), c) + Square(Last(xs) - c)
  {
    MapInit(xs, SquaredFrom(c));
    hide Square, Map;
  }

  lemma MeanPermuted(xs: seq<real>, ys: seq<real>)
    requires xs != [] && multiset(xs) == multiset(ys)
    ensures ys != [] && Mean(xs) == Mean(ys)
  {
    SameLength(xs, ys);
    SumPermuted(xs, ys);
  }

  lemma SumSqDevPermuted(xs: seq<real>, ys: seq<real>, c: real)
    requires multiset(xs) == multiset(ys)
    ensures SumSqDev(xs, c) == SumSqDev(ys, c)
  {
    MapPermuted(xs, ys, SquaredFrom(c));
    SumPermuted(Map(xs, SquaredFrom(c)), Map(ys, SquaredFrom(c)));
  }

  lemma SquareNonNegative(x: real)
    ensures Square(x) >= 0.0
  {
  }

  lemma ProductPositive(x: real, y: real, p: real)
    requires x > 0.0 && y > 0.0 && p == x * y
    ensures p > 0.0
  {
  }

  lemma NegativesPositive(x: real, y: real, p: real)
    requires x < 0.0 && y < 0.0 && p == x * y
    ensures p > 0.0
  {
  }

  lemma SquarePositive(x: real)
    requires x != 0.0
    ensures Square(x) > 0.0
  {
    if x > 0.0 {
      ProductPositive(x, x, Square(x));
    } else {
      NegativesPositive(x, x, Square(x));
    }
  }

  lemma {:induction false} SumSqDevNonNegative(xs: seq<real>, c: real)
    ensures SumSqDev(xs, c) >= 0.0
  {
    if xs != [] {
      SumSqDevOneMore(xs, c);
      SumSqDevNonNegative(Init(xs), c);
      SquareNonNegative(Last(xs) - c);
      hide Square;
    }
  }

  /** Sum of all, against sum of those between: the mean lies within any bounds of the sample. */
  lemma {:induction false} SumWithin(xs: seq<real>, lo: real, hi: real)
    requires forall i :: 0 <= i < |xs| ==> lo <= xs[i] <= hi
    ensures lo * |xs| as real <= Sum(xs) <= hi * |xs| as real
  {
    if xs != [] {
      SumWithin(Init(xs), lo, hi);
      var n := |Init(xs)| as real;
      assert |xs| as real == n + 1.0;
      assert lo * (n + 1.0) == lo * n + lo && hi * (n + 1.0) == hi * n + hi;
    }
  }

  lemma MeanWithin(xs: seq<real>, lo: real, hi: real)
    requires xs != [] && forall i :: 0 <= i < |xs| ==> lo <= xs[i] <= hi
    ensures lo <= Mean(xs) <= hi
  {
    SumWithin(xs, lo, hi);
    Quotient(Sum(xs), |xs| as real, lo, hi);
  }

  lemma PositiveFactor(n: real, r: real)
    requires n > 0.0 && n * r >= 0.0
    ensures r >= 0.0
  {
  }

  lemma Quotient(s: real, n: real, lo: real, hi: real)
    requires n > 0.0 && lo * n <= s <= hi * n
    ensures lo <= s / n <= hi
  {
    var q := s / n;
    assert q * n == s;
    assert n * (q - lo) == s - lo * n && n * (hi - q) == hi * n - s;
    PositiveFactor(n, q - lo);
    PositiveFactor(n, hi - q);
  }

  /** A value between two bounds lies under the chord of the parabola through them. */
  lemma UnderChord(y: real, a: real, b: real)
    requires b <= y <= a
    ensures Square(y) <= y * (a + b) - a * b
  {
    assert (a - y) * (y - b) >= 0.0;
    assert (a - y) * (y - b) == y * (a + b) - a * b - y * y;
  }

  lemma {:induction false} SumSqDevUnderChord(xs: seq<real>, c: real, lo: real, hi: real)
    requires forall i :: 0 <= i < |xs| ==> lo <= xs[i] <= hi
    ensures var a, b, n := hi - c, lo - c, |xs| as real;
            SumSqDev(xs, c) <= (Sum(xs) - n * c) * (a + b) - n * (a * b)
  {
    var a, b := hi - c, lo - c;
    if xs != [] {
      SumSqDevOneMore(xs, c);
      SumSqDevUnderChord(Init(xs), c, lo, hi);
      var n, s, y := |Init(xs)| as real, Sum(Init(xs)), Last(xs) - c;
      UnderChord(y, a, b);
      ChordStep(n, s, c, y, a, b);
      assert |xs| as real == n + 1.0 && Sum(xs) == s + (y + c);
      hide Square;
    }
  }

  lemma ChordStep(n: real, s: real, c: real, y: real, a: real, b: real)
    ensures (s + (y + c) - (n + 1.0) * c) * (a + b) - (n + 1.0) * (a * b)
            == ((s - n * c) * (a + b) - n * (a * b)) + (y * (a + b) - a * b)
  {
    assert s + (y + c) - (n + 1.0) * c == (s - n * c) + y;
    assert ((s - n * c) + y) * (a + b) == (s - n * c) * (a + b) + y * (a + b);
    var p := a * b;
    assert (n + 1.0) * p == n * p + p;
  }

  /** The Bhatia-Davis bound on a variance. */
  function ChordGap(m: real, lo: real, hi: real): real {
    (hi - m) * (m - lo)
  }

  /** Spread about the mean is at most n (hi - mean)(mean - lo), and so at most n ((hi - lo) / 2)^2. */
  lemma SpreadBound(xs: seq<real>, lo: real, hi: real)
    requires xs != [] && forall i :: 0 <= i < |xs| ==> lo <= xs[i] <= hi
    ensures SumSqDev(xs, Mean(xs)) <= |xs| as real * ChordGap(Mean(xs), lo, hi)
    ensures ChordGap(Mean(xs), lo, hi) <= Square((hi - lo) / 2.0)
  {
    hide SumSqDev, Mean, Sum;
    var m, n := Mean(xs), |xs| as real;
    SumSqDevUnderChord(xs, m, lo, hi);
    MeanTimesSize(xs);
    ChordAtMean(Sum(xs), n, m, lo, hi);
    Halves(hi - m, m - lo);
    assert (hi - m) + (m - lo) == hi - lo;
  }

  lemma ChordAtMean(s: real, n: real, m: real, lo: real, hi: real)
    requires m * n == s
    ensures (s - n * m) * ((hi - m) + (lo - m)) - n * ((hi - m) * (lo - m)) == n * ChordGap(m, lo, hi)
  {
    assert s - n * m == 0.0;
    var p := (hi - m) * (m - lo);
    assert (hi - m) * (lo - m) == -p;
  }

  /** The product of two numbers is at most the square of their average. */
  lemma Halves(u: real, v: real)
    ensures u * v <= Square((u + v) / 2.0)
  {
    var d := (u - v) / 2.0;
    SquareNonNegative(d);
    assert Square((u + v) / 2.0) - u * v == Square(d);
  }

  // ----- How far one value can be from the mean -----

  /** The square of a sum is at most the size times the sum of the squares. */
  lemma {:induction false} SquareOfSum(xs: seq<real>, c: real)
    ensures Square(Sum(xs) - Mul(|xs| as real, c)) <= Mul(|xs| as real, SumSqDev(xs, c))
  {
    if xs != [] {
      var n, y := |Init(xs)| as real, Last(xs) - c;
      var s, q := Sum(Init(xs)) - Mul(n, c), SumSqDev(Init(xs), c);
      SquareOfSum(Init(xs), c);
      SumSqDevOneMore(xs, c);
      SumSqDevNonNegative(Init(xs), c);
      assert Mul(n + 1.0, c) == Mul(n, c) + c && Mul(0.0, c) == 0.0;
      hide Square, SumSqDev, Mul;
      assert |xs| as real == n + 1.0;
      assert Sum(xs) - Mul(|xs| as real, c) == s + y;
      assert n == 0.0 ==> Init(xs) == [];
      SquareOfSumStep(n, s, q, y);
    }
  }

  lemma SquareOfSumStep(n: real, s: real, q: real, y: real)
    requires Square(s) <= Mul(n, q) && q >= 0.0 && (n == 0.0 ==> s == 0.0) && n >= 0.0
    ensures Square(s + y) <= Mul(n + 1.0, q + Square(y))
  {
    var z := Square(y);
    assert Square(s + y) == Square(s) + 2.0 * (s * y) + z;
    assert (n + 1.0) * (q + z) == n * q + n * z + q + z;
    assert 2.0 * (s * y) <= q + n * z by {
      if n > 0.0 {
        var r := q + n * z - 2.0 * (s * y);
        assert n * r >= Square(s - n * y) by {
          assert Square(s - n * y) == Square(s) - 2.0 * (n * (s * y)) + n * (n * z);
          assert n * r == n * q + n * (n * z) - 2.0 * (n * (s * y));
        }
        SquareNonNegative(s - n * y);
        PositiveFactor(n, r);
      } else {
        SquareNonNegative(y);
        assert s * y == 0.0 && n * z == 0.0;
      }
    }
  }

  /** One member's squared deviation, n times over, is at most (n - 1) times the spread. */
  lemma MemberDeviation(xs: seq<real>, i: nat)
    requires i < |xs|
    ensures |xs| as real * Square(xs[i] - Mean(xs)) <= (|xs| - 1) as real * SumSqDev(xs, Mean(xs))
  {
    hide Sum, SumSqDev, Mean, Square;
    var m, n, x := Mean(xs), (|xs| - 1) as real, xs[i];
    var rest := Without(xs, i);
    MeanTimesSize(xs);
    SumWithout(xs, i);
    SquareOfSum(rest, m);
    WithoutMap(xs, i, m);
    assert |rest| as real == n && |xs| as real == n + 1.0;
    RestDeviation(n, m, x, Sum(rest), SumSqDev(rest, m));
  }

  lemma RestDeviation(n: real, m: real, x: real, s: real, q: real)
    requires m * (n + 1.0) == s + x && Square(s - Mul(n, m)) <= Mul(n, q)
    ensures (n + 1.0) * Square(x - m) <= n * (q + Square(x - m))
  {
    var d := Square(x - m);
    assert s - n * m == m - x by { assert m * (n + 1.0) == n * m + m; }
    assert Square(m - x) == d;
    assert n * (q + d) == n * q + n * d && (n + 1.0) * d == n * d + d;
  }

  lemma WithoutMap(xs: seq<real>, i: nat, c: real)
    requires i < |xs|
    ensures SumSqDev(xs, c) == SumSqDev(Without(xs, i), c) + Square(xs[i] - c)
  {
    var f := SquaredFrom(c);
    SumWithout(Map(xs, f), i);
    assert Without(Map(xs, f), i) == Map(Without(xs, i), f);
  }

  // ----- Scaling -----

  function Times(k: real): real -> real {
    x => Mul(k, x)
  }

  lemma {:induction false} SumScaled(xs: seq<real>, k: real)
    ensures Sum(Map(xs, Times(k))) == k * Sum(xs)
  {
    if xs != [] {
      SumScaled(Init(xs), k);
      assert Init(Map(xs, Times(k))) == Map(Init(xs), Times(k));
    }
  }

  lemma ScaledQuotient(k: real, s: real, ks: real, n: real)
    requires n > 0.0 && ks == k * s
    ensures ks / n == k * (s / n)
  {
    var q := s / n;
    assert q * n == s;
    assert (k * q) * n == ks;
  }

  lemma MeanScaled(xs: seq<real>, k: real)
    requires xs != []
    ensures Mean(Map(xs, Times(k))) == k * Mean(xs)
  {
    hide Sum, Times;
    SumScaled(xs, k);
    var s, n := Sum(xs), |xs| as real;
    ScaledQuotient(k, s, Sum(Map(xs, Times(k))), n);
  }

  lemma ScaledEnds(xs: seq<real>, k: real)
    requires xs != []
    ensures Init(Map(xs, Times(k))) == Map(Init(xs), Times(k)) && Last(Map(xs, Times(k))) == Mul(k, Last(xs))
  {
    MapInit(xs, Times(k));
    hide Map, Mul;
  }

  lemma {:induction false} SumSqDevScaled(xs: seq<real>, c: real, k: real, kc: real, ys: seq<real>)
    requires kc == Mul(k, c) && ys == Map(xs, Times(k))
    ensures SumSqDev(ys, kc) == Mul(Square(k), SumSqDev(xs, c))
  {
    if xs != [] {
      hide SumSqDev, Square, Map, Times, Mul;
      ScaledEnds(xs, k);
      SumSqDevScaled(Init(xs), c, k, kc, Init(ys));
      SumSqDevOneMore(xs, c);
      SumSqDevOneMore(ys, kc);
      ScaledStep(k, Last(xs), c, SumSqDev(Init(xs), c), Last(ys) - kc);
    }
  }

  lemma ScaledStep(k: real, x: real, c: real, q: real, kd: real)
    requires kd == Mul(k, x) - Mul(k, c)
    ensures Mul(Square(k), q) + Square(kd) == Mul(Square(k), q + Square(x - c))
  {
    var d := x - c;
    var z := Square(d);
    assert kd == k * d;
    assert Square(kd) == Square(k) * z;
    assert Square(k) * (q + z) == Square(k) * q + Square(k) * z;
  }

  function Squared(x: real): real {
    Square(x)
  }

  lemma SquaresOneMore(xs: seq<real>)
    requires xs != []
    ensures Sum(Map(xs, Squared)) == Sum(Map(Init(xs), Squared)) + Square(Last(xs))
    ensures Sum(xs) == Sum(Init(xs)) + Last(xs)
  {
    MapInit(xs, Squared);
    hide Square, Map;
  }

  /** Squared deviations from any point, from the sums of the members and of their squares. */
  lemma {:induction false} SumSqDevIdentity(xs: seq<real>, c: real)
    ensures SumSqDev(xs, c) == Sum(Map(xs, Squared)) - 2.0 * Mul(c, Sum(xs)) + Mul(|xs| as real, Square(c))
  {
    if xs == [] {
      EmptyIdentity(c);
    } else {
      hide Sum, Map, SumSqDev, Mul, Square;
      var before, n := Init(xs), |xs| as real - 1.0;
      SumSqDevIdentity(before, c);
      SumSqDevOneMore(xs, c);
      SquaresOneMore(xs);
      assert |before| as real == n;
      IdentityStep(n, Sum(before), Sum(Map(before, Squared)), Last(xs), c);
    }
  }

  lemma EmptyIdentity(c: real)
    ensures SumSqDev([], c) == Sum(Map([], Squared)) - 2.0 * Mul(c, Sum([])) + Mul(0.0, Square(c))
  {
    hide Square;
  }

  lemma IdentityStep(n: real, s: real, q: real, x: real, c: real)
    ensures q - 2.0 * Mul(c, s) + Mul(n, Square(c)) + Square(x - c)
            == q + Square(x) - 2.0 * Mul(c, s + x) + Mul(n + 1.0, Square(c))
  {
  }
}
