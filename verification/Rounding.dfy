/** Rounding to cents, halves away from zero: Go's math.Round and Python's ROUND_HALF_UP agree on this. */
module Rounding {
  function Round(x: real): int {
    if x >= 0.0 then (x + 0.5).Floor else -((-x + 0.5).Floor)
  }

  function Cents(v: real): real {
    Round(v * 100.0) as real / 100.0
  }

  /** The nearest integer, and of two nearest the one further from zero. */
  lemma RoundIsNearest(x: real, k: int)
    ensures Round(x) == k <==>
            if x >= 0.0 then k as real - 0.5 <= x < k as real + 0.5 else k as real - 0.5 < x <= k as real + 0.5
  {
  }

  lemma RoundMonotone(x: real, y: real)
    requires x <= y
    ensures Round(x) <= Round(y)
  {
  }

  lemma {:induction false} CentsMonotone(v: real, w: real)
    requires v <= w
    ensures Cents(v) <= Cents(w)
  {
    RoundMonotone(v * 100.0, w * 100.0);
  }

  lemma CentsWithinHalfCent(v: real)
    ensures v - 0.005 <= Cents(v) <= v + 0.005
  {
  }

  /** The nearest whole number of cents, and of two nearest the one further from zero. */
  lemma {:induction false} CentsIsNearest(v: real, k: int)
    ensures Cents(v) == k as real / 100.0 <==>
            if v >= 0.0 then k as real - 0.5 <= v * 100.0 < k as real + 0.5
            else k as real - 0.5 < v * 100.0 <= k as real + 0.5
  {
    RoundIsNearest(v * 100.0, k);
    hide Round;
  }
}
