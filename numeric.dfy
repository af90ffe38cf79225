/**
 * Folds and conversions over `f64` values, modelled on exact reals: the left-to-right
 * sum, the `fold(INFINITY, f64::min)` / `fold(NEG_INFINITY, f64::max)` extrema of a
 * non-empty series, `f64::round` (half away from zero) and the `as usize` cast
 * (truncation toward zero, negative values clamped at 0).
 */
module Numeric {

  /** `iter().sum::<f64>()`: a left fold starting from zero. */
  function Sum(s: seq<real>): real
  {
    if s == [] then 0.0 else Sum(s[..|s| - 1]) + s[|s| - 1]
  }

  /** `fold(f64::INFINITY, f64::min)` of a non-empty series: its least element. */
  function MinOf(s: seq<real>): (m: real)
    requires s != []
    ensures m in s
    ensures forall i :: 0 <= i < |s| ==> m <= s[i]
  {
    if |s| == 1 then s[0]
    else
      var m' := MinOf(s[..|s| - 1]);
      assert m' in s[..|s| - 1];
      if s[|s| - 1] < m' then s[|s| - 1] else m'
  }

  /** `fold(f64::NEG_INFINITY, f64::max)` of a non-empty series: its greatest element. */
  function MaxOf(s: seq<real>): (m: real)
    requires s != []
    ensures m in s
    ensures forall i :: 0 <= i < |s| ==> s[i] <= m
  {
    if |s| == 1 then s[0]
    else
      var m' := MaxOf(s[..|s| - 1]);
      assert m' in s[..|s| - 1];
      if m' < s[|s| - 1] then s[|s| - 1] else m'
  }

  /**
   * The mean of a non-empty series whose terms all lie in `[lo, hi]` lies in `[lo, hi]`
   * too.
   */
  lemma MeanWithinBounds(s: seq<real>, lo: real, hi: real)
    requires s != []
    requires forall i :: 0 <= i < |s| ==> lo <= s[i] <= hi
    ensures lo <= Sum(s) / |s| as real <= hi
  {
    SumAtLeast(s, lo);
    SumAtMost(s, hi);
    DividedBounds(|s| as real, lo, hi, Sum(s));
  }

  /** Dividing `n * lo <= total <= n * hi` by a positive `n`. */
  lemma DividedBounds(n: real, lo: real, hi: real, total: real)
    requires 0.0 < n && n * lo <= total <= n * hi
    ensures lo <= total / n <= hi
  {
    var m := total / n;
    assert n * m == total;
  }

  /** Every term at least `lo` makes the sum at least `n * lo`. */
  lemma {:induction false} SumAtLeast(s: seq<real>, lo: real)
    requires forall i :: 0 <= i < |s| ==> lo <= s[i]
    ensures |s| as real * lo <= Sum(s)
  {
    if s != [] {
      var p := s[..|s| - 1];
      SumAtLeast(p, lo);
      assert |s| as real * lo == |p| as real * lo + lo;
    }
  }

  /** Every term at most `hi` makes the sum at most `n * hi`. */
  lemma {:induction false} SumAtMost(s: seq<real>, hi: real)
    requires forall i :: 0 <= i < |s| ==> s[i] <= hi
    ensures Sum(s) <= |s| as real * hi
  {
    if s != [] {
      var p := s[..|s| - 1];
      SumAtMost(p, hi);
      assert |s| as real * hi == |p| as real * hi + hi;
    }
  }

  /** A sum of non-negative terms is non-negative. */
  lemma {:induction false} SumNonNegative(s: seq<real>)
    requires forall i :: 0 <= i < |s| ==> 0.0 <= s[i]
    ensures 0.0 <= Sum(s)
  {
    if s != [] {
      SumNonNegative(s[..|s| - 1]);
    }
  }

  /**
   * `f64::round`: the nearest integer, halfway cases rounded away from zero.
   * The two ensures pin the result down uniquely.
   */
  function RoundHalfAway(x: real): (r: int)
    ensures 0.0 <= x ==> r as real - 0.5 <= x < r as real + 0.5
    ensures x < 0.0 ==> r as real - 0.5 < x <= r as real + 0.5
  {
    if 0.0 <= x then (x + 0.5).Floor else -((-x + 0.5).Floor)
  }

  /** Rounding never reverses the order of two values. */
  lemma RoundMonotone(x: real, y: real)
    requires x <= y
    ensures RoundHalfAway(x) <= RoundHalfAway(y)
  {
  }

  /**
   * `as usize` applied to a float that holds an integer or any other value:
   * truncation toward zero, negative values clamped at 0.
   */
  function ToUsize(x: real): (n: nat)
    ensures 0.0 <= x ==> n as real <= x < n as real + 1.0
    ensures x < 0.0 ==> n == 0
  {
    if x < 0.0 then 0 else x.Floor
  }

  /** The quotient and remainder of Euclidean division are the only ones. */
  lemma DivUnique(n: int, d: int, q: int, r: int)
    requires 0 < d && 0 <= r < d && n == q * d + r
    ensures n / d == q && n % d == r
  {
    var q' := n / d;
    if q' > q {
      MulMonotone(q + 1, q', d);
      MulSucc(q, d);
      assert false;
    } else if q' < q {
      MulMonotone(q' + 1, q, d);
      MulSucc(q', d);
      assert false;
    }
  }

  lemma MulMonotone(a: int, b: int, d: int)
    requires a <= b && 0 < d
    ensures a * d <= b * d
  {
    assert b * d - a * d == (b - a) * d;
  }

  lemma MulSucc(q: int, d: int)
    ensures (q + 1) * d == q * d + d
  {
  }

  /** Adding the divisor adds one to the quotient. */
  lemma DivStep(x: nat, d: nat)
    requires 0 < d
    ensures (x + d) / d == x / d + 1
  {
    MulSucc(x / d, d);
    DivUnique(x + d, d, x / d + 1, x % d);
  }

  /** A quotient is at least one when the divisor does not exceed the dividend. */
  lemma DivAtLeastOne(x: nat, d: nat)
    requires 0 < d <= x
    ensures 1 <= x / d
  {
    DivStep(x - d, d);
  }
}
