/** The numbers the pipeline computes: float64 values modelled as exact rationals. */
module Numeric {

  type Pos = d: int | d > 0 witness 1

  /** The result of a true division `a / b` in pandas: an exact quotient `num / den`, or the
      marker that IEEE 754 division by zero yields (`inf`, `-inf`, or `nan` for `0 / 0`). */
  datatype Value = Ratio(num: int, den: Pos) | PosInf | NegInf | NaN

  /** The real number a finite value stands for. */
  function RealOf(v: Value): real
    requires v.Ratio?
  {
    v.num as real / v.den as real
  }

  /** Integer true division as pandas evaluates it on an integer column. */
  function Divide(a: int, b: int): (v: Value)
    ensures v.Ratio? <==> b != 0
    ensures v == NaN <==> b == 0 && a == 0
    ensures v == PosInf <==> b == 0 && a > 0
    ensures v == NegInf <==> b == 0 && a < 0
  {
    if b > 0 then Ratio(a, b)
    else if b < 0 then Ratio(-a, -b)
    else if a > 0 then PosInf
    else if a < 0 then NegInf
    else NaN
  }

  /** The float comparison `v >= c`: false for `nan` and `-inf`, true for `inf`; on a finite
      value it is the comparison of the real number it stands for. */
  predicate AtLeast(v: Value, c: real)
    ensures v.Ratio? ==> (AtLeast(v, c) <==> RealOf(v) >= c)
  {
    match v
    case Ratio(n, d) =>
      QuotientAtLeast(n as real, d as real, c);
      n as real >= c * d as real
    case PosInf => true
    case NegInf => false
    case NaN => false
  }

  /** `x / d >= c` exactly when `x >= c * d`, for a positive `d`. */
  lemma QuotientAtLeast(x: real, d: real, c: real)
    requires d > 0.0
    ensures x / d >= c <==> x >= c * d
  {
    assert (x / d) * d == x;
    if x / d >= c {
      assert (x / d) * d >= c * d;
    } else {
      assert (x / d) * d < c * d;
    }
  }

  /** `x / d <= c` exactly when `x <= c * d`, for a positive `d`. */
  lemma QuotientAtMost(x: real, d: real, c: real)
    requires d > 0.0
    ensures x / d <= c <==> x <= c * d
  {
    assert (x / d) * d == x;
    if x / d <= c {
      assert (x / d) * d <= c * d;
    } else {
      assert (x / d) * d > c * d;
    }
  }

  /** A non-zero divisor gives the exact quotient. */
  lemma DivideExact(a: int, b: int)
    requires b != 0
    ensures RealOf(Divide(a, b)) * (b as real) == a as real
  {
    var v := Divide(a, b);
    assert (v.num as real / v.den as real) * (v.den as real) == v.num as real;
    if b < 0 {
      assert (v.num as real / v.den as real) * (b as real)
          == -((v.num as real / v.den as real) * (v.den as real));
    }
  }

  /** A rate of successes among a positive number of patients lies in [0, 1]. */
  lemma RateInUnitInterval(successes: int, total: int)
    requires 0 <= successes <= total && 0 < total
    ensures Divide(successes, total).Ratio?
    ensures 0.0 <= RealOf(Divide(successes, total)) <= 1.0
  {
    var x, n := successes as real, total as real;
    QuotientAtLeast(x, n, 0.0);
    QuotientAtMost(x, n, 1.0);
  }

  /** Dividing by the same positive number keeps the order of the numerators. */
  lemma DivideMonotone(a: int, b: int, d: int)
    requires a <= b && 0 < d
    ensures Divide(a, d).Ratio? && Divide(b, d).Ratio?
    ensures RealOf(Divide(a, d)) <= RealOf(Divide(b, d))
  {
    var x, y, z := a as real, b as real, d as real;
    assert y / z - x / z == (y - x) / z;
    QuotientAtLeast(y - x, z, 0.0);
  }
}
