/** The Beta-Binomial credible interval of `calculate_confidence_interval`. */
module CredibleInterval {
  import opened Numeric

  /** The Beta distribution's inverse CDF (SciPy's `beta.ppf(p, alpha, beta)`), which the
      model takes as given rather than computing. */
  type Quantile = (real, int, int) -> Value

  /** The default `confidence` argument. */
  const DEFAULT_CONFIDENCE: real := 0.95

  /** The posterior Beta(alpha, beta) after a uniform Beta(1, 1) prior: one pseudo-count is
      added to the successes and one to the failures. */
  function BetaParams(successes: int, total: int): (p: (int, int))
    ensures p.0 - 1 == successes
    ensures p.0 + p.1 == total + 2
    ensures 0 <= successes <= total ==> p.0 >= 1 && p.1 >= 1
  {
    (successes + 1, total - successes + 1)
  }

  /** The probabilities at which the quantile is read: equal tails around a central mass. */
  function TailProbabilities(confidence: real): (p: (real, real))
    ensures p.0 + p.1 == 1.0
    ensures p.1 - p.0 == confidence
    ensures 0.0 < confidence < 1.0 ==> 0.0 < p.0 < p.1 < 1.0
  {
    ((1.0 - confidence) / 2.0, (1.0 + confidence) / 2.0)
  }

  /** The pair `(lower_bound, upper_bound)` of the credible interval. */
  function ConfidenceInterval(successes: int, total: int, confidence: real, ppf: Quantile): (ci: (Value, Value))
    ensures 0.0 < confidence < 1.0 && QuantileMonotone(ppf) ==> FiniteLe(ci.0, ci.1)
  {
    var (alpha, beta) := BetaParams(successes, total);
    var (lo, hi) := TailProbabilities(confidence);
    (ppf(lo, alpha, beta), ppf(hi, alpha, beta))
  }

  /** `x <= y` where both are finite. */
  predicate FiniteLe(x: Value, y: Value) {
    x.Ratio? && y.Ratio? ==> RealOf(x) <= RealOf(y)
  }

  /** What makes `ppf` a quantile function: non-decreasing in the probability. */
  ghost predicate QuantileMonotone(ppf: Quantile) {
    forall p, q, a, b :: 0.0 <= p <= q <= 1.0 ==> FiniteLe(ppf(p, a, b), ppf(q, a, b))
  }

  /** With a confidence in (0, 1) the interval queries the quantile at (1 - c)/2 and (1 + c)/2
      of Beta(successes + 1, failures + 1), so a monotone quantile gives lower <= upper. */
  lemma IntervalOrdered(successes: int, total: int, confidence: real, ppf: Quantile)
    requires 0.0 < confidence < 1.0
    requires QuantileMonotone(ppf)
    ensures var ci := ConfidenceInterval(successes, total, confidence, ppf);
            ci.0 == ppf((1.0 - confidence) / 2.0, successes + 1, total - successes + 1) &&
            ci.1 == ppf((1.0 + confidence) / 2.0, successes + 1, total - successes + 1) &&
            FiniteLe(ci.0, ci.1)
  {
    var (lo, hi) := TailProbabilities(confidence);
    assert 0.0 <= lo <= hi <= 1.0;
  }

  /** At the default confidence the tails are the 2.5% and 97.5% quantiles. */
  lemma DefaultTails()
    ensures TailProbabilities(DEFAULT_CONFIDENCE) == (0.025, 0.975)
  {
  }
}
