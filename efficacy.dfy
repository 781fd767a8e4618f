/** `classify_drug`: the three efficacy categories and their closed lower thresholds. */
module Efficacy {
  import opened Numeric

  const HIGH := "High Efficacy"
  const MODERATE := "Moderate Efficacy"
  const LOW := "Low Efficacy"

  const HIGH_THRESHOLD: real := 0.8
  const MODERATE_THRESHOLD: real := 0.5

  /** The label of an efficacy rate: High from 0.8 up, Moderate from 0.5 up, Low otherwise.
      The comparisons are float comparisons, so `nan` falls through to Low and `inf` is High. */
  function ClassifyDrug(efficacy: Value): (category: string)
    ensures category == HIGH <==> AtLeast(efficacy, HIGH_THRESHOLD)
    ensures category == MODERATE <==> AtLeast(efficacy, MODERATE_THRESHOLD) && !AtLeast(efficacy, HIGH_THRESHOLD)
    ensures category == LOW <==> !AtLeast(efficacy, MODERATE_THRESHOLD)
  {
    if AtLeast(efficacy, HIGH_THRESHOLD) then HIGH
    else if AtLeast(efficacy, MODERATE_THRESHOLD) then MODERATE
    else LOW
  }

  /** The order of the categories: Low < Moderate < High. */
  function Rank(category: string): nat {
    if category == HIGH then 2 else if category == MODERATE then 1 else 0
  }

  /** On a finite rate the three labels partition the reals at 0.5 and 0.8. */
  lemma ClassifyFinite(rate: Value)
    requires rate.Ratio?
    ensures ClassifyDrug(rate) == HIGH <==> RealOf(rate) >= 0.8
    ensures ClassifyDrug(rate) == MODERATE <==> 0.5 <= RealOf(rate) < 0.8
    ensures ClassifyDrug(rate) == LOW <==> RealOf(rate) < 0.5
  {
  }

  /** Ties at a threshold go to the higher category. */
  lemma ClassifyBoundaries()
    ensures ClassifyDrug(Divide(8, 10)) == HIGH
    ensures ClassifyDrug(Divide(5, 10)) == MODERATE
    ensures ClassifyDrug(Divide(4999, 10000)) == LOW
  {
  }

  /** A higher rate never gets a lower category. */
  lemma ClassifyMonotone(a: Value, b: Value)
    requires a.Ratio? && b.Ratio? && RealOf(a) <= RealOf(b)
    ensures Rank(ClassifyDrug(a)) <= Rank(ClassifyDrug(b))
  {
    ClassifyFinite(a);
    ClassifyFinite(b);
  }

  /** A trial with no patients: `s / 0` is `inf` (High) when s > 0 and `nan` (Low) when s == 0. */
  lemma ClassifyZeroPatients(successes: nat)
    ensures ClassifyDrug(Divide(successes, 0)) == if successes > 0 then HIGH else LOW
  {
  }
}
