/** The three-band risk classifier shared by the stock-volatility app
    (which classifies a standard deviation against `low` and `medium`) and
    the tolerance app (which classifies a variance against `low` and
    `high`). Both comparisons are strict, and the thresholds come from two
    independent sliders, so nothing orders them. */
module RiskBands {

  datatype Risk = Low | Medium | High

  /** The ordinal position of a band: Low < Medium < High. */
  function Rank(r: Risk): nat {
    match r
    case Low => 0
    case Medium => 1
    case High => 2
  }

  /** The band a dispersion value `d` falls in. With ordered thresholds the
      band's rank is the number of thresholds `d` strictly exceeds. */
  function Classify(d: real, low: real, high: real): (r: Risk)
    ensures low <= high ==>
      Rank(r) == (if d > low then 1 else 0) + (if d > high then 1 else 0)
    ensures r == High <==> d > high
  {
    if d > high then High
    else if d > low then Medium
    else Low
  }

  /** The bands as the apps document them to the user:
      Low when `d <= low`, Medium when `low < d <= high`, High when `d > high`. */
  predicate InDocumentedBand(d: real, low: real, high: real, r: Risk) {
    match r
    case Low => d <= low
    case Medium => low < d <= high
    case High => d > high
  }

  /** With ordered thresholds, the classifier picks exactly the documented band. */
  lemma ClassifyMatchesBands(d: real, low: real, high: real, r: Risk)
    requires low <= high
    ensures Classify(d, low, high) == r <==> InDocumentedBand(d, low, high, r)
  {
  }

  /** The comparisons are strict: a value on a threshold stays in the lower band. */
  lemma ClassifyBoundaries(low: real, high: real, eps: real)
    requires low <= high
    requires 0.0 < eps
    ensures Classify(low, low, high) == Low
    ensures low < high ==> Classify(high, low, high) == Medium
    ensures eps <= high - low ==> Classify(low + eps, low, high) == Medium
    ensures Classify(high + eps, low, high) == High
  {
  }

  /** Raising the dispersion never lowers the band, as long as the thresholds are ordered. */
  lemma ClassifyMonotone(d1: real, d2: real, low: real, high: real)
    requires low <= high
    requires d1 <= d2
    ensures Rank(Classify(d1, low, high)) <= Rank(Classify(d2, low, high))
  {
  }

  /** With misordered thresholds the Medium band is empty: the classifier
      only ever answers High (above `high`) or Low. */
  lemma ClassifyMisordered(d: real, low: real, high: real)
    requires high <= low
    ensures Classify(d, low, high) != Medium
    ensures Classify(d, low, high) == (if d > high then High else Low)
  {
  }

  /** A zero dispersion is Low whenever both thresholds are non-negative,
      which the sliders of both apps guarantee. */
  lemma ZeroDispersionIsLow(low: real, high: real)
    requires 0.0 <= low && 0.0 <= high
    ensures Classify(0.0, low, high) == Low
  {
  }
}
