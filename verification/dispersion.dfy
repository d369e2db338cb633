/** Dispersion statistics over exact reals: the two-pass variance
    Σ(x - mean)² / (n - ddof) that numpy (`np.var`, ddof = 0) and pandas
    (`Series.var`, ddof = 1) compute, and the standard deviation as its
    non-negative square root. */
module Dispersion {
  import opened Wrappers

  function Sum(s: seq<real>): real {
    if |s| == 0 then 0.0 else s[0] + Sum(s[1..])
  }

  /** Σ x² — used only by the one-pass reference formula. */
  function SumOfSquares(s: seq<real>): real {
    if |s| == 0 then 0.0 else s[0] * s[0] + SumOfSquares(s[1..])
  }

  function Mean(s: seq<real>): real
    requires |s| > 0
  {
    Sum(s) / (|s| as real)
  }

  /** Σ (x - m)² */
  function SumSquaredDeviations(s: seq<real>, m: real): real {
    if |s| == 0 then 0.0
    else (s[0] - m) * (s[0] - m) + SumSquaredDeviations(s[1..], m)
  }

  /** The variance with `ddof` delta degrees of freedom; undefined (NaN in
      numpy and pandas) when there are no more than `ddof` values. */
  function Variance(s: seq<real>, ddof: nat): (v: Option<real>)
    ensures v.Some? <==> |s| > ddof
    ensures v.Some? ==> v.value >= 0.0
  {
    if |s| <= ddof then None
    else
      SumSquaredDeviationsNonNegative(s, Mean(s));
      Some(SumSquaredDeviations(s, Mean(s)) / ((|s| - ddof) as real))
  }

  /** `np.var(s)`: Σ(x - mean)² / n, defined for every non-empty sample. */
  function PopulationVariance(s: seq<real>): (v: Option<real>)
    ensures v.Some? <==> |s| >= 1
    ensures v.Some? ==> v.value >= 0.0
  {
    Variance(s, 0)
  }

  /** `Series.var()`: Σ(x - mean)² / (n - 1), defined from two values on. */
  function SampleVariance(s: seq<real>): (v: Option<real>)
    ensures v.Some? <==> |s| >= 2
    ensures v.Some? ==> v.value >= 0.0
  {
    Variance(s, 1)
  }

  /** `sd` is the standard deviation belonging to variance `v`: its
      non-negative square root. */
  predicate IsStdDev(sd: real, v: real) {
    sd >= 0.0 && sd * sd == v
  }

  /** Every value of the sample is the same. */
  predicate AllEqual(s: seq<real>) {
    forall i, j :: 0 <= i < |s| && 0 <= j < |s| ==> s[i] == s[j]
  }

  // ---------------------------------------------------------------------
  // Real arithmetic helpers

  lemma ProductNonNegative(x: real, y: real)
    requires 0.0 <= x && 0.0 <= y
    ensures 0.0 <= x * y
  {
  }

  lemma SquareNonNegative(x: real)
    ensures 0.0 <= x * x
  {
  }

  /** A sum of squares is never negative. */
  lemma {:induction false} SumSquaredDeviationsNonNegative(s: seq<real>, m: real)
    ensures SumSquaredDeviations(s, m) >= 0.0
  {
    if |s| > 0 {
      SumSquaredDeviationsNonNegative(s[1..], m);
      SquareNonNegative(s[0] - m);
    }
  }

  // ---------------------------------------------------------------------
  // The standard deviation

  /** For non-negative reals, comparing squares is comparing the values. */
  lemma SquareMonotone(a: real, b: real)
    requires 0.0 <= a && 0.0 <= b
    ensures a < b <==> a * a < b * b
  {
    // b*b - a*a == (b - a) * (b + a)
    assert b * b - a * a == (b - a) * (b + a);
    if a < b {
      assert 0.0 < b + a;
      assert 0.0 < (b - a) * (b + a);
    } else {
      ProductNonNegative(a - b, b + a);
    }
  }

  /** A variance has at most one standard deviation. */
  lemma StdDevUnique(a: real, b: real, v: real)
    requires IsStdDev(a, v) && IsStdDev(b, v)
    ensures a == b
  {
    SquareMonotone(a, b);
    SquareMonotone(b, a);
  }

  /** Whether the standard deviation of a variance `v` strictly exceeds `t`,
      decided from `v` alone, without computing a square root. */
  function ExceedsRoot(v: real, t: real): (b: bool)
    requires v >= 0.0
    ensures forall sd :: IsStdDev(sd, v) ==> (b <==> sd > t)
  {
    if t < 0.0 then true
    else
      assert forall sd :: IsStdDev(sd, v) ==> (v > t * t <==> sd > t) by {
        forall sd | IsStdDev(sd, v)
          ensures v > t * t <==> sd > t
        {
          SquareMonotone(t, sd);
        }
      }
      v > t * t
  }

  /** A standard deviation is zero exactly when its variance is. */
  lemma StdDevZeroIff(sd: real, v: real)
    requires IsStdDev(sd, v)
    ensures sd == 0.0 <==> v == 0.0
  {
    if v == 0.0 {
      SquareMonotone(0.0, sd);
    }
  }

  // ---------------------------------------------------------------------
  // Variance of constant samples

  lemma {:induction false} SumOfConstant(s: seq<real>, c: real)
    requires forall i :: 0 <= i < |s| ==> s[i] == c
    ensures Sum(s) == (|s| as real) * c
  {
    if |s| > 0 {
      SumOfConstant(s[1..], c);
    }
  }

  /** The squared deviations from `m` vanish exactly when every value is `m`. */
  lemma {:induction false} SumSquaredDeviationsZeroIff(s: seq<real>, m: real)
    ensures SumSquaredDeviations(s, m) == 0.0 <==> forall i :: 0 <= i < |s| ==> s[i] == m
  {
    if |s| > 0 {
      SumSquaredDeviationsZeroIff(s[1..], m);
      SumSquaredDeviationsNonNegative(s[1..], m);
      var d := s[0] - m;
      assert d * d >= 0.0;
      assert d * d == 0.0 <==> d == 0.0 by {
        if d * d == 0.0 {
          SquareMonotone(0.0, if d >= 0.0 then d else -d);
        }
      }
      if SumSquaredDeviations(s, m) == 0.0 {
        forall i | 0 <= i < |s|
          ensures s[i] == m
        {
          if i > 0 {
            assert s[i] == s[1..][i - 1];
          }
        }
      }
      if forall i :: 0 <= i < |s| ==> s[i] == m {
        assert forall i :: 0 <= i < |s[1..]| ==> s[1..][i] == m by {
          forall i | 0 <= i < |s[1..]|
            ensures s[1..][i] == m
          {
            assert s[1..][i] == s[i + 1];
          }
        }
      }
    }
  }

  /** The variance is zero exactly when all values are equal, whatever `ddof`. */
  lemma {:induction false} VarianceZeroIffAllEqual(s: seq<real>, ddof: nat)
    requires |s| > ddof
    ensures Variance(s, ddof).value == 0.0 <==> AllEqual(s)
  {
    var m := Mean(s);
    SumSquaredDeviationsZeroIff(s, m);
    if AllEqual(s) {
      SumOfConstant(s, s[0]);
      assert m == s[0];
    }
  }

  // ---------------------------------------------------------------------
  // The one-pass formula as an independent reference

  lemma {:induction false} SumSquaredDeviationsExpand(s: seq<real>, m: real)
    ensures SumSquaredDeviations(s, m) == SumOfSquares(s) - 2.0 * m * Sum(s) + (|s| as real) * (m * m)
  {
    if |s| > 0 {
      SumSquaredDeviationsExpand(s[1..], m);
      ExpandCons(s, m);
    }
  }

  /** One step of the expansion: from the tail of `s` to all of it. */
  lemma {:induction false} ExpandCons(s: seq<real>, m: real)
    requires |s| > 0
    requires SumSquaredDeviations(s[1..], m)
          == SumOfSquares(s[1..]) - 2.0 * m * Sum(s[1..]) + (|s[1..]| as real) * (m * m)
    ensures SumSquaredDeviations(s, m) == SumOfSquares(s) - 2.0 * m * Sum(s) + (|s| as real) * (m * m)
  {
    var x := s[0];
    assert (x - m) * (x - m) == x * x - 2.0 * m * x + m * m;
    assert 2.0 * m * (x + Sum(s[1..])) == 2.0 * m * x + 2.0 * m * Sum(s[1..]);
    assert ((|s[1..]| as real) + 1.0) * (m * m) == (|s[1..]| as real) * (m * m) + m * m;
  }

  /** The squared deviations from the mean, by the one-pass formula Σx² - (Σx)²/n. */
  lemma {:induction false} SumSquaredDeviationsOnePass(s: seq<real>)
    requires |s| > 0
    ensures SumSquaredDeviations(s, Mean(s)) == SumOfSquares(s) - Sum(s) * Sum(s) / (|s| as real)
  {
    SumSquaredDeviationsExpand(s, Mean(s));
    Centre(s);
  }

  /** Substituting the mean Σx / n into the expansion. */
  lemma {:induction false} Centre(s: seq<real>)
    requires |s| > 0
    requires SumSquaredDeviations(s, Mean(s))
          == SumOfSquares(s) - 2.0 * Mean(s) * Sum(s) + (|s| as real) * (Mean(s) * Mean(s))
    ensures SumSquaredDeviations(s, Mean(s)) == SumOfSquares(s) - Sum(s) * Sum(s) / (|s| as real)
  {
    var n, t, m := |s| as real, Sum(s), Mean(s);
    assert n * m == t;
    assert n * (m * m) == t * m;
    assert t * t / n == t * m;
  }

  /** The two-pass variance equals the textbook one-pass formula
      (Σx² - (Σx)²/n) / (n - ddof). */
  lemma {:induction false} VarianceOnePass(s: seq<real>, ddof: nat)
    requires |s| > ddof
    ensures Variance(s, ddof).value
         == (SumOfSquares(s) - Sum(s) * Sum(s) / (|s| as real)) / ((|s| - ddof) as real)
  {
    SumSquaredDeviationsOnePass(s);
  }

  /** Sample and population variance differ only in their divisor. */
  lemma {:induction false} SampleFromPopulation(s: seq<real>)
    requires |s| >= 2
    ensures SampleVariance(s).value * ((|s| - 1) as real)
         == PopulationVariance(s).value * (|s| as real)
  {
  }
}
