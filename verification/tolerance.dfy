/** The measurement-tolerance app: a comma-separated list of measurements
    is split, every token is parsed as a number, and from two values on the
    population variance is classified against the low and high variance
    limits. Parsing one token (Python's `float`) is an abstract partial
    function: `parse(token)` is `None` where `float` raises `ValueError`. */
module Tolerance {
  import opened Wrappers
  import opened RiskBands
  import opened Dispersion

  const Comma: char := ','

  // ---------------------------------------------------------------------
  // Splitting on a separator

  /** How many times `sep` occurs in `s`. */
  function Occurrences(s: string, sep: char): nat {
    if |s| == 0 then 0
    else (if s[0] == sep then 1 else 0) + Occurrences(s[1..], sep)
  }

  /** Python's `s.split(sep)`: the pieces between separators, empty pieces
      included, so there is always one piece more than separators. */
  function Split(s: string, sep: char): (parts: seq<string>)
    ensures |parts| == Occurrences(s, sep) + 1
    ensures forall k :: 0 <= k < |parts| ==> sep !in parts[k]
  {
    if |s| == 0 then [""]
    else
      var rest := Split(s[1..], sep);
      if s[0] == sep then [""] + rest
      else [[s[0]] + rest[0]] + rest[1..]
  }

  /** `sep.join(parts)`. */
  function Join(parts: seq<string>, sep: char): string {
    if |parts| == 0 then ""
    else if |parts| == 1 then parts[0]
    else parts[0] + [sep] + Join(parts[1..], sep)
  }

  /** Joining the pieces back gives the original text. */
  lemma {:induction false} JoinSplit(s: string, sep: char)
    ensures Join(Split(s, sep), sep) == s
  {
    if |s| > 0 {
      var rest := Split(s[1..], sep);
      JoinSplit(s[1..], sep);
      if s[0] == sep {
        assert ([""] + rest)[1..] == rest;
        assert s == [sep] + s[1..];
      } else if |rest| == 1 {
        assert s == [s[0]] + s[1..];
      } else {
        var parts := [[s[0]] + rest[0]] + rest[1..];
        assert parts[1..] == rest[1..];
        assert s == [s[0]] + s[1..];
      }
    }
  }

  /** Splitting a text that starts with a separator-free piece `a`. */
  lemma {:induction false} SplitAfterPiece(a: string, t: string, sep: char)
    requires sep !in a
    ensures Split(a + t, sep) == [a + Split(t, sep)[0]] + Split(t, sep)[1..]
  {
    if |a| > 0 {
      SplitAfterPiece(a[1..], t, sep);
      assert (a + t)[1..] == a[1..] + t;
      assert [a[0]] + (a[1..] + Split(t, sep)[0]) == a + Split(t, sep)[0];
    } else {
      assert a + t == t;
      var parts := Split(t, sep);
      assert parts == [parts[0]] + parts[1..];
      assert a + parts[0] == parts[0];
    }
  }

  /** Splitting separator-free pieces joined by the separator gives them back. */
  lemma {:induction false} SplitJoin(parts: seq<string>, sep: char)
    requires |parts| > 0
    requires forall k :: 0 <= k < |parts| ==> sep !in parts[k]
    ensures Split(Join(parts, sep), sep) == parts
  {
    var a := parts[0];
    if |parts| == 1 {
      SplitAfterPiece(a, "", sep);
      assert a + "" == a;
    } else {
      var more := parts[1..];
      SplitJoin(more, sep);
      var j := Join(more, sep);
      assert Join(parts, sep) == a + ([sep] + j);
      SplitAfterPiece(a, [sep] + j, sep);
      assert ([sep] + j)[1..] == j;
      assert Split([sep] + j, sep) == [""] + more;
      assert a + "" == a;
      assert parts == [a] + more;
    }
  }

  // ---------------------------------------------------------------------
  // Parsing

  /** `list(map(float, tokens))`: every token must parse, and the first one
      that does not rejects the whole list. */
  function ParseAll(tokens: seq<string>, parse: string -> Option<real>): (r: Option<seq<real>>)
    ensures r.Some? <==> forall k :: 0 <= k < |tokens| ==> parse(tokens[k]).Some?
    ensures r.Some? ==> |r.value| == |tokens|
    ensures r.Some? ==> forall k :: 0 <= k < |tokens| ==> r.value[k] == parse(tokens[k]).value
  {
    if |tokens| == 0 then Some([])
    else
      match parse(tokens[0])
      case None => None
      case Some(x) =>
        match ParseAll(tokens[1..], parse)
        case None =>
          assert forall k :: 1 <= k < |tokens| ==> tokens[k] == tokens[1..][k - 1];
          None
        case Some(xs) =>
          assert forall k :: 1 <= k < |tokens| ==> tokens[k] == tokens[1..][k - 1];
          Some([x] + xs)
  }

  /** The measurements typed into the text area, if every token parses. */
  function Measurements(input: string, parse: string -> Option<real>): Option<seq<real>> {
    ParseAll(Split(input, Comma), parse)
  }

  /** An accepted input holds one value per comma, plus one. */
  lemma MeasurementCount(input: string, parse: string -> Option<real>)
    requires Measurements(input, parse).Some?
    ensures |Measurements(input, parse).value| == Occurrences(input, Comma) + 1
  {
  }

  // ---------------------------------------------------------------------
  // The assessment

  /** What the app shows for one input: nothing yet, the invalid-input
      error, the "at least two measurements" warning, or the variance and
      its risk band. */
  datatype Assessment =
    | NoInput
    | InvalidInput
    | TooFewMeasurements
    | Assessed(variance: real, risk: Risk)

  /** The processing of the text area. An empty text shows nothing; a token
      that does not parse rejects the input; fewer than two values are
      refused; otherwise the population variance is classified. */
  function Assess(input: string, parse: string -> Option<real>, low: real, high: real): (a: Assessment)
    ensures a.NoInput? <==> input == ""
    ensures a.InvalidInput? <==>
      input != "" && exists k :: 0 <= k < |Split(input, Comma)| && parse(Split(input, Comma)[k]).None?
    ensures a.TooFewMeasurements? <==>
      input != "" && Measurements(input, parse).Some? && |Measurements(input, parse).value| < 2
    ensures a.Assessed? ==>
      && Measurements(input, parse).Some?
      && |Measurements(input, parse).value| >= 2
      && a.variance >= 0.0
      && Some(a.variance) == PopulationVariance(Measurements(input, parse).value)
      && a.risk == Classify(a.variance, low, high)
  {
    if input == "" then NoInput
    else
      match Measurements(input, parse)
      case None =>
        var tokens := Split(input, Comma);
        assert !forall k :: 0 <= k < |tokens| ==> parse(tokens[k]).Some?;
        var bad :| 0 <= bad < |tokens| && parse(tokens[bad]).None?;
        assert parse(Split(input, Comma)[bad]).None?;
        InvalidInput
      case Some(ms) =>
        if |ms| < 2 then TooFewMeasurements
        else
          var v := PopulationVariance(ms).value;
          Assessed(v, Classify(v, low, high))
  }

  /** Identical measurements have zero variance, which is Low Risk under
      the non-negative limits the sliders allow. */
  lemma IdenticalMeasurementsAreLowRisk(input: string, parse: string -> Option<real>, low: real, high: real)
    requires input != ""
    requires Measurements(input, parse).Some?
    requires |Measurements(input, parse).value| >= 2
    requires AllEqual(Measurements(input, parse).value)
    requires 0.0 <= low && 0.0 <= high
    ensures Assess(input, parse, low, high) == Assessed(0.0, Low)
  {
    VarianceZeroIffAllEqual(Measurements(input, parse).value, 0);
  }

  /** Five rod lengths whose population variance, over exact reals, is
      0.000584: Medium Risk under the default limits 0.0004 and 0.0016. */
  lemma WorkedExample()
    ensures PopulationVariance([10.02, 10.05, 10.03, 9.98, 10.00]) == Some(0.000584)
    ensures Classify(0.000584, 0.0004, 0.0016) == Medium
  {
    var s := [10.02, 10.05, 10.03, 9.98, 10.00];
    assert Sum(s) == 50.08 by {
      assert s[1..] == [10.05, 10.03, 9.98, 10.00];
      assert s[2..] == [10.03, 9.98, 10.00];
      assert s[3..] == [9.98, 10.00];
      assert s[4..] == [10.00];
    }
    assert Mean(s) == 10.016;
    assert SumSquaredDeviations(s, 10.016) == 0.00292 by {
      assert s[1..] == [10.05, 10.03, 9.98, 10.00];
      assert s[2..] == [10.03, 9.98, 10.00];
      assert s[3..] == [9.98, 10.00];
      assert s[4..] == [10.00];
    }
  }

  /** The three measurements used as the input hint (10.02, 10.05, 10.03)
      have population variance 7/45000, over exact reals: Low Risk under
      the default limits 0.0004 and 0.0016. */
  lemma HintExample()
    ensures PopulationVariance([10.02, 10.05, 10.03]) == Some(7.0 / 45000.0)
    ensures Classify(7.0 / 45000.0, 0.0004, 0.0016) == Low
  {
    var s := [10.02, 10.05, 10.03];
    assert Sum(s) == 30.1 by {
      assert s[1..] == [10.05, 10.03];
      assert s[2..] == [10.03];
    }
    var m := Mean(s);
    assert m == 30.1 / 3.0;
    assert SumSquaredDeviations(s, m) == 7.0 / 15000.0 by {
      assert s[1..] == [10.05, 10.03];
      assert s[2..] == [10.03];
      assert s[0] - m == -1.0 / 75.0;
      assert s[1] - m == 1.0 / 60.0;
      assert s[2] - m == -1.0 / 300.0;
    }
  }
}
