/** The per-ticker pipeline of the stock-volatility app: simple returns of
    the closing prices, a trailing rolling volatility of those returns and a
    trailing moving average of the closes, `dropna` over the resulting frame,
    and the sample variance and standard deviation of the surviving returns
    classified into a risk band. Row positions stand for the shared date index
    of the downloaded price table. */
module Stock {
  import opened Wrappers
  import opened RiskBands
  import opened Dispersion

  predicate NonZeroCloses(p: seq<real>) {
    forall i :: 0 <= i < |p| ==> p[i] != 0.0
  }

  // ---------------------------------------------------------------------
  // Simple returns

  /** `Close.pct_change()`. Entry 0 has no previous close and is undefined;
      a return from a zero close is undefined as well. */
  function PctChange(p: seq<real>): (r: seq<Option<real>>)
    ensures |r| == |p|
    ensures |p| > 0 ==> r[0].None?
    ensures forall i :: 1 <= i < |p| ==> (r[i].Some? <==> p[i - 1] != 0.0)
  {
    seq(|p|, i requires 0 <= i < |p| =>
      if i == 0 || p[i - 1] == 0.0 then None else Some((p[i] - p[i - 1]) / p[i - 1]))
  }

  /** The defined returns of a series of non-zero closes: entry j is the
      return from close j to close j + 1. */
  function Returns(p: seq<real>): (r: seq<real>)
    requires |p| >= 1 && NonZeroCloses(p)
    ensures |r| == |p| - 1
    ensures forall j :: 0 <= j < |r| ==> PctChange(p)[j + 1] == Some(r[j])
  {
    seq(|p| - 1, j requires 0 <= j < |p| - 1 => (p[j + 1] - p[j]) / p[j])
  }

  /** Prices obtained by compounding the returns `rs` from `start`. */
  function Compound(start: real, rs: seq<real>): (ps: seq<real>)
    ensures |ps| == |rs| + 1
    ensures ps[0] == start
  {
    if |rs| == 0 then [start]
    else
      var ps := Compound(start, rs[..|rs| - 1]);
      ps + [ps[|ps| - 1] * (1.0 + rs[|rs| - 1])]
  }

  /** Compounding the returns from the first close rebuilds the whole series. */
  lemma {:induction false} CompoundReturns(p: seq<real>)
    requires |p| >= 1 && NonZeroCloses(p)
    ensures Compound(p[0], Returns(p)) == p
  {
    if |p| > 1 {
      var q := p[..|p| - 1];
      ReturnsOfPrefix(p);
      CompoundReturns(q);
      var rs := Returns(p);
      var prev, next := p[|p| - 2], p[|p| - 1];
      assert rs[..|rs| - 1] == Returns(q);
      CompoundOneMore(p[0], rs, q, prev, next);
      assert p == q + [next];
    }
  }

  /** Dropping the last close drops the last return. */
  lemma {:induction false} ReturnsOfPrefix(p: seq<real>)
    requires |p| > 1 && NonZeroCloses(p)
    ensures NonZeroCloses(p[..|p| - 1])
    ensures Returns(p)[..|p| - 2] == Returns(p[..|p| - 1])
  {
  }

  /** Compounding one more return, from `prev` to `next`, appends `next`. */
  lemma {:induction false} CompoundOneMore(start: real, rs: seq<real>, init: seq<real>, prev: real, next: real)
    requires |rs| > 0 && prev != 0.0
    requires Compound(start, rs[..|rs| - 1]) == init
    requires |init| > 0 && init[|init| - 1] == prev && rs[|rs| - 1] == (next - prev) / prev
    ensures Compound(start, rs) == init + [next]
  {
    var r := (next - prev) / prev;
    CompoundLast(start, rs, init, prev, r);
    CompoundStep(prev, next);
    assert prev * (1.0 + r) == next;
  }

  /** Unfolding `Compound` once at the end. */
  lemma {:induction false} CompoundLast(start: real, rs: seq<real>, init: seq<real>, prev: real, r: real)
    requires |rs| > 0
    requires Compound(start, rs[..|rs| - 1]) == init
    requires |init| > 0 && init[|init| - 1] == prev && rs[|rs| - 1] == r
    ensures Compound(start, rs) == init + [prev * (1.0 + r)]
  {
    var d := Compound(start, rs);
    assert d[..|d| - 1] == init;
    assert d[|d| - 1] == prev * (1.0 + r);
    assert d == d[..|d| - 1] + [d[|d| - 1]];
  }

  /** One period of compounding undoes one simple return. */
  lemma CompoundStep(prev: real, next: real)
    requires prev != 0.0
    ensures prev * (1.0 + (next - prev) / prev) == next
  {
  }

  // ---------------------------------------------------------------------
  // Rolling statistics (pandas defaults: min_periods = window, ddof = 1)

  /** The `window` entries ending at index i. */
  function Trailing<T>(s: seq<T>, window: nat, i: nat): seq<T>
    requires 1 <= window <= i + 1 <= |s|
  {
    s[i + 1 - window..i + 1]
  }

  /** `s.rolling(window).std()`, carried as its square: at index i the sample
      variance of the trailing window, undefined while fewer than `window`
      entries exist or when one of them is undefined. */
  function RollingVariance(s: seq<Option<real>>, window: nat): (r: seq<Option<real>>)
    requires window >= 1
    ensures |r| == |s|
    ensures forall i :: 0 <= i < |s| ==>
      (r[i].Some? <==> window <= i + 1 && AllSome(Trailing(s, window, i)) && window >= 2)
  {
    seq(|s|, i requires 0 <= i < |s| =>
      if i + 1 < window || !AllSome(Trailing(s, window, i)) then None
      else SampleVariance(Values(Trailing(s, window, i))))
  }

  /** `s.rolling(window).mean()`: defined from index `window - 1` on. */
  function RollingMean(s: seq<real>, window: nat): (r: seq<Option<real>>)
    requires window >= 1
    ensures |r| == |s|
    ensures forall i :: 0 <= i < |s| ==> (r[i].Some? <==> i + 1 >= window)
  {
    seq(|s|, i requires 0 <= i < |s| =>
      if i + 1 < window then None else Some(Mean(Trailing(s, window, i))))
  }

  // ---------------------------------------------------------------------
  // The frame and dropna

  /** A ticker's frame: the closes and the three derived columns. */
  datatype Frame = Frame(close: seq<real>, ret: seq<Option<real>>,
                         rollingVar: seq<Option<real>>, ma: seq<Option<real>>)
  {
    predicate WellFormed() {
      |ret| == |close| && |rollingVar| == |close| && |ma| == |close|
    }

    /** Row i has a value in every column. */
    predicate Complete(i: nat)
      requires WellFormed() && i < |close|
    {
      ret[i].Some? && rollingVar[i].Some? && ma[i].Some?
    }
  }

  /** A row kept by `dropna`, with its position in the original frame. */
  datatype Row = Row(index: nat, close: real, ret: real, rollingVar: real, ma: real)

  function RowAt(f: Frame, i: nat): Row
    requires f.WellFormed() && i < |f.close| && f.Complete(i)
  {
    Row(i, f.close[i], f.ret[i].value, f.rollingVar[i].value, f.ma[i].value)
  }

  function IndexSet(rows: seq<Row>): set<nat> {
    set k | 0 <= k < |rows| :: rows[k].index
  }

  predicate StrictlyIncreasing(rows: seq<Row>) {
    forall k, l :: 0 <= k < l < |rows| ==> rows[k].index < rows[l].index
  }

  lemma IndexSetSnoc(rows: seq<Row>, r: Row)
    ensures IndexSet(rows + [r]) == IndexSet(rows) + {r.index}
  {
    var all := rows + [r];
    forall i | i in IndexSet(all) ensures i in IndexSet(rows) + {r.index} {
      var k :| 0 <= k < |all| && all[k].index == i;
      if k < |rows| { assert rows[k] == all[k]; }
    }
    forall i | i in IndexSet(rows) + {r.index} ensures i in IndexSet(all) {
      if i == r.index {
        assert all[|rows|].index == i;
      } else {
        var k :| 0 <= k < |rows| && rows[k].index == i;
        assert all[k].index == i;
      }
    }
  }

  /** `dropna()` restricted to the first n rows: the complete rows, in order. */
  function DropNa(f: Frame, n: nat): (rows: seq<Row>)
    requires f.WellFormed() && n <= |f.close|
    ensures StrictlyIncreasing(rows)
    ensures forall k :: 0 <= k < |rows| ==>
      rows[k].index < n && f.Complete(rows[k].index) && rows[k] == RowAt(f, rows[k].index)
    ensures IndexSet(rows) == set i: nat | i < n && f.Complete(i)
  {
    if n == 0 then []
    else
      var kept := DropNa(f, n - 1);
      if f.Complete(n - 1) then
        var rows := kept + [RowAt(f, n - 1)];
        IndexSetSnoc(kept, RowAt(f, n - 1));
        rows
      else kept
  }

  /** The frame of one ticker once the three columns are assigned. */
  function TickerFrame(p: seq<real>, window: nat): (f: Frame)
    requires window >= 1
    ensures f.WellFormed() && f.close == p
  {
    var ret := PctChange(p);
    Frame(p, ret, RollingVariance(ret, window), RollingMean(p, window))
  }

  /** What a row kept from the frame of closes `p` holds. It sits at index
      `window` or later (return 0 is undefined, so the first full window of
      returns ends at `window`), and its columns are the close, the return
      from the previous close, the sample variance of the `window` returns
      ending there and the mean of the `window` closes ending there. */
  predicate KeptRow(p: seq<real>, window: nat, r: Row) {
    var i := r.index;
    && 2 <= window <= i < |p|
    && AllSome(Trailing(PctChange(p), window, i))
    && p[i - 1] != 0.0
    && r.close == p[i]
    && r.ret == (p[i] - p[i - 1]) / p[i - 1]
    && r.rollingVar == SampleVariance(Values(Trailing(PctChange(p), window, i))).value
    && r.ma == Mean(Trailing(p, window, i))
  }

  /** A complete row of the ticker frame is a kept row as described above. */
  lemma CompleteRowIsKept(p: seq<real>, window: nat, i: nat)
    requires window >= 1 && i < |p|
    requires TickerFrame(p, window).Complete(i)
    ensures window >= 2
    ensures KeptRow(p, window, RowAt(TickerFrame(p, window), i))
  {
  }

  /** `process_ticker`: the frame after `dropna`. */
  function ProcessTicker(p: seq<real>, window: nat): (rows: seq<Row>)
    requires window >= 1
    ensures StrictlyIncreasing(rows)
    ensures |rows| > 0 ==> window >= 2
    ensures forall k :: 0 <= k < |rows| ==> KeptRow(p, window, rows[k])
  {
    var f := TickerFrame(p, window);
    var rows := DropNa(f, |p|);
    assert forall k :: 0 <= k < |rows| ==> KeptRow(p, window, rows[k]) && window >= 2 by {
      forall k | 0 <= k < |rows| ensures KeptRow(p, window, rows[k]) && window >= 2 {
        CompleteRowIsKept(p, window, rows[k].index);
      }
    }
    assert |rows| > 0 ==> KeptRow(p, window, rows[0]);
    rows
  }

  // ---------------------------------------------------------------------
  // Which rows survive

  /** When row i is complete exactly from index w on, dropna keeps exactly
      the rows w, w + 1, ... below n. */
  lemma {:induction false} DropNaSuffix(f: Frame, n: nat, w: nat)
    requires f.WellFormed() && n <= |f.close|
    requires forall i: nat :: i < |f.close| ==> (f.Complete(i) <==> i >= w)
    ensures |DropNa(f, n)| == if n >= w then n - w else 0
    ensures forall k :: 0 <= k < |DropNa(f, n)| ==> DropNa(f, n)[k].index == w + k
  {
    if n > 0 {
      DropNaSuffix(f, n - 1, w);
    }
  }

  /** With non-zero closes and a window of at least 2, the kept rows are
      exactly indices `window .. |p| - 1`: `max(0, |p| - window)` rows. */
  lemma KeptRowsExactly(p: seq<real>, window: nat)
    requires window >= 2 && NonZeroCloses(p)
    ensures |ProcessTicker(p, window)| == if |p| >= window then |p| - window else 0
    ensures forall k :: 0 <= k < |ProcessTicker(p, window)| ==> ProcessTicker(p, window)[k].index == window + k
  {
    var f := TickerFrame(p, window);
    forall i: nat | i < |p| ensures f.Complete(i) <==> i >= window {
      if i >= window {
        var w := Trailing(f.ret, window, i);
        assert forall j :: 0 <= j < |w| ==> w[j] == f.ret[i + 1 - window + j];
      }
    }
    DropNaSuffix(f, |p|, window);
  }

  /** A series no longer than the window leaves an empty frame, not an error. */
  lemma ShortSeriesHasNoRows(p: seq<real>, window: nat)
    requires window >= 1 && |p| <= window
    ensures ProcessTicker(p, window) == []
  {
    var rows := ProcessTicker(p, window);
    assert |rows| > 0 ==> !KeptRow(p, window, rows[0]);
  }

  /** With `window == 1` the sample standard deviation of one return is
      undefined, so dropna removes every row. */
  lemma UnitWindowHasNoRows(p: seq<real>)
    ensures ProcessTicker(p, 1) == []
  {
  }

  // ---------------------------------------------------------------------
  // Global dispersion and the ticker's risk band

  /** `df['Return']` after dropna. */
  function TrimmedReturns(rows: seq<Row>): (rs: seq<real>)
    ensures |rs| == |rows|
    ensures forall k :: 0 <= k < |rows| ==> rs[k] == rows[k].ret
  {
    seq(|rows|, k requires 0 <= k < |rows| => rows[k].ret)
  }

  /** `df['Return']` of one ticker's processed frame: each entry is the
      simple return into the close of its row, and with non-zero closes
      they are exactly the returns into closes `window .. |p| - 1`. */
  function TickerReturns(p: seq<real>, window: nat): (rs: seq<real>)
    requires window >= 1
    ensures |rs| == |ProcessTicker(p, window)|
    ensures forall k :: 0 <= k < |rs| ==>
      var i := ProcessTicker(p, window)[k].index;
      && window <= i < |p|
      && p[i - 1] != 0.0
      && rs[k] == (p[i] - p[i - 1]) / p[i - 1]
    ensures NonZeroCloses(p) && window >= 2 && |p| >= window ==> rs == Returns(p)[window - 1..]
  {
    var rs := TrimmedReturns(ProcessTicker(p, window));
    if NonZeroCloses(p) && window >= 2 && |p| >= window then
      TrimmedReturnsAreLateReturns(p, window);
      rs
    else rs
  }

  /** The global statistics use only the returns that survive dropna: the
      returns into closes `window .. |p| - 1`, not all of them. */
  lemma TrimmedReturnsAreLateReturns(p: seq<real>, window: nat)
    requires window >= 2 && NonZeroCloses(p) && |p| >= window
    ensures TrimmedReturns(ProcessTicker(p, window)) == Returns(p)[window - 1..]
  {
    KeptRowsExactly(p, window);
  }

  /** The band of the standard deviation belonging to variance `v`, decided
      from `v` without taking a square root. */
  function ClassifyStdDev(v: real, low: real, medium: real): (r: Risk)
    requires v >= 0.0
    ensures forall sd :: IsStdDev(sd, v) ==> r == Classify(sd, low, medium)
  {
    if ExceedsRoot(v, medium) then High
    else if ExceedsRoot(v, low) then Medium
    else Low
  }

  /** The figures reported for one ticker: the variance of its trimmed
      returns (undefined below two returns) and the risk band of the
      standard deviation belonging to it. */
  datatype TickerMetrics = TickerMetrics(variance: Option<real>, risk: Risk)

  /** Lines 170-173 of the per-ticker loop, applied to the frame that
      `process_ticker` returned. An SD over fewer than two returns is NaN in
      pandas; every comparison with NaN is false, so it lands in Low. */
  function Metrics(rows: seq<Row>, low: real, medium: real): (m: TickerMetrics)
    ensures m.variance.Some? <==> |rows| >= 2
    ensures m.variance.Some? ==>
      && m.variance == SampleVariance(TrimmedReturns(rows))
      && m.variance.value >= 0.0
      && forall sd :: IsStdDev(sd, m.variance.value) ==> m.risk == Classify(sd, low, medium)
    ensures m.variance.None? ==> m.risk == Low
  {
    match SampleVariance(TrimmedReturns(rows))
    case None => TickerMetrics(None, Low)
    case Some(v) => TickerMetrics(Some(v), ClassifyStdDev(v, low, medium))
  }

  /** The global variance is zero exactly when every surviving return is the
      same, and then so is the SD, which puts the ticker in Low whenever the
      thresholds are non-negative. */
  lemma {:induction false} ConstantReturnsAreLowRisk(rows: seq<Row>, low: real, medium: real, sd: real)
    requires |rows| >= 2
    requires AllEqual(TrimmedReturns(rows))
    requires 0.0 <= low && 0.0 <= medium
    requires IsStdDev(sd, Metrics(rows, low, medium).variance.value)
    ensures sd == 0.0
    ensures Metrics(rows, low, medium).risk == Low
  {
    VarianceZeroIffAllEqual(TrimmedReturns(rows), 1);
    StdDevZeroIff(sd, Metrics(rows, low, medium).variance.value);
  }

  /** The per-ticker variance is taken over the ticker's return column. */
  lemma MetricsOfTickerReturns(p: seq<real>, window: nat, low: real, medium: real)
    requires window >= 1
    ensures Metrics(ProcessTicker(p, window), low, medium).variance
         == SampleVariance(TickerReturns(p, window))
  {
  }

  /** A series no longer than the window leaves an empty frame, whose SD is
      undefined: the ticker is reported Low rather than rejected. */
  lemma ShortSeriesIsLow(p: seq<real>, window: nat, low: real, medium: real)
    requires window >= 1 && |p| <= window
    ensures Metrics(ProcessTicker(p, window), low, medium) == TickerMetrics(None, Low)
  {
    ShortSeriesHasNoRows(p, window);
  }

  // ---------------------------------------------------------------------
  // Cross-asset alignment

  /** `pd.concat(returns, axis=1).dropna()`: the rows present in every
      ticker's frame. */
  function AlignedIndices(frames: seq<seq<Row>>): (common: set<nat>)
    requires |frames| > 0
    ensures forall i :: i in common <==> forall k :: 0 <= k < |frames| ==> i in IndexSet(frames[k])
  {
    if |frames| == 1 then IndexSet(frames[0])
    else
      var rest := AlignedIndices(frames[1..]);
      assert forall k :: 1 <= k < |frames| ==> frames[k] == frames[1..][k - 1];
      IndexSet(frames[0]) * rest
  }

  /** With non-zero closes and a window of at least 2, the kept positions
      are exactly `window .. |p| - 1`. */
  lemma KeptIndexSet(p: seq<real>, window: nat)
    requires window >= 2 && NonZeroCloses(p)
    ensures forall i: nat :: i in IndexSet(ProcessTicker(p, window)) <==> window <= i < |p|
  {
    var rows := ProcessTicker(p, window);
    KeptRowsExactly(p, window);
    forall i: nat | window <= i < |p| ensures i in IndexSet(rows) {
      assert rows[i - window].index == i;
    }
  }

  /** The frames of all selected tickers, in selection order. */
  function ProcessTickers(ps: seq<seq<real>>, window: nat): (frames: seq<seq<Row>>)
    requires window >= 1
    ensures |frames| == |ps|
    ensures forall k :: 0 <= k < |ps| ==> frames[k] == ProcessTicker(ps[k], window)
    ensures forall k :: 0 <= k < |ps| ==>
      && StrictlyIncreasing(frames[k])
      && forall j :: 0 <= j < |frames[k]| ==> KeptRow(ps[k], window, frames[k][j])
  {
    seq(|ps|, k requires 0 <= k < |ps| => ProcessTicker(ps[k], window))
  }

  /** Tickers with the same number of non-zero closes line up on exactly the
      positions each of them keeps, so the joined return table loses no row. */
  lemma AlignedCommonHistory(ps: seq<seq<real>>, window: nat, n: nat)
    requires |ps| > 0 && window >= 2
    requires forall k :: 0 <= k < |ps| ==> |ps[k]| == n && NonZeroCloses(ps[k])
    ensures forall i: nat :: i in AlignedIndices(ProcessTickers(ps, window)) <==> window <= i < n
  {
    var frames := ProcessTickers(ps, window);
    forall k | 0 <= k < |ps|
      ensures forall i: nat :: i in IndexSet(frames[k]) <==> window <= i < n
    {
      KeptIndexSet(ps[k], window);
    }
    assert forall i: nat :: i in IndexSet(frames[0]) <==> window <= i < n;
  }

  /** The example price series 100, 102, 101, 105 has returns
      0.02, -1/102 and 4/101 after the undefined first entry. */
  lemma ReturnsExample()
    ensures PctChange([100.0, 102.0, 101.0, 105.0])
         == [None, Some(0.02), Some(-1.0 / 102.0), Some(4.0 / 101.0)]
  {
  }
}
