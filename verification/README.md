# SD-VARIANCE risk core in Dafny

This project models the computational kernel of two small Streamlit apps,
over exact `real` arithmetic instead of float64:

- **stock.py** (stock volatility analyser). For each selected ticker,
  `process_ticker` computes three columns: simple returns of the closes
  (`pct_change`), a trailing rolling standard deviation of those returns,
  and a trailing moving average of the closes. It then drops every row with
  an undefined entry (`dropna`). The sample (ddof = 1) standard deviation
  and variance of the surviving returns are computed. `risk_assessment`
  maps the SD to Low, Medium or High using the `low` and `medium` sliders.
  The returns of all tickers are joined on their common rows.
- **tolerance.py** (engineering tolerances). The text area is split on
  commas and every token is parsed as a number. From two values on, the
  population variance (`np.var`, ddof = 0) is computed. `risk_assessment`
  maps it to Low, Medium or High Risk using the `low` and `high` variance
  limits.

Both `risk_assessment` functions have the same shape. They are modelled
once, as `RiskBands.Classify`.

Modules, one per component:

- `Wrappers` (wrappers.dfy): `Option`, used for values that pandas or numpy
  would report as NaN.
- `RiskBands` (risk_bands.dfy): the `Risk` bands, the classifier, and its
  band, boundary, monotonicity and misordered-threshold properties.
- `Dispersion` (dispersion.dfy): sum, mean, the two-pass variance with
  `ddof`, its one-pass reference formula, and its zero and non-negativity
  properties. The standard deviation is the relation `IsStdDev(sd, v)`:
  `sd >= 0 && sd * sd == v`.
- `Stock` (stock.py's kernel): returns, rolling statistics, the frame and
  `dropna`, the per-ticker report, and the cross-ticker row alignment.
- `Tolerance` (tolerance.py's kernel): `split(',')` and its inverse `join`,
  parsing of all tokens, and the assessment shown for an input.

Square roots are not computed. Every non-negative real has a square root,
but the verifier cannot establish `exists r :: r >= 0 && r * r == v` on its
own, so the standard deviation is kept as the relation `IsStdDev`. The
SD's risk band is decided from the variance (`Dispersion.ExceedsRoot`,
`Stock.ClassifyStdDev`). The contracts say the answer agrees with
`Classify` for every `sd` with `IsStdDev(sd, v)`. For the same reason, the
rolling-volatility column is carried as its square, the rolling sample
variance.

Undefined values are `None`: the first return, incomplete windows, and
statistics over too few values. A ticker whose trimmed frame has fewer than
two returns has a NaN SD. Every comparison with NaN is false, so stock.py
shows it as Low. `Stock.Metrics` models exactly that.

Consequences of the code worth stating:

- Over exact reals, the population variance of 10.02, 10.05, 10.03, 9.98,
  10.00 is 0.000584, which is Medium Risk under the default limits
  (`Tolerance.WorkedExample`). The three values of the input hint, 10.02,
  10.05, 10.03, have variance 7/45000, which is Low Risk
  (`Tolerance.HintExample`).
- A series no longer than the window gives an empty frame and is reported
  Low, not rejected (`Stock.ShortSeriesIsLow`).
- `dropna` removes the first `window` rows, not `window - 1`, because
  return 0 is undefined (`Stock.KeptRowsExactly`).

## Model

| member | source | states |
|---|---|---|
| RiskBands.Classify | stock.py:138-142 | With ordered thresholds, the band's rank is the number of thresholds the value strictly exceeds. For any thresholds, the band is High exactly when the value exceeds the upper threshold. |
| RiskBands.ClassifyMatchesBands | tolerance.py:86-92 | With `low <= high`, the classifier returns a band exactly when the value lies in that band as documented to the user: Low ≤ low < Medium ≤ high < High. |
| RiskBands.ClassifyBoundaries | stock.py:140-141 | The comparisons are strict. A value equal to `low` is Low. A value equal to `medium` is Medium when `low < medium`. Just above `low` is Medium, and just above `medium` is High. |
| RiskBands.ClassifyMonotone | tolerance.py:86-92 | With `low <= high`, a larger dispersion never gets a lower band. |
| RiskBands.ClassifyMisordered | stock.py:140-142 | When the unordered sliders give `low >= medium`, Medium is never returned: the answer is High above `medium` and Low otherwise. |
| RiskBands.ZeroDispersionIsLow | tolerance.py:88-92 | Zero dispersion is Low under any non-negative thresholds, which is what the sliders allow. |
| Dispersion.Variance | tolerance.py:84 | The variance with `ddof` is defined exactly when there are more than `ddof` values, and it is never negative. |
| Dispersion.PopulationVariance | tolerance.py:82-84 | `np.var` is defined for every non-empty sample and is non-negative. |
| Dispersion.SampleVariance | stock.py:171 | `Series.var()` (ddof = 1) is defined from two values on and is non-negative. |
| Dispersion.SumSquaredDeviationsNonNegative | tolerance.py:84 | The sum of squared deviations from any centre is at least zero. |
| Dispersion.SumSquaredDeviationsZeroIff | tolerance.py:84 | The squared deviations from `m` sum to zero if and only if every value equals `m`. |
| Dispersion.VarianceZeroIffAllEqual | tolerance.py:84 | For any `ddof`, the variance is zero if and only if all values are equal. |
| Dispersion.VarianceOnePass | tolerance.py:84 | The two-pass variance Σ(x − mean)²/(n − ddof) equals the independent one-pass formula (Σx² − (Σx)²/n)/(n − ddof). |
| Dispersion.SampleFromPopulation | stock.py:171 | Sample variance times (n − 1) equals population variance times n. |
| Dispersion.ExceedsRoot | stock.py:170 | Decides from the variance alone whether its standard deviation strictly exceeds a threshold, for every `sd` with `sd ≥ 0 ∧ sd·sd = v`. |
| Dispersion.StdDevUnique | stock.py:170 | A variance has at most one non-negative square root, so the SD is well defined by `sd ≥ 0 ∧ sd·sd = v`. |
| Dispersion.StdDevZeroIff | stock.py:170-171 | The SD is zero exactly when its variance is zero. |
| Stock.PctChange | stock.py:133 | Returns have one entry per close. Entry 0 is undefined. Entry i ≥ 1 is defined exactly when the previous close is non-zero. |
| Stock.Returns | stock.py:133 | With non-zero closes, entry i ≥ 1 of `pct_change` is `(p[i] − p[i−1]) / p[i−1]`. |
| Stock.CompoundReturns | stock.py:133 | Compounding the returns from the first close rebuilds the exact price series: the returns lose no information. |
| Stock.RollingVariance | stock.py:134 | The rolling statistic at i is defined exactly when a full window ends at i, every entry in it is defined, and `window ≥ 2` (ddof = 1). |
| Stock.RollingMean | stock.py:135 | The moving average at i is defined exactly when `i ≥ window − 1`. |
| Stock.TickerFrame | stock.py:132-135 | The frame keeps the closes unchanged and has all three derived columns aligned with them. |
| Stock.DropNa | stock.py:136 | `dropna` keeps exactly the rows complete in every modelled column, in their original order, each carrying its own values. |
| Stock.CompleteRowIsKept | stock.py:133-136 | A complete row sits at index `window` or later. Its volatility is the sample statistic of returns `i−window+1..i`, and its MA is the mean of closes `i−window+1..i`. |
| Stock.ProcessTicker | stock.py:130-136 | Every kept row has the shape stated by `CompleteRowIsKept`. Rows are in increasing order, and a non-empty result needs `window ≥ 2`. |
| Stock.DropNaSuffix | stock.py:136 | If rows are complete exactly from index w on, `dropna` keeps exactly rows w, w+1, …. |
| Stock.KeptRowsExactly | stock.py:133-136 | With non-zero closes and `window ≥ 2`, the kept rows are exactly indices `window..n−1`. There are `max(0, n − window)` of them. |
| Stock.KeptIndexSet | stock.py:136 | With non-zero closes and `window ≥ 2`, the set of kept positions is exactly `[window, n)`. |
| Stock.ShortSeriesHasNoRows | stock.py:134-136 | A series no longer than the window yields an empty frame, not an error. |
| Stock.UnitWindowHasNoRows | stock.py:134-136 | With `window = 1`, the ddof = 1 rolling SD is always undefined, so `dropna` removes every row. |
| Stock.TickerReturns | stock.py:169-170 | Each entry of a ticker's `df['Return']` after `dropna` is the simple return into the close of its row, from a row at index `window` or later whose previous close is non-zero. With non-zero closes and `window ≥ 2`, the column is exactly the returns into closes `window..n−1`. |
| Stock.TrimmedReturnsAreLateReturns | stock.py:169-171 | The global SD and variance use only the returns into closes `window..n−1`, not all returns. |
| Stock.MetricsOfTickerReturns | stock.py:169-171 | The per-ticker variance is the sample variance of the ticker's return column after `dropna`, the column `TickerReturns` characterises. |
| Stock.ClassifyStdDev | stock.py:173 | The band computed from the variance equals `risk_assessment` of every standard deviation of that variance. |
| Stock.Metrics | stock.py:170-173 | Per ticker: the sample variance of the trimmed returns, defined exactly from two kept rows and non-negative. The risk is the band of every SD of that variance, or Low when the SD is NaN. |
| Stock.ShortSeriesIsLow | stock.py:169-173 | A series no longer than the window has no variance and is reported Low instead of failing. |
| Stock.ConstantReturnsAreLowRisk | stock.py:170-173 | When all kept returns are equal, the SD is zero and the ticker is Low under non-negative thresholds. |
| Stock.ProcessTickers | stock.py:168-169 | The loop over the selected tickers produces one frame per ticker, in selection order. Each frame's rows are in increasing order and each row is a kept row of that ticker's closes, as `CompleteRowIsKept` states. |
| Stock.AlignedIndices | stock.py:228 | The joined return table keeps a row exactly when every ticker's frame has it. |
| Stock.AlignedCommonHistory | stock.py:228 | Tickers with equally long, non-zero close histories align on exactly `[window, n)`, so the join loses no row. |
| Stock.ReturnsExample | stock.py:133 | For closes 100, 102, 101, 105 the returns are undefined, 0.02, −1/102 and 4/101. |
| Tolerance.Split | tolerance.py:106 | `split(',')` yields one more piece than there are commas, and no piece contains a comma. |
| Tolerance.JoinSplit | tolerance.py:106 | Joining the pieces with commas gives back the original text. |
| Tolerance.SplitJoin | tolerance.py:106 | Splitting comma-free pieces joined by commas gives back the pieces. |
| Tolerance.ParseAll | tolerance.py:106 | The token list is accepted if and only if every token parses. An accepted list holds each token's number, in order, one per token. |
| Tolerance.MeasurementCount | tolerance.py:106 | An accepted input has exactly one value per comma, plus one. |
| Tolerance.Assess | tolerance.py:104-131 | Empty input shows nothing. Input is rejected exactly when some token fails to parse. Fewer than two values gives the warning and no variance. Otherwise the result is the non-negative population variance and its band. |
| Tolerance.IdenticalMeasurementsAreLowRisk | tolerance.py:107-111 | Two or more identical measurements have variance 0 and are Low Risk under non-negative limits. |
| Tolerance.WorkedExample | tolerance.py:82-92 | Over exact reals, the five values 10.02, 10.05, 10.03, 9.98, 10.00 have population variance 0.000584, which is Medium Risk under the default limits 0.0004 and 0.0016. |
| Tolerance.HintExample | tolerance.py:101 | The input hint's measurements 10.02, 10.05, 10.03 have population variance exactly 7/45000 over reals, which is Low Risk under the default limits 0.0004 and 0.0016. |

## Left out

- Streamlit layout, CSS, sidebars, expanders, tabs, Plotly charts and histograms: presentation only.
- Market-data download (`yf.download`) and its one-hour `st.cache_data` memoisation: network I/O and a clock. The model takes each ticker's closes as a `seq<real>`.
- The `KeyError` path for a ticker missing from the download: data I/O, not modelled.
- The empty-selection branch (`if tickers:` … `else: st.info(...)`): it only shows a prompt and touches no data, so it is UI.
- The Gemini prompt and API call: an external, credential-gated service.
- The correlation matrix (`returns_df.corr()`): only the row alignment of the joined return table is modelled (`Stock.AlignedIndices`). Positions stand for the shared date index of the download.
- The other downloaded columns (Open, High, Low, Volume) and missing values in any downloaded column: `df.dropna()` also drops a row with NaN in one of them, but every downloaded column is modelled as always present and only Close is carried. `pct_change`'s forward filling of missing closes is left out for the same reason.
- Float64 artefacts: rounding, the `:.4f`/`:.6f` formatting, and tokens such as `nan` or `inf` that Python's `float` accepts. The grammar of `float` itself is an abstract `parse` parameter.
- Stock.PctChange: a return from a zero close is `±inf` or NaN in float64, while the model makes it undefined. pandas' rolling statistics treat `inf` as missing, so the rolling volatility of every window holding such a return is NaN and `dropna` removes those rows. The kept rows are the same either way; only the Return column's value before `dropna` differs.
- Stock.RollingVariance: it carries the square of the rolling-volatility column, not the SD itself, because square roots are not computed.
- Stock.Metrics: the reported SD is stated as every `sd` with `sd ≥ 0 ∧ sd·sd = variance`, not computed.
