# Korean market-cap screener: indicator core in Dafny

This project models the computational core of a Streamlit dashboard (app.py). The dashboard:

- takes the 50 largest companies by market capitalisation across KOSPI and KOSDAQ;
- computes three technical indicators from each company's daily closes:
  - 14-day RSI;
  - Bollinger %B and band width, over 20 days with 2 standard deviations;
  - the band width's 52-week average;
- filters the result table by up to three optional criteria.

Everything outside that core is represented by parameters:

- **Market data.** The market-cap snapshot, the ticker-name lookup and the per-ticker price history are function parameters. A failure is modelled as `None`.
- **Square root.** The standard deviation's square root is a function parameter `sqrt`. Proofs that need it require `Bollinger.IsSqrt(sqrt)`: for every `x >= 0`, `sqrt(x)` is non-negative and squares back to `x`.
- **Floating point.** pandas values are modelled over the reals, extended with `+inf`, `-inf` and `NaN` (`ExtReal.Ext`). This keeps the program's division-by-zero paths exact:
  - `0/0` is `NaN`;
  - `x/0` is `±inf`;
  - a comparison with `NaN` is false;
  - `NaN` is skipped by `mean`.

Modules:

| file | module | models |
|---|---|---|
| wrappers.dfy | `Wrappers` | `Option`, `Min` |
| stats.dfy | `Stats` | sums, means, rolling windows, sample variance (divisor n-1), min/max |
| ext_real.dfy | `ExtReal` | IEEE-like values over the reals, `isna` fallback, NaN-skipping mean |
| rsi.dfy | `Rsi` | `calculate_rsi`: simple rolling means of gains and losses |
| bollinger.dfy | `Bollinger` | `calculate_bollinger_bands`: bands, %B, band width |
| technical.dfy | `Technical` | `calculate_technical_indicators` on a close series |
| universe.dfy | `Universe` | `get_market_cap_top50`: concat, `nlargest(50)`, names |
| result_filter.dfy | `ResultFilter` | the three sidebar filters applied in sequence |
| dashboard.dfy | `Dashboard` | the data path of `main`: universe, rows, filtered view |

Behaviour of the code worth knowing:

- **RSI averaging.** RSI averages gains and losses with a simple 14-bar rolling mean.
- **Tie order.** Ties in market cap keep input order, with KOSPI before KOSDAQ (`nlargest` with `keep='first'`).
- **Fallback name.** A failed name lookup yields `"종목" + ticker`.
- **NaN reported as 0.** An undefined RSI, %B, band width or 52-week average is reported as `0`.
- **52-week window.** With 252 to 270 closes, the last 252 band widths still include some of the 19 warm-up NaNs. pandas skips them, so the average covers every defined width rather than 252 of them.

## Model

| member | source | states |
|---|---|---|
| Stats.VarianceZeroIffFlat | app.py:74 | the sample variance of a window is non-negative, and zero exactly when all its values are equal |
| ExtReal.NanToZero | app.py:89 | the `isna` fallback never yields NaN; it replaces NaN by 0 and leaves every other value unchanged |
| ExtReal.NanMeanSkipsNaNPrefix | app.py:96-98 | leading NaN entries do not change pandas' mean |
| ExtReal.NanMeanFinite | app.py:96-98 | over finite entries, pandas' mean is the arithmetic mean of their values |
| ExtReal.NanMeanBetween | app.py:96-98 | over finite entries, the mean lies between their minimum and maximum |
| Rsi.Gains | app.py:62-63 | the gain series is non-negative, and positive exactly at the bars whose close rose; the first bar counts as zero |
| Rsi.Losses | app.py:62-64 | the loss series is non-negative, and positive exactly at the bars whose close fell |
| Rsi.AverageGainZeroIff | app.py:63 | the 14-bar average gain is non-negative, and zero exactly when no close in the window rose |
| Rsi.AverageLossZeroIff | app.py:64 | the 14-bar average loss is non-negative, and zero exactly when no close in the window fell |
| Rsi.RatioForm | app.py:65-66 | with positive average loss, `100 - 100/(1 + g/l)` equals `100*g/(g+l)` |
| Rsi.RatioBounds | app.py:65-66 | with positive average loss, `100*g/(g+l)` lies in [0, 100) and is zero exactly when the average gain is zero |
| Rsi.ZeroLossForm | app.py:65-66 | with zero average loss, the RSI is 100 when the average gain is positive, and NaN (0/0) when it is zero |
| Rsi.RsiClassicalForm | app.py:61-67 | with positive average loss, the RSI at a bar is the classical `100*gain/(gain+loss)` of the 14-bar averages |
| Rsi.RsiInRange | app.py:61-67 | the RSI at a bar is NaN (window not full or flat) or a number in [0, 100] |
| Rsi.RsiNaNIffFlat | app.py:61-67 | on a full window, the RSI is NaN exactly when no close rose and none fell |
| Rsi.RsiHundredIff | app.py:61-67 | on a full window, the RSI is 100 exactly when some close rose and none fell |
| Rsi.RsiZeroIff | app.py:61-67 | on a full window, the RSI is 0 exactly when some close fell and none rose |
| Rsi.RsiRisingSeries | app.py:61-67 | a strictly rising series has RSI 100 |
| Rsi.RsiFallingSeries | app.py:61-67 | a strictly falling series has RSI 0 |
| Bollinger.SqrtZeroIff | app.py:74 | the square root is non-negative and zero exactly at zero |
| Bollinger.BandsAtFullWindow | app.py:72-76 | on a full 20-bar window, the middle band is the window mean and sigma is the non-negative square root of the sample variance; sigma is zero exactly when the window is flat |
| Bollinger.PercentBReference | app.py:79 | with open bands, %B is `0.5 + (price - middle)/(4*sigma)` |
| Bollinger.PercentBLandmarks | app.py:79 | with open bands, %B is 0 at the lower band, 0.5 at the middle and 1 at the upper band |
| Bollinger.PercentBMonotone | app.py:79 | with open bands, %B is finite and strictly increasing in the price |
| Bollinger.BandWidthReference | app.py:82 | with a non-zero middle, the band width is `4*sigma/middle`, non-negative when the middle is positive |
| Bollinger.CollapsedBands | app.py:79-92 | with sigma 0 and the price at the middle, %B is NaN (0/0), and the width after the fallback is 0 |
| Bollinger.OpenBands | app.py:82-92 | with sigma positive, the width after the fallback is never 0 |
| Bollinger.FlatWindowReportsZero | app.py:72-92 | the reported width is 0 exactly when the last 20 closes are equal, and then the reported %B is 0 too |
| Bollinger.PositiveWindowWidth | app.py:82 | over positive closes, the band width is a finite non-negative number |
| Bollinger.BandWidthSeries | app.py:73-82 | the band-width column has one entry per close: NaN for the first 19 bars, and afterwards `4*sigma/mean` of the trailing 20-close window under IEEE division |
| Bollinger.BandWidthNaNIffZeroWindow | app.py:73-82 | after the warm-up, a band-width entry is NaN (0/0) exactly when all 20 closes of its window are 0 |
| Technical.CalculateIndicators | app.py:54-106 | no result exactly when there are fewer than 20 closes; otherwise the current price is the last close and no reported value is NaN |
| Technical.ReportedRsi | app.py:61-102 | the reported RSI is a number in [0, 100]; it is 0 iff no close rose in the last 14 bars, and 100 iff some rose and none fell |
| Technical.ReportedFlatBands | app.py:72-92 | the reported width is 0 iff the 20 closes of the last window are all equal, and then the reported %B is 0 |
| Technical.ReportedWidthOfPositiveCloses | app.py:72-92 | over positive closes, the reported width is a finite non-negative number |
| Technical.Avg52wCoversLatestYear | app.py:95-98 | the 52-week average is the mean of the last min(252, n-19) band widths, so the 19 warm-up NaNs never count |
| Technical.Avg52wOfPositiveCloses | app.py:95-105 | over positive closes, the 52-week average is a finite mean lying between the smallest and the largest averaged width |
| Universe.SortIsSorted | app.py:22 | the ranking is in descending order of market cap |
| Universe.SortByCapDesc | app.py:22 | the ranking is a permutation of the listings |
| Universe.SortIsStable | app.py:22 | listings of equal cap keep their input order in the ranking |
| Universe.InsertKeepsTies | app.py:22 | an inserted listing precedes the listings of equal cap, which keep their order |
| Universe.NLargestSelectsLargest | app.py:21-22 | `nlargest(k)` keeps min(k, n) listings from the input, and no listing left out has a larger cap than a selected one |
| Universe.NLargestIsSorted | app.py:22 | the selected listings are in descending order of cap |
| Universe.AttachNames | app.py:24-34 | one stock per selected listing, keeping its ticker and cap, named by the lookup or the fallback |
| Universe.NamesNeverDrop | app.py:25-34 | a failed name lookup yields `"종목" + ticker` and never drops the ticker |
| Universe.MarketCapTop50 | app.py:14-38 | a failed snapshot gives an empty universe; otherwise the universe has min(50, listings) stocks |
| Universe.UniverseIsTopByCap | app.py:21-35 | the universe holds at most 50 stocks, in descending cap order, none outranked by a listing left out |
| ResultFilter.ActiveCriteria | app.py:201-218 | each criterion is active exactly when its sidebar option is chosen; none is active iff no option is chosen |
| ResultFilter.FilterByMembership | app.py:203-216 | one mask keeps a row exactly when the row meets the criterion |
| ResultFilter.KeepAllAfterFilter | app.py:201-218 | filtering the survivors of one mask by the remaining criteria equals one pass over all criteria |
| ResultFilter.SequentialIsConjunction | app.py:201-218 | the masks applied one after another keep exactly the rows meeting all of them |
| ResultFilter.KeepAllNone | app.py:201-202 | with no option chosen, the table is unchanged |
| ResultFilter.KeepAllOrderIndependent | app.py:201-218 | only the set of chosen criteria matters, not their order |
| ResultFilter.KeepAllMembership | app.py:201-218 | a row is kept exactly when it is in the table and meets every chosen criterion |
| ResultFilter.KeepAllIsSubsequence | app.py:201-218 | the kept rows keep the order of the full table |
| ResultFilter.FilterOptions | app.py:201-218 | under the three options, a row is kept iff every chosen bound holds (RSI < 40, %B < 0.5, width < 52-week average); the result is a subsequence of the table |
| Dashboard.IndicatorsFor | app.py:52-55 | a ticker has no indicators when its history cannot be fetched, or exactly when it has fewer than 20 closes |
| Dashboard.BuildRowsMembership | app.py:164-185 | a row exists exactly for each universe stock whose indicators were computed, carrying its ticker, name, cap and indicators |
| Dashboard.BuildRowsEmptyIff | app.py:164-196 | the result table is empty exactly when no stock's indicators could be computed |
| Dashboard.ScreenOutcomes | app.py:150-228 | an empty universe shows the load error; a universe without computed rows shows the no-results error; otherwise a non-empty table, marked as filtered iff an option is chosen, all of it shown when none is |
| Dashboard.NothingComputedIffShortHistories | app.py:52-55 | no universe stock has indicators exactly when every history is missing or shorter than 20 closes |
| Dashboard.RunOutcomes | app.py:14-196 | a page load shows the load error iff the snapshot is missing or lists nothing, the no-results error iff no universe ticker has a fetchable history of at least 20 closes, and otherwise at most 50 rows |
| Dashboard.ShownRows | app.py:164-218 | a row is shown iff it comes from a universe stock with computed indicators and meets every chosen bound; shown rows keep table order |

## Left out

- Streamlit UI: the layout, sidebar widgets, spinner, progress bar, expanders, the download button and the refresh button. They only render state.
- Caching (`st.cache_data` with TTLs of 1 and 0.5 hours) and `st.rerun`. They do not change computed values within one run.
- Formatting of the displayed strings: thousands separators, 2 or 4 decimals, and dropping the `_raw` columns. These are presentation only. The model keeps the raw values the filters use.
- CSV export (`to_csv` with `utf-8-sig`), which is serialisation only.
- The clock: the date strings sent to pykrx and the "last updated" time. The price history is a parameter, with the 352-day request window left to the caller.
- `time.sleep(0.1)` between tickers, which rate-limits the data provider only.
- pykrx network calls, which are parameters: the snapshot (`None` when fetching fails), the name lookup (`None` when it raises) and the history (`None` when fetching raises).
- Exceptions inside the indicator computation other than a failed fetch. On finite input the modelled arithmetic cannot raise.
- IEEE rounding, signed zeros and overflow to infinity. Values are exact reals extended with infinities and NaN.
- The square root, which is a parameter constrained by `Bollinger.IsSqrt`; floating-point `sqrt` is not modelled.
- The 64-bit width of the market-cap column: caps are unbounded integers, since ranking never overflows.
- flask_app (8).py: a separate Flask app for a fixed list of U.S. tickers, with a stochastic oscillator, moving averages, the Fear & Greed index and VIX. It is not part of this model.
