/**
 * `calculate_technical_indicators` of app.py: from one ticker's daily
 * closes, the current price, the latest RSI, %B and band width, and the
 * 52-week average band width, each NaN reported as 0; no result at all
 * when fewer than 20 closes are available.
 */
module Technical {
  import opened Wrappers
  import opened ExtReal
  import opened Stats
  import Rsi
  import Bollinger

  /** Fewer closes than this and the program returns None. */
  const MinHistory: nat := 20
  /** Trading days in 52 weeks: the span of the band-width average. */
  const YearBars: nat := 252

  datatype Indicators = Indicators(
    currentPrice: real,
    rsi: Ext,
    percentB: Ext,
    bandWidth: Ext,
    avg52wBandWidth: Ext)

  /** `band_width.tail(252).mean()` when the column has 252 entries or more, else `band_width.mean()`. */
  function Avg52wBandWidth(p: seq<real>, sqrt: real -> real): Ext
  {
    var bw := Bollinger.BandWidthSeries(p, sqrt);
    if |bw| >= YearBars then NanMean(bw[|bw| - YearBars..]) else NanMean(bw)
  }

  function CalculateIndicators(closes: seq<real>, sqrt: real -> real): (r: Option<Indicators>)
    ensures r.None? <==> |closes| < MinHistory
    ensures r.Some? ==> r.value.currentPrice == closes[|closes| - 1]
    ensures r.Some? ==>
      && !r.value.rsi.NaN? && !r.value.percentB.NaN?
      && !r.value.bandWidth.NaN? && !r.value.avg52wBandWidth.NaN?
  {
    if |closes| == 0 || |closes| < MinHistory then None
    else
      var last := |closes| - 1;
      Some(Indicators(
        closes[last],
        NanToZero(Rsi.RsiAt(closes, last)),
        NanToZero(Bollinger.PercentBAt(closes, last, sqrt)),
        NanToZero(Bollinger.BandWidthAt(closes, last, sqrt)),
        NanToZero(Avg52wBandWidth(closes, sqrt))))
  }

  /**
   * The reported RSI is a number in [0, 100]; it is 0 exactly when none of
   * the last 14 bars rose (a flat window included, whose NaN reads as 0),
   * and 100 exactly when some rose and none fell.
   */
  lemma ReportedRsi(closes: seq<real>, sqrt: real -> real)
    requires |closes| >= MinHistory
    ensures CalculateIndicators(closes, sqrt).Some?
    ensures var rsi := CalculateIndicators(closes, sqrt).value.rsi;
      && rsi.Fin? && 0.0 <= rsi.v <= 100.0
      && (rsi == Fin(0.0) <==> Rsi.NoRiseIn(closes, |closes| - 1))
      && (rsi == Fin(100.0) <==> Rsi.NoFallIn(closes, |closes| - 1) && !Rsi.NoRiseIn(closes, |closes| - 1))
  {
    var last := |closes| - 1;
    Rsi.RsiInRange(closes, last);
    Rsi.RsiNaNIffFlat(closes, last);
    Rsi.RsiZeroIff(closes, last);
    Rsi.RsiHundredIff(closes, last);
  }

  /**
   * The reported band width is 0 exactly when the last 20 closes are all
   * equal, and then the reported %B is 0 too.
   */
  lemma ReportedFlatBands(closes: seq<real>, sqrt: real -> real)
    requires Bollinger.IsSqrt(sqrt)
    requires |closes| >= MinHistory
    ensures CalculateIndicators(closes, sqrt).Some?
    ensures var r := CalculateIndicators(closes, sqrt).value;
      && (r.bandWidth == Fin(0.0) <==> AllEqual(Stats.Window(closes, |closes| - 1, Bollinger.Period)))
      && (AllEqual(Stats.Window(closes, |closes| - 1, Bollinger.Period)) ==> r.percentB == Fin(0.0))
  {
    var last := |closes| - 1;
    Bollinger.FlatWindowReportsZero(closes, last, sqrt);
  }

  /** Over positive closes the reported band width is a finite non-negative number. */
  lemma ReportedWidthOfPositiveCloses(closes: seq<real>, sqrt: real -> real)
    requires Bollinger.IsSqrt(sqrt)
    requires |closes| >= MinHistory
    requires forall j :: |closes| - MinHistory <= j < |closes| ==> closes[j] > 0.0
    ensures CalculateIndicators(closes, sqrt).Some?
    ensures var w := CalculateIndicators(closes, sqrt).value.bandWidth;
      w.Fin? && w.v >= 0.0
  {
    Bollinger.PositiveWindowWidth(closes, |closes| - 1, sqrt);
  }

  /**
   * The 52-week average is the NaN-skipping mean of the last k band widths,
   * k = min(252, n - 19): with 271 closes or more the last 252 values, with
   * fewer every value after the 19-bar warm-up, even when the column itself
   * already has 252 entries.
   */
  lemma Avg52wCoversLatestYear(p: seq<real>, sqrt: real -> real)
    requires |p| >= MinHistory
    ensures var k := Min(YearBars, |p| - (Bollinger.Period - 1));
      Avg52wBandWidth(p, sqrt) == NanMean(Bollinger.BandWidthSeries(p, sqrt)[|p| - k..])
  {
    var n := |p|;
    var bw := Bollinger.BandWidthSeries(p, sqrt);
    var warm := Bollinger.Period - 1;
    if n < YearBars {
      SplitSuffix(bw, 0, warm);
      assert bw[0..] == bw;
      ExtReal.NanMeanSkipsNaNPrefix(bw[0..warm], bw[warm..]);
    } else if n < YearBars + warm {
      SplitSuffix(bw, n - YearBars, warm);
      ExtReal.NanMeanSkipsNaNPrefix(bw[n - YearBars..warm], bw[warm..]);
    }
  }

  /**
   * Over positive closes every averaged band width is a finite number, so
   * the 52-week average is the plain mean of the last k of them and lies
   * between their minimum and maximum.
   */
  lemma Avg52wOfPositiveCloses(p: seq<real>, sqrt: real -> real)
    requires Bollinger.IsSqrt(sqrt)
    requires |p| >= MinHistory
    requires forall j :: 0 <= j < |p| ==> p[j] > 0.0
    ensures var k := Min(YearBars, |p| - (Bollinger.Period - 1));
      var tail := Bollinger.BandWidthSeries(p, sqrt)[|p| - k..];
      && AllFinite(tail)
      && Avg52wBandWidth(p, sqrt) == Fin(Mean(Values(tail)))
      && MinOf(Values(tail)) <= Avg52wBandWidth(p, sqrt).v <= MaxOf(Values(tail))
  {
    var k := Min(YearBars, |p| - (Bollinger.Period - 1));
    var bw := Bollinger.BandWidthSeries(p, sqrt);
    var tail := bw[|p| - k..];
    forall j | 0 <= j < |tail| ensures tail[j].Fin? {
      Bollinger.PositiveWindowWidth(p, |p| - k + j, sqrt);
    }
    Avg52wCoversLatestYear(p, sqrt);
    NanMeanFinite(tail);
    NanMeanBetween(tail);
  }
}
