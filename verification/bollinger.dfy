/**
 * Bollinger bands of app.py: a 20-bar rolling mean and a rolling sample
 * standard deviation (one degree of freedom removed), bands two deviations
 * either side, and from them %B and the relative band width.
 *
 * The square root is the one non-rational step; it enters as a parameter
 * `sqrt`, and every property that needs it assumes `IsSqrt(sqrt)`.
 */
module Bollinger {
  import opened Wrappers
  import opened ExtReal
  import opened Stats

  const Period: nat := 20
  const NumStd: real := 2.0

  /** `sqrt` returns the non-negative square root of every non-negative real. */
  ghost predicate IsSqrt(sqrt: real -> real)
  {
    forall x :: 0.0 <= x ==> 0.0 <= sqrt(x) && sqrt(x) * sqrt(x) == x
  }

  /** The rolling mean and rolling standard deviation at one bar. */
  datatype Bands = Bands(middle: real, sigma: real)
  {
    function Upper(): real
    {
      middle + sigma * NumStd
    }

    function Lower(): real
    {
      middle - sigma * NumStd
    }
  }

  /** The bands at bar `i`; pandas leaves the first 19 bars NaN, modelled as None. */
  function BandsAt(p: seq<real>, i: int, sqrt: real -> real): Option<Bands>
    requires 0 <= i < |p|
  {
    if i < Period - 1 then None
    else
      var w := Window(p, i, Period);
      Some(Bands(Mean(w), sqrt(SampleVariance(w))))
  }

  /** `(price - lower) / (upper - lower)`. */
  function PercentB(price: real, b: Bands): Ext
  {
    Div(Fin(price - b.Lower()), Fin(b.Upper() - b.Lower()))
  }

  /** `(upper - lower) / middle`. */
  function BandWidth(b: Bands): Ext
  {
    Div(Fin(b.Upper() - b.Lower()), Fin(b.middle))
  }

  function PercentBAt(p: seq<real>, i: int, sqrt: real -> real): Ext
    requires 0 <= i < |p|
  {
    match BandsAt(p, i, sqrt)
    case None => NaN
    case Some(b) => PercentB(p[i], b)
  }

  function BandWidthAt(p: seq<real>, i: int, sqrt: real -> real): Ext
    requires 0 <= i < |p|
  {
    match BandsAt(p, i, sqrt)
    case None => NaN
    case Some(b) => BandWidth(b)
  }

  /**
   * The whole band-width column, one entry per bar: NaN during the 19-bar
   * warm-up, afterwards the span 2 * NumStd * sigma of the trailing window
   * over its mean, with IEEE division.
   */
  function BandWidthSeries(p: seq<real>, sqrt: real -> real): (r: seq<Ext>)
    ensures |r| == |p|
    ensures forall i :: 0 <= i < |p| && i < Period - 1 ==> r[i].NaN?
    ensures forall i :: Period - 1 <= i < |p| ==>
      r[i] == Div(Fin(2.0 * NumStd * sqrt(SampleVariance(Window(p, i, Period)))), Fin(Mean(Window(p, i, Period))))
  {
    seq(|p|, i requires 0 <= i < |p| => BandWidthAt(p, i, sqrt))
  }

  /** The root of a non-negative real is zero exactly when the real is. */
  lemma SqrtZeroIff(sqrt: real -> real, x: real)
    requires IsSqrt(sqrt) && x >= 0.0
    ensures sqrt(x) >= 0.0
    ensures sqrt(x) == 0.0 <==> x == 0.0
  {
    var r := sqrt(x);
    assert r * r == x;
    if r == 0.0 {
      calc {
        x;
        r * r;
        0.0 * 0.0;
        0.0;
      }
    } else {
      assert r > 0.0;
      calc {
        x;
        r * r;
      > 0.0;
      }
    }
  }

  /**
   * From bar 19 on the bands exist: the middle band is the mean of the last
   * 20 closes and sigma is the square root of their sample variance, zero
   * exactly when the 20 closes are all equal.
   */
  lemma BandsAtFullWindow(p: seq<real>, i: int, sqrt: real -> real)
    requires IsSqrt(sqrt)
    requires Period - 1 <= i < |p|
    ensures BandsAt(p, i, sqrt).Some?
    ensures BandsAt(p, i, sqrt).value.middle == Mean(Window(p, i, Period))
    ensures BandsAt(p, i, sqrt).value.sigma >= 0.0
    ensures BandsAt(p, i, sqrt).value.sigma * BandsAt(p, i, sqrt).value.sigma
         == SampleVariance(Window(p, i, Period))
    ensures BandsAt(p, i, sqrt).value.sigma == 0.0 <==> AllEqual(Window(p, i, Period))
  {
    var w := Window(p, i, Period);
    VarianceZeroIffFlat(w);
    SqrtZeroIff(sqrt, SampleVariance(w));
  }

  /** For a positive sigma, %B is 0.5 plus the distance from the middle band in units of the band span. */
  lemma PercentBReference(price: real, b: Bands)
    requires b.sigma > 0.0
    ensures PercentB(price, b) == Fin(0.5 + (price - b.middle) / (2.0 * NumStd * b.sigma))
  {
    var span := 2.0 * NumStd * b.sigma;
    assert b.Upper() - b.Lower() == span;
    assert price - b.Lower() == (price - b.middle) + span / 2.0;
    DivMul(price - b.Lower(), span);
    DivMul(price - b.middle, span);
    calc {
      (0.5 + (price - b.middle) / span) * span;
      0.5 * span + ((price - b.middle) / span) * span;
      0.5 * span + (price - b.middle);
      price - b.Lower();
      ((price - b.Lower()) / span) * span;
    }
    EqByMul(0.5 + (price - b.middle) / span, (price - b.Lower()) / span, span);
  }

  /** For a positive sigma, %B is 0 on the lower band, 0.5 on the middle band and 1 on the upper band. */
  lemma PercentBLandmarks(b: Bands)
    requires b.sigma > 0.0
    ensures PercentB(b.Lower(), b) == Fin(0.0)
    ensures PercentB(b.middle, b) == Fin(0.5)
    ensures PercentB(b.Upper(), b) == Fin(1.0)
  {
    var span := 2.0 * NumStd * b.sigma;
    PercentBReference(b.Lower(), b);
    PercentBReference(b.middle, b);
    PercentBReference(b.Upper(), b);
    assert b.Lower() - b.middle == -(span / 2.0);
    assert b.Upper() - b.middle == span / 2.0;
    DivMul(span / 2.0, span);
    EqByMul((span / 2.0) / span, 0.5, span);
    assert (-(span / 2.0)) / span == -((span / 2.0) / span);
  }

  /** For a positive sigma, %B is strictly increasing in the price. */
  lemma PercentBMonotone(b: Bands, x: real, y: real)
    requires b.sigma > 0.0
    requires x < y
    ensures PercentB(x, b).Fin? && PercentB(y, b).Fin?
    ensures PercentB(x, b).v < PercentB(y, b).v
  {
    var span := b.Upper() - b.Lower();
    assert span > 0.0;
    assert x - b.Lower() < y - b.Lower();
    assert (x - b.Lower()) / span < (y - b.Lower()) / span;
  }

  /** The band width is 2 * NumStd * sigma / middle, non-negative when the middle band is positive. */
  lemma BandWidthReference(b: Bands)
    requires b.sigma >= 0.0 && b.middle != 0.0
    ensures BandWidth(b) == Fin(2.0 * NumStd * b.sigma / b.middle)
    ensures b.middle > 0.0 ==> BandWidth(b).v >= 0.0
  {
    assert b.Upper() - b.Lower() == 2.0 * NumStd * b.sigma;
  }

  /** Zero-width bands around the price: %B is 0/0, NaN, and the reported width is 0. */
  lemma CollapsedBands(price: real, b: Bands)
    requires b.sigma == 0.0 && price == b.middle
    ensures PercentB(price, b) == NaN
    ensures NanToZero(BandWidth(b)) == Fin(0.0)
  {
    assert b.Upper() == b.middle && b.Lower() == b.middle;
    assert PercentB(price, b) == Div(Fin(0.0), Fin(0.0));
    if b.middle != 0.0 {
      assert 0.0 / b.middle == 0.0;
      assert BandWidth(b) == Div(Fin(0.0), Fin(b.middle)) == Fin(0.0);
    } else {
      assert BandWidth(b) == Div(Fin(0.0), Fin(0.0));
    }
  }

  /** Bands of positive width never report a width of 0 (a zero middle band gives +inf). */
  lemma OpenBands(b: Bands)
    requires b.sigma > 0.0
    ensures NanToZero(BandWidth(b)) != Fin(0.0)
  {
    var span := b.Upper() - b.Lower();
    assert span == 2.0 * NumStd * b.sigma;
    assert span > 0.0;
    if b.middle != 0.0 {
      assert span / b.middle != 0.0;
      assert BandWidth(b) == Fin(span / b.middle);
    } else {
      assert BandWidth(b) == PosInf;
    }
  }

  /**
   * A window of 20 equal closes is the only way to a band width of zero: the
   * reported width (NaN read as 0) is 0 exactly then, and the reported %B
   * is 0 as well.
   */
  lemma FlatWindowReportsZero(p: seq<real>, i: int, sqrt: real -> real)
    requires IsSqrt(sqrt)
    requires Period - 1 <= i < |p|
    ensures NanToZero(BandWidthAt(p, i, sqrt)) == Fin(0.0) <==> AllEqual(Window(p, i, Period))
    ensures AllEqual(Window(p, i, Period)) ==> NanToZero(PercentBAt(p, i, sqrt)) == Fin(0.0)
  {
    var w := Window(p, i, Period);
    BandsAtFullWindow(p, i, sqrt);
    var b := BandsAt(p, i, sqrt).value;
    if AllEqual(w) {
      SumConstant(w, w[Period - 1]);
      assert b.middle == p[i];
      CollapsedBands(p[i], b);
    } else {
      OpenBands(b);
    }
  }

  /** Over positive closes the band width is a finite non-negative number. */
  lemma PositiveWindowWidth(p: seq<real>, i: int, sqrt: real -> real)
    requires IsSqrt(sqrt)
    requires Period - 1 <= i < |p|
    requires forall j :: i - Period + 1 <= j <= i ==> p[j] > 0.0
    ensures BandWidthAt(p, i, sqrt).Fin? && BandWidthAt(p, i, sqrt).v >= 0.0
  {
    var w := Window(p, i, Period);
    BandsAtFullWindow(p, i, sqrt);
    MinMaxBound(w);
    var lo := MinOf(w);
    var k :| 0 <= k < |w| && w[k] == lo;
    assert lo > 0.0;
    MeanBetween(w, lo, MaxOf(w));
    BandWidthReference(BandsAt(p, i, sqrt).value);
  }

  /** A band-width entry after the warm-up is NaN (0/0) exactly when all 20 closes of its window are 0. */
  lemma BandWidthNaNIffZeroWindow(p: seq<real>, i: int, sqrt: real -> real)
    requires IsSqrt(sqrt)
    requires Period - 1 <= i < |p|
    ensures BandWidthSeries(p, sqrt)[i].NaN? <==> forall j :: i - Period + 1 <= j <= i ==> p[j] == 0.0
  {
    var w := Window(p, i, Period);
    BandsAtFullWindow(p, i, sqrt);
    var sigma := sqrt(SampleVariance(w));
    var span := 2.0 * NumStd * sigma;
    assert BandWidthSeries(p, sqrt)[i] == Div(Fin(span), Fin(Mean(w)));
    if BandWidthSeries(p, sqrt)[i].NaN? {
      assert span == 0.0 && Mean(w) == 0.0;
      assert AllEqual(w);
      SumConstant(w, w[0]);
      assert w[0] == 0.0;
      forall j | i - Period + 1 <= j <= i
        ensures p[j] == 0.0
      {
        assert p[j] == w[j - (i - Period + 1)];
      }
    }
    if forall j :: i - Period + 1 <= j <= i ==> p[j] == 0.0 {
      assert forall k :: 0 <= k < |w| ==> w[k] == 0.0;
      assert AllEqual(w);
      SumConstant(w, 0.0);
      assert Mean(w) == 0.0;
    }
  }
}
