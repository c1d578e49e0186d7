/**
 * The 14-bar RSI of app.py in its simple rolling-mean form: per-bar gains
 * and losses are averaged over a plain 14-bar rolling mean and combined as
 * 100 - 100 / (1 + gain / loss), with pandas' float semantics for the
 * division by a zero average loss.
 */
module Rsi {
  import opened ExtReal
  import opened Stats

  const Period: nat := 14

  /** Bar `i` closed above the bar before it. Bar 0 has no predecessor, so it never rises. */
  predicate Rises(p: seq<real>, i: int)
    requires 0 <= i < |p|
  {
    i > 0 && p[i] > p[i - 1]
  }

  predicate Falls(p: seq<real>, i: int)
    requires 0 <= i < |p|
  {
    i > 0 && p[i] < p[i - 1]
  }

  /**
   * `delta.where(delta > 0, 0)`: the first difference is NaN, fails the
   * comparison and so becomes 0 like every non-positive change.
   */
  function Gains(p: seq<real>): (g: seq<real>)
    ensures |g| == |p|
    ensures forall i :: 0 <= i < |p| ==> g[i] >= 0.0 && (g[i] > 0.0 <==> Rises(p, i))
  {
    seq(|p|, i requires 0 <= i < |p| => if i > 0 && p[i] - p[i - 1] > 0.0 then p[i] - p[i - 1] else 0.0)
  }

  /** `-delta.where(delta < 0, 0)`. */
  function Losses(p: seq<real>): (l: seq<real>)
    ensures |l| == |p|
    ensures forall i :: 0 <= i < |p| ==> l[i] >= 0.0 && (l[i] > 0.0 <==> Falls(p, i))
  {
    seq(|p|, i requires 0 <= i < |p| => if i > 0 && p[i] - p[i - 1] < 0.0 then -(p[i] - p[i - 1]) else 0.0)
  }

  function AverageGain(p: seq<real>, i: int): real
    requires Period - 1 <= i < |p|
  {
    Mean(Window(Gains(p), i, Period))
  }

  function AverageLoss(p: seq<real>, i: int): real
    requires Period - 1 <= i < |p|
  {
    Mean(Window(Losses(p), i, Period))
  }

  /** The RSI series at bar `i`; the rolling mean leaves the first 13 bars NaN. */
  function RsiAt(p: seq<real>, i: int): Ext
    requires 0 <= i < |p|
  {
    if i < Period - 1 then NaN
    else
      RsiOf(AverageGain(p, i), AverageLoss(p, i))
  }

  predicate NoRiseIn(p: seq<real>, i: int)
    requires Period - 1 <= i < |p|
  {
    forall j :: i - Period + 1 <= j <= i ==> !Rises(p, j)
  }

  predicate NoFallIn(p: seq<real>, i: int)
    requires Period - 1 <= i < |p|
  {
    forall j :: i - Period + 1 <= j <= i ==> !Falls(p, j)
  }

  /** The average gain is non-negative, and zero exactly when no bar of the window rises. */
  lemma AverageGainZeroIff(p: seq<real>, i: int)
    requires Period - 1 <= i < |p|
    ensures AverageGain(p, i) >= 0.0
    ensures AverageGain(p, i) == 0.0 <==> NoRiseIn(p, i)
  {
    var g := Gains(p);
    var w := Window(g, i, Period);
    SumZeroIff(w);
    if NoRiseIn(p, i) {
      forall k | 0 <= k < |w| ensures w[k] == 0.0 {
        assert w[k] == g[i - Period + 1 + k];
      }
    }
    if AverageGain(p, i) == 0.0 {
      forall j | i - Period + 1 <= j <= i ensures !Rises(p, j) {
        assert w[j - (i - Period + 1)] == g[j];
      }
    }
  }

  /** The average loss is non-negative, and zero exactly when no bar of the window falls. */
  lemma AverageLossZeroIff(p: seq<real>, i: int)
    requires Period - 1 <= i < |p|
    ensures AverageLoss(p, i) >= 0.0
    ensures AverageLoss(p, i) == 0.0 <==> NoFallIn(p, i)
  {
    var l := Losses(p);
    var w := Window(l, i, Period);
    SumZeroIff(w);
    if NoFallIn(p, i) {
      forall k | 0 <= k < |w| ensures w[k] == 0.0 {
        assert w[k] == l[i - Period + 1 + k];
      }
    }
    if AverageLoss(p, i) == 0.0 {
      forall j | i - Period + 1 <= j <= i ensures !Falls(p, j) {
        assert w[j - (i - Period + 1)] == l[j];
      }
    }
  }

  /** `100 - 100 / (1 + gain / loss)` on float values: the formula as the program writes it. */
  function RsiOf(gain: real, loss: real): Ext
  {
    Sub(Fin(100.0), Div(Fin(100.0), Add(Fin(1.0), Div(Fin(gain), Fin(loss)))))
  }

  /** The real identity behind the formula: for a positive loss it is 100 * gain / (gain + loss). */
  lemma RatioForm(g: real, l: real)
    requires g >= 0.0 && l > 0.0
    ensures RsiOf(g, l) == Fin(100.0 * g / (g + l))
  {
    var a := 1.0 + g / l;
    assert g / l >= 0.0;
    DivMul(g, l);
    assert a * l == l + g;
    DivMul(l + g, l);
    EqByMul(a, (l + g) / l, l);
    DivOfDiv(100.0, l + g, l);
    var c := 100.0 * l / (g + l);
    assert 100.0 / a == c;
    var d := 100.0 * g / (g + l);
    DivMul(100.0 * l, g + l);
    DivMul(100.0 * g, g + l);
    calc {
      (100.0 - c) * (g + l);
      100.0 * (g + l) - c * (g + l);
      100.0 * (g + l) - 100.0 * l;
      100.0 * g;
      d * (g + l);
    }
    EqByMul(100.0 - c, d, g + l);
    assert Div(Fin(g), Fin(l)) == Fin(g / l);
    assert Add(Fin(1.0), Fin(g / l)) == Fin(a);
    assert Div(Fin(100.0), Fin(a)) == Fin(c);
  }

  /** For a positive loss the ratio lies in [0, 100), and is 0 exactly when there is no gain. */
  lemma RatioBounds(g: real, l: real)
    requires g >= 0.0 && l > 0.0
    ensures 0.0 <= 100.0 * g / (g + l) < 100.0
    ensures 100.0 * g / (g + l) == 0.0 <==> g == 0.0
  {
    if g > 0.0 {
      assert 100.0 * g / (g + l) > 0.0;
    }
  }

  /** With no loss the ratio is +inf or NaN: RSI 100 after any gain, NaN on a flat window. */
  lemma ZeroLossForm(g: real)
    requires g >= 0.0
    ensures g > 0.0 ==> RsiOf(g, 0.0) == Fin(100.0)
    ensures g == 0.0 ==> RsiOf(g, 0.0) == NaN
  {
    if g > 0.0 {
      assert Div(Fin(g), Fin(0.0)) == PosInf;
      assert Add(Fin(1.0), PosInf) == PosInf;
      assert Div(Fin(100.0), PosInf) == Fin(0.0);
      assert Sub(Fin(100.0), Fin(0.0)) == Fin(100.0);
    } else {
      assert Div(Fin(g), Fin(0.0)) == NaN;
    }
  }

  /** With some loss in the window, the RSI is the classical 100 * gain / (gain + loss). */
  lemma RsiClassicalForm(p: seq<real>, i: int)
    requires Period - 1 <= i < |p|
    requires AverageLoss(p, i) > 0.0
    ensures AverageGain(p, i) >= 0.0
    ensures RsiAt(p, i) == Fin(100.0 * AverageGain(p, i) / (AverageGain(p, i) + AverageLoss(p, i)))
  {
    AverageGainZeroIff(p, i);
    RatioForm(AverageGain(p, i), AverageLoss(p, i));
  }

  /** Every defined RSI value lies in [0, 100]. */
  lemma RsiInRange(p: seq<real>, i: int)
    requires 0 <= i < |p|
    ensures RsiAt(p, i).NaN? || (RsiAt(p, i).Fin? && 0.0 <= RsiAt(p, i).v <= 100.0)
  {
    if i >= Period - 1 {
      var g, l := AverageGain(p, i), AverageLoss(p, i);
      AverageGainZeroIff(p, i);
      AverageLossZeroIff(p, i);
      if l > 0.0 {
        RatioForm(g, l);
        RatioBounds(g, l);
      } else {
        ZeroLossForm(g);
      }
    }
  }

  /** A full window is NaN exactly when it is flat: no bar rises and no bar falls. */
  lemma RsiNaNIffFlat(p: seq<real>, i: int)
    requires Period - 1 <= i < |p|
    ensures RsiAt(p, i).NaN? <==> NoRiseIn(p, i) && NoFallIn(p, i)
  {
    var g, l := AverageGain(p, i), AverageLoss(p, i);
    assert RsiAt(p, i) == RsiOf(g, l);
    AverageGainZeroIff(p, i);
    AverageLossZeroIff(p, i);
    if l > 0.0 {
      RatioForm(g, l);
      RatioBounds(g, l);
    } else {
      ZeroLossForm(g);
    }
  }

  /** The RSI is exactly 100 when the window has some rise and no fall, and only then. */
  lemma RsiHundredIff(p: seq<real>, i: int)
    requires Period - 1 <= i < |p|
    ensures RsiAt(p, i) == Fin(100.0) <==> NoFallIn(p, i) && !NoRiseIn(p, i)
  {
    var g, l := AverageGain(p, i), AverageLoss(p, i);
    assert RsiAt(p, i) == RsiOf(g, l);
    AverageGainZeroIff(p, i);
    AverageLossZeroIff(p, i);
    if l > 0.0 {
      RatioForm(g, l);
      RatioBounds(g, l);
    } else {
      ZeroLossForm(g);
    }
  }

  /** The RSI is exactly 0 when the window has some fall and no rise, and only then. */
  lemma RsiZeroIff(p: seq<real>, i: int)
    requires Period - 1 <= i < |p|
    ensures RsiAt(p, i) == Fin(0.0) <==> NoRiseIn(p, i) && !NoFallIn(p, i)
  {
    var g, l := AverageGain(p, i), AverageLoss(p, i);
    assert RsiAt(p, i) == RsiOf(g, l);
    AverageGainZeroIff(p, i);
    AverageLossZeroIff(p, i);
    if l > 0.0 {
      RatioForm(g, l);
      RatioBounds(g, l);
    } else {
      ZeroLossForm(g);
    }
  }

  /** On a strictly rising series every full window has RSI 100. */
  lemma RsiRisingSeries(p: seq<real>, i: int)
    requires Period - 1 <= i < |p|
    requires forall j :: 0 < j < |p| ==> p[j - 1] < p[j]
    ensures RsiAt(p, i) == Fin(100.0)
  {
    assert Rises(p, i);
    RsiHundredIff(p, i);
  }

  /** On a strictly falling series every full window has RSI 0. */
  lemma RsiFallingSeries(p: seq<real>, i: int)
    requires Period - 1 <= i < |p|
    requires forall j :: 0 < j < |p| ==> p[j - 1] > p[j]
    ensures RsiAt(p, i) == Fin(0.0)
  {
    assert Falls(p, i);
    RsiZeroIff(p, i);
  }
}
