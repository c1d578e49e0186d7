/**
 * The double-precision values pandas computes with, taken as exact reals
 * extended by the two infinities and not-a-number, and the IEEE 754
 * arithmetic on them that the indicators use. Signed zeros are not
 * distinguished: every zero behaves as +0.
 */
module ExtReal {
  import opened Stats

  datatype Ext = Fin(v: real) | PosInf | NegInf | NaN

  function Neg(a: Ext): Ext
  {
    match a
    case Fin(x) => Fin(-x)
    case PosInf => NegInf
    case NegInf => PosInf
    case NaN => NaN
  }

  function Add(a: Ext, b: Ext): (r: Ext)
    ensures r.NaN? <==> a.NaN? || b.NaN? || (a.PosInf? && b.NegInf?) || (a.NegInf? && b.PosInf?)
    ensures r.Fin? <==> a.Fin? && b.Fin?
  {
    if a.NaN? || b.NaN? then NaN
    else if (a.PosInf? && b.NegInf?) || (a.NegInf? && b.PosInf?) then NaN
    else if a.PosInf? || b.PosInf? then PosInf
    else if a.NegInf? || b.NegInf? then NegInf
    else Fin(a.v + b.v)
  }

  function Sub(a: Ext, b: Ext): Ext
  {
    Add(a, Neg(b))
  }

  /** IEEE division: a non-zero finite over zero is an infinity, 0/0 and inf/inf are NaN. */
  function Div(a: Ext, b: Ext): (r: Ext)
    ensures r.Fin? <==> (a.Fin? && b.Fin? && b.v != 0.0) || (a.Fin? && (b.PosInf? || b.NegInf?))
  {
    match (a, b)
    case (NaN, _) => NaN
    case (_, NaN) => NaN
    case (Fin(x), Fin(y)) =>
      if y != 0.0 then Fin(x / y)
      else if x > 0.0 then PosInf
      else if x < 0.0 then NegInf
      else NaN
    case (Fin(_), _) => Fin(0.0)
    case (_, Fin(y)) => if y < 0.0 then Neg(a) else a
    case (_, _) => NaN
  }

  /** IEEE `<`: false whenever either side is NaN. */
  predicate Lt(a: Ext, b: Ext)
  {
    match (a, b)
    case (NaN, _) => false
    case (_, NaN) => false
    case (Fin(x), Fin(y)) => x < y
    case (NegInf, _) => !b.NegInf?
    case (_, PosInf) => !a.PosInf?
    case (_, _) => false
  }

  /** The program's `x if not pd.isna(x) else 0`. */
  function NanToZero(a: Ext): (r: Ext)
    ensures !r.NaN?
    ensures a.NaN? ==> r == Fin(0.0)
    ensures !a.NaN? ==> r == a
  {
    if a.NaN? then Fin(0.0) else a
  }

  /** The entries that are not NaN, in order: what pandas' `skipna` keeps. */
  function Defined(xs: seq<Ext>): (d: seq<Ext>)
    ensures |d| <= |xs|
    ensures forall j :: 0 <= j < |d| ==> !d[j].NaN?
  {
    if |xs| == 0 then []
    else (if xs[0].NaN? then [] else [xs[0]]) + Defined(xs[1..])
  }

  function ExtSum(xs: seq<Ext>): Ext
  {
    if |xs| == 0 then Fin(0.0) else Add(xs[0], ExtSum(xs[1..]))
  }

  /** pandas `Series.mean()`: the sum of the defined entries over their count, NaN when there are none. */
  function NanMean(xs: seq<Ext>): Ext
  {
    var d := Defined(xs);
    if |d| == 0 then NaN else Div(ExtSum(d), Fin(|d| as real))
  }

  predicate AllFinite(xs: seq<Ext>)
  {
    forall j :: 0 <= j < |xs| ==> xs[j].Fin?
  }

  function Values(xs: seq<Ext>): (rs: seq<real>)
    requires AllFinite(xs)
    ensures |rs| == |xs|
    ensures forall j :: 0 <= j < |xs| ==> xs[j] == Fin(rs[j])
  {
    seq(|xs|, j requires 0 <= j < |xs| && AllFinite(xs) => xs[j].v)
  }

  lemma {:induction false} DefinedConcat(a: seq<Ext>, b: seq<Ext>)
    ensures Defined(a + b) == Defined(a) + Defined(b)
  {
    if |a| > 0 {
      assert (a + b)[1..] == a[1..] + b;
      DefinedConcat(a[1..], b);
    } else {
      assert a + b == b;
    }
  }

  lemma {:induction false} DefinedAllNaN(a: seq<Ext>)
    requires forall j :: 0 <= j < |a| ==> a[j].NaN?
    ensures Defined(a) == []
  {
    if |a| > 0 {
      DefinedAllNaN(a[1..]);
    }
  }

  lemma {:induction false} DefinedAllFinite(a: seq<Ext>)
    requires AllFinite(a)
    ensures Defined(a) == a
  {
    if |a| > 0 {
      DefinedAllFinite(a[1..]);
      assert a == [a[0]] + a[1..];
    }
  }

  /** NaN entries placed before a suffix do not change the NaN-skipping mean of that suffix. */
  lemma NanMeanSkipsNaNPrefix(a: seq<Ext>, b: seq<Ext>)
    requires forall j :: 0 <= j < |a| ==> a[j].NaN?
    ensures NanMean(a + b) == NanMean(b)
  {
    DefinedConcat(a, b);
    DefinedAllNaN(a);
    assert Defined(a + b) == Defined(b);
  }

  lemma {:induction false} ExtSumFinite(xs: seq<Ext>)
    requires AllFinite(xs)
    ensures ExtSum(xs) == Fin(Sum(Values(xs)))
  {
    if |xs| > 0 {
      ExtSumFinite(xs[1..]);
      assert Values(xs[1..]) == Values(xs)[1..];
    }
  }

  /** Over finite values only, the NaN-skipping mean is the plain mean of the reals. */
  lemma NanMeanFinite(xs: seq<Ext>)
    requires |xs| > 0 && AllFinite(xs)
    ensures NanMean(xs) == Fin(Mean(Values(xs)))
  {
    DefinedAllFinite(xs);
    ExtSumFinite(xs);
  }

  /** A NaN-skipping mean of finite values lies between their minimum and their maximum. */
  lemma NanMeanBetween(xs: seq<Ext>)
    requires |xs| > 0 && AllFinite(xs)
    ensures NanMean(xs).Fin?
    ensures MinOf(Values(xs)) <= NanMean(xs).v <= MaxOf(Values(xs))
  {
    NanMeanFinite(xs);
    MinMaxBound(Values(xs));
    MeanBetween(Values(xs), MinOf(Values(xs)), MaxOf(Values(xs)));
  }
}
