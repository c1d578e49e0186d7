/**
 * Exact-real statistics over finite sequences: sums, means, trailing
 * windows and the sample variance that pandas' `rolling(...).mean()` and
 * `rolling(...).std()` compute (the latter with one degree of freedom removed).
 */
module Stats {

  function Sum(s: seq<real>): real
  {
    if |s| == 0 then 0.0 else s[0] + Sum(s[1..])
  }

  function Mean(s: seq<real>): real
    requires |s| > 0
  {
    Sum(s) / (|s| as real)
  }

  /** The `w` entries of `s` that end at index `i` (inclusive): one rolling window. */
  function Window(s: seq<real>, i: int, w: nat): (r: seq<real>)
    requires 0 < w && w - 1 <= i < |s|
    ensures |r| == w
    ensures forall j :: 0 <= j < w ==> r[j] == s[i - w + 1 + j]
  {
    s[i - w + 1 .. i + 1]
  }

  function SquaredDeviation(s: seq<real>, m: real): real
  {
    if |s| == 0 then 0.0 else (s[0] - m) * (s[0] - m) + SquaredDeviation(s[1..], m)
  }

  /** Sample variance (ddof = 1). */
  function SampleVariance(s: seq<real>): real
    requires |s| >= 2
  {
    SquaredDeviation(s, Mean(s)) / ((|s| - 1) as real)
  }

  function MinOf(s: seq<real>): real
    requires |s| > 0
  {
    if |s| == 1 then s[0]
    else var m := MinOf(s[1..]); if s[0] <= m then s[0] else m
  }

  function MaxOf(s: seq<real>): real
    requires |s| > 0
  {
    if |s| == 1 then s[0]
    else var m := MaxOf(s[1..]); if s[0] >= m then s[0] else m
  }

  predicate AllEqual(s: seq<real>)
  {
    forall j, k :: 0 <= j < |s| && 0 <= k < |s| ==> s[j] == s[k]
  }

  /** MinOf and MaxOf are attained lower and upper bounds of the sequence. */
  lemma {:induction false} MinMaxBound(s: seq<real>)
    requires |s| > 0
    ensures forall j :: 0 <= j < |s| ==> MinOf(s) <= s[j] <= MaxOf(s)
    ensures exists j :: 0 <= j < |s| && s[j] == MinOf(s)
    ensures exists j :: 0 <= j < |s| && s[j] == MaxOf(s)
  {
    if |s| > 1 {
      MinMaxBound(s[1..]);
      forall j | 1 <= j < |s|
        ensures MinOf(s) <= s[j] <= MaxOf(s)
      {
        assert s[j] == s[1..][j - 1];
      }
      var a :| 0 <= a < |s| - 1 && s[1..][a] == MinOf(s[1..]);
      var b :| 0 <= b < |s| - 1 && s[1..][b] == MaxOf(s[1..]);
      assert s[a + 1] == s[1..][a];
      assert s[b + 1] == s[1..][b];
      if s[0] > MinOf(s[1..]) {
        assert s[a + 1] == MinOf(s);
      } else {
        assert s[0] == MinOf(s);
      }
      if s[0] < MaxOf(s[1..]) {
        assert s[b + 1] == MaxOf(s);
      } else {
        assert s[0] == MaxOf(s);
      }
    }
  }

  lemma {:induction false} SumBounds(s: seq<real>, lo: real, hi: real)
    requires forall j :: 0 <= j < |s| ==> lo <= s[j] <= hi
    ensures lo * (|s| as real) <= Sum(s) <= hi * (|s| as real)
  {
    if |s| > 0 {
      SumBounds(s[1..], lo, hi);
      assert lo * (|s| as real) == lo + lo * ((|s| - 1) as real);
      assert hi * (|s| as real) == hi + hi * ((|s| - 1) as real);
    }
  }

  /** A mean lies between any lower and upper bound of its entries. */
  lemma MeanBetween(s: seq<real>, lo: real, hi: real)
    requires |s| > 0
    requires forall j :: 0 <= j < |s| ==> lo <= s[j] <= hi
    ensures lo <= Mean(s) <= hi
  {
    var n := |s| as real;
    SumBounds(s, lo, hi);
    assert lo == (lo * n) / n;
    assert hi == (hi * n) / n;
  }

  /** A sum of non-negative terms is non-negative, and zero exactly when every term is. */
  lemma {:induction false} SumZeroIff(s: seq<real>)
    requires forall j :: 0 <= j < |s| ==> s[j] >= 0.0
    ensures Sum(s) >= 0.0
    ensures Sum(s) == 0.0 <==> forall j :: 0 <= j < |s| ==> s[j] == 0.0
  {
    if |s| > 0 {
      SumZeroIff(s[1..]);
      assert forall j :: 0 <= j < |s| - 1 ==> s[1..][j] == s[j + 1];
      if Sum(s) == 0.0 {
        forall j | 1 <= j < |s| ensures s[j] == 0.0 {
          assert s[j] == s[1..][j - 1];
        }
      }
    }
  }

  lemma {:induction false} SumConstant(s: seq<real>, c: real)
    requires forall j :: 0 <= j < |s| ==> s[j] == c
    ensures Sum(s) == c * (|s| as real)
  {
    if |s| > 0 {
      SumConstant(s[1..], c);
      assert c * (|s| as real) == c + c * ((|s| - 1) as real);
    }
  }

  /** A sum of squared deviations is non-negative, and zero exactly when every entry equals the centre. */
  lemma {:induction false} SquaredDeviationZeroIff(s: seq<real>, m: real)
    ensures SquaredDeviation(s, m) >= 0.0
    ensures (forall j :: 0 <= j < |s| ==> s[j] == m) ==> SquaredDeviation(s, m) == 0.0
    ensures (exists j :: 0 <= j < |s| && s[j] != m) ==> SquaredDeviation(s, m) > 0.0
  {
    if |s| > 0 {
      SquaredDeviationZeroIff(s[1..], m);
      var d := s[0] - m;
      var rest := SquaredDeviation(s[1..], m);
      assert forall j :: 0 <= j < |s| - 1 ==> s[1..][j] == s[j + 1];
      if d != 0.0 {
        // The solver's arithmetic does not combine a strict square with a sum in one step.
        calc {
          SquaredDeviation(s, m);
          d * d + rest;
        >= d * d;
        > 0.0;
        }
      } else if exists j :: 0 <= j < |s| && s[j] != m {
        var j :| 0 <= j < |s| && s[j] != m;
        assert s[1..][j - 1] != m;
      } else {
        calc {
          SquaredDeviation(s, m);
          d * d + rest;
          0.0 * 0.0 + rest;
          0.0;
        }
      }
    }
  }

  /** The sample variance is non-negative, and zero exactly when the window is flat. */
  lemma VarianceZeroIffFlat(s: seq<real>)
    requires |s| >= 2
    ensures SampleVariance(s) >= 0.0
    ensures SampleVariance(s) == 0.0 <==> AllEqual(s)
  {
    var m := Mean(s);
    SquaredDeviationZeroIff(s, m);
    if AllEqual(s) {
      SumConstant(s, s[0]);
      assert m == s[0];
    } else {
      var j, k :| 0 <= j < |s| && 0 <= k < |s| && s[j] != s[k];
      assert s[j] != m || s[k] != m;
    }
  }

  /*
   * Division facts in the shape the proofs use them; each is one small
   * query, since the solver's arithmetic gives up on larger nonlinear ones.
   */
  lemma DivMul(x: real, y: real)
    requires y != 0.0
    ensures (x / y) * y == x
  {
  }

  lemma DivOfDiv(a: real, b: real, c: real)
    requires b != 0.0 && c != 0.0
    ensures a / (b / c) == a * c / b
  {
  }

  lemma EqByMul(a: real, b: real, c: real)
    requires c != 0.0 && a * c == b * c
    ensures a == b
  {
    assert (a - b) * c == 0.0;
  }

  /** A suffix splits at any point inside it. */
  lemma SplitSuffix<T>(s: seq<T>, a: int, m: int)
    requires 0 <= a <= m <= |s|
    ensures s[a..] == s[a..m] + s[m..]
  {
    assert forall j :: 0 <= j < |s| - a ==> s[a..][j] == (s[a..m] + s[m..])[j];
  }
}
