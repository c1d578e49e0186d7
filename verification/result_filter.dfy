/**
 * The screening step of `main` in app.py: each result row carries the raw
 * indicator values, and up to three criteria, each switched on by its own
 * sidebar option, narrow the table one after another.
 */
module ResultFilter {
  import opened ExtReal
  import opened Technical

  /** The RSI bound of the "40 미만" option. */
  const RsiBound: real := 40.0
  /** The %B bound of the "0.5 미만" option. */
  const PercentBBound: real := 0.5

  /** One row of the result table: the listing plus its raw indicator values. */
  datatype Row = Row(ticker: string, name: string, cap: int, ind: Indicators)

  datatype Criterion =
    | RsiBelow40
    | PercentBBelowHalf
    | WidthBelowYearAverage

  /** A pandas comparison mask: a comparison with NaN is false. */
  predicate Holds(c: Criterion, row: Row)
  {
    match c
    case RsiBelow40 => Lt(row.ind.rsi, Fin(RsiBound))
    case PercentBBelowHalf => Lt(row.ind.percentB, Fin(PercentBBound))
    case WidthBelowYearAverage => Lt(row.ind.bandWidth, row.ind.avg52wBandWidth)
  }

  /** `df[mask]`: the rows satisfying `c`, in their order. */
  function FilterBy(rows: seq<Row>, c: Criterion): (r: seq<Row>)
    ensures |r| <= |rows|
  {
    if |rows| == 0 then []
    else (if Holds(c, rows[0]) then [rows[0]] else []) + FilterBy(rows[1..], c)
  }

  /** The criteria in the order the program applies them, each present when its option is chosen. */
  function ActiveCriteria(rsiOn: bool, percentBOn: bool, widthOn: bool): (cs: seq<Criterion>)
    ensures RsiBelow40 in cs <==> rsiOn
    ensures PercentBBelowHalf in cs <==> percentBOn
    ensures WidthBelowYearAverage in cs <==> widthOn
    ensures |cs| == 0 <==> !(rsiOn || percentBOn || widthOn)
  {
    (if rsiOn then [RsiBelow40] else [])
    + (if percentBOn then [PercentBBelowHalf] else [])
    + (if widthOn then [WidthBelowYearAverage] else [])
  }

  /** Applies the criteria one after another, each to the previous result. */
  function ApplyInOrder(rows: seq<Row>, cs: seq<Criterion>): (r: seq<Row>)
    ensures |r| <= |rows|
    decreases |cs|
  {
    if |cs| == 0 then rows else ApplyInOrder(FilterBy(rows, cs[0]), cs[1..])
  }

  predicate AllHold(cs: seq<Criterion>, row: Row)
  {
    forall c :: c in cs ==> Holds(c, row)
  }

  /** Reference definition: one pass keeping the rows that meet every criterion at once. */
  function KeepAll(rows: seq<Row>, cs: seq<Criterion>): seq<Row>
  {
    if |rows| == 0 then []
    else (if AllHold(cs, rows[0]) then [rows[0]] else []) + KeepAll(rows[1..], cs)
  }

  /** `a` is `b` with some elements removed, the rest in their order. */
  predicate IsSubsequence(a: seq<Row>, b: seq<Row>)
    decreases |b|
  {
    if |a| == 0 then true
    else if |b| == 0 then false
    else (a[0] == b[0] && IsSubsequence(a[1..], b[1..])) || IsSubsequence(a, b[1..])
  }

  /** A row survives one mask exactly when it meets the criterion. */
  lemma {:induction false} FilterByMembership(rows: seq<Row>, c: Criterion, x: Row)
    ensures x in FilterBy(rows, c) <==> x in rows && Holds(c, x)
  {
    if |rows| > 0 {
      FilterByMembership(rows[1..], c, x);
      assert rows == [rows[0]] + rows[1..];
    }
  }

  /** Filtering the rows that survived the first criterion by the rest is one pass over all of them. */
  lemma {:induction false} KeepAllAfterFilter(rows: seq<Row>, c: Criterion, cs: seq<Criterion>)
    ensures KeepAll(FilterBy(rows, c), cs) == KeepAll(rows, [c] + cs)
  {
    if |rows| > 0 {
      KeepAllAfterFilter(rows[1..], c, cs);
      var x := rows[0];
      assert AllHold([c] + cs, x) <==> Holds(c, x) && AllHold(cs, x) by {
        assert forall d :: d in [c] + cs <==> d == c || d in cs;
      }
      if Holds(c, x) {
        assert FilterBy(rows, c) == [x] + FilterBy(rows[1..], c);
        assert ([x] + FilterBy(rows[1..], c))[1..] == FilterBy(rows[1..], c);
      } else {
        assert FilterBy(rows, c) == FilterBy(rows[1..], c);
      }
    }
  }

  /** The masks applied one after another keep exactly the rows meeting all of them. */
  lemma {:induction false} SequentialIsConjunction(rows: seq<Row>, cs: seq<Criterion>)
    ensures ApplyInOrder(rows, cs) == KeepAll(rows, cs)
    decreases |cs|
  {
    if |cs| == 0 {
      KeepAllNone(rows, cs);
    } else {
      SequentialIsConjunction(FilterBy(rows, cs[0]), cs[1..]);
      KeepAllAfterFilter(rows, cs[0], cs[1..]);
      assert [cs[0]] + cs[1..] == cs;
    }
  }

  /** With no criterion chosen the table is left as it is. */
  lemma {:induction false} KeepAllNone(rows: seq<Row>, cs: seq<Criterion>)
    requires |cs| == 0
    ensures KeepAll(rows, cs) == rows
  {
    if |rows| > 0 {
      KeepAllNone(rows[1..], cs);
      assert rows == [rows[0]] + rows[1..];
    }
  }

  /** Only which criteria are chosen matters, not their order or repetition. */
  lemma {:induction false} KeepAllOrderIndependent(rows: seq<Row>, cs1: seq<Criterion>, cs2: seq<Criterion>)
    requires forall c :: c in cs1 <==> c in cs2
    ensures KeepAll(rows, cs1) == KeepAll(rows, cs2)
  {
    if |rows| > 0 {
      KeepAllOrderIndependent(rows[1..], cs1, cs2);
      assert AllHold(cs1, rows[0]) == AllHold(cs2, rows[0]);
    }
  }

  /** A row is kept exactly when it is in the table and meets every chosen criterion. */
  lemma {:induction false} KeepAllMembership(rows: seq<Row>, cs: seq<Criterion>, x: Row)
    ensures x in KeepAll(rows, cs) <==> x in rows && AllHold(cs, x)
  {
    if |rows| > 0 {
      KeepAllMembership(rows[1..], cs, x);
      assert rows == [rows[0]] + rows[1..];
    }
  }

  /** The kept rows appear in the order of the full table. */
  lemma {:induction false} KeepAllIsSubsequence(rows: seq<Row>, cs: seq<Criterion>)
    ensures IsSubsequence(KeepAll(rows, cs), rows)
  {
    if |rows| > 0 {
      var rest := KeepAll(rows[1..], cs);
      KeepAllIsSubsequence(rows[1..], cs);
      if AllHold(cs, rows[0]) {
        assert ([rows[0]] + rest)[1..] == rest;
      } else {
        assert KeepAll(rows, cs) == rest;
        if |rest| > 0 {
          assert IsSubsequence(rest, rows[1..]);
        }
      }
    }
  }

  /**
   * The three options of the sidebar, applied in the program's order, keep
   * a row exactly when every chosen bound holds, in table order, whatever
   * order the options were applied in.
   */
  lemma FilterOptions(rows: seq<Row>, rsiOn: bool, percentBOn: bool, widthOn: bool, x: Row)
    ensures var kept := ApplyInOrder(rows, ActiveCriteria(rsiOn, percentBOn, widthOn));
      && IsSubsequence(kept, rows)
      && (x in kept <==>
           && x in rows
           && (rsiOn ==> Lt(x.ind.rsi, Fin(RsiBound)))
           && (percentBOn ==> Lt(x.ind.percentB, Fin(PercentBBound)))
           && (widthOn ==> Lt(x.ind.bandWidth, x.ind.avg52wBandWidth)))
  {
    var cs := ActiveCriteria(rsiOn, percentBOn, widthOn);
    SequentialIsConjunction(rows, cs);
    KeepAllIsSubsequence(rows, cs);
    KeepAllMembership(rows, cs, x);
  }
}
