/**
 * The data path of `main` in app.py: fetch the universe, compute the
 * indicators of each ticker in universe order, skip the tickers without a
 * result, and show the table filtered by the chosen options.
 */
module Dashboard {
  import opened Wrappers
  import opened ExtReal
  import opened Universe
  import opened Technical
  import opened ResultFilter

  /** What the page ends up showing. */
  datatype Screen =
    | LoadFailed        // the universe came back empty
    | NothingComputed   // no ticker produced indicators
    | Table(all: seq<Row>, shown: seq<Row>, filterApplied: bool)

  /**
   * The indicators of one ticker: `history` gives its daily closes, or
   * None when fetching them raised (the program catches it and returns None).
   */
  function IndicatorsFor(ticker: string, history: string -> Option<seq<real>>, sqrt: real -> real): (r: Option<Indicators>)
    ensures history(ticker).None? ==> r.None?
    ensures history(ticker).Some? ==> (r.None? <==> |history(ticker).value| < MinHistory)
  {
    match history(ticker)
    case None => None
    case Some(closes) => CalculateIndicators(closes, sqrt)
  }

  /** One result row per stock with indicators, in universe order. */
  function BuildRows(universe: seq<Stock>, indicatorsOf: string -> Option<Indicators>): (rows: seq<Row>)
    ensures |rows| <= |universe|
  {
    if |universe| == 0 then []
    else
      var s := universe[0];
      (match indicatorsOf(s.ticker)
       case None => []
       case Some(ind) => [Row(s.ticker, s.name, s.cap, ind)])
      + BuildRows(universe[1..], indicatorsOf)
  }

  /** The page for a given universe and per-ticker indicator results. */
  function Page(
    universe: seq<Stock>,
    indicatorsOf: string -> Option<Indicators>,
    rsiOn: bool, percentBOn: bool, widthOn: bool): Screen
  {
    if |universe| == 0 then LoadFailed
    else
      var rows := BuildRows(universe, indicatorsOf);
      if |rows| == 0 then NothingComputed
      else
        var cs := ActiveCriteria(rsiOn, percentBOn, widthOn);
        Table(rows, ApplyInOrder(rows, cs), |cs| > 0)
  }

  /** One page load: universe from the snapshot, indicators from each ticker's history. */
  function Run(
    snapshot: Option<Snapshot>,
    lookup: string -> Option<string>,
    history: string -> Option<seq<real>>,
    sqrt: real -> real,
    rsiOn: bool, percentBOn: bool, widthOn: bool): Screen
  {
    Page(MarketCapTop50(snapshot, lookup), t => IndicatorsFor(t, history, sqrt), rsiOn, percentBOn, widthOn)
  }

  /**
   * A row is produced exactly for the stocks whose indicators could be
   * computed, carrying that stock's ticker, name, cap and indicators.
   */
  lemma {:induction false} BuildRowsMembership(universe: seq<Stock>, indicatorsOf: string -> Option<Indicators>, x: Row)
    ensures x in BuildRows(universe, indicatorsOf) <==>
      exists s :: s in universe
        && indicatorsOf(s.ticker) == Some(x.ind)
        && x == Row(s.ticker, s.name, s.cap, x.ind)
  {
    if |universe| > 0 {
      BuildRowsMembership(universe[1..], indicatorsOf, x);
      assert universe == [universe[0]] + universe[1..];
      var s := universe[0];
      if x in BuildRows(universe, indicatorsOf) && x !in BuildRows(universe[1..], indicatorsOf) {
        assert indicatorsOf(s.ticker) == Some(x.ind) && x == Row(s.ticker, s.name, s.cap, x.ind);
      }
    }
  }

  /** The table is empty exactly when no stock of the universe has indicators. */
  lemma {:induction false} BuildRowsEmptyIff(universe: seq<Stock>, indicatorsOf: string -> Option<Indicators>)
    ensures |BuildRows(universe, indicatorsOf)| == 0 <==>
      forall i :: 0 <= i < |universe| ==> indicatorsOf(universe[i].ticker).None?
  {
    if |universe| > 0 {
      BuildRowsEmptyIff(universe[1..], indicatorsOf);
      assert forall i :: 1 <= i < |universe| ==> universe[i] == universe[1..][i - 1];
    }
  }

  /**
   * The three outcomes of a page: an error when the universe is empty, an
   * error when nothing could be computed, and otherwise the full table with
   * its filtered view, flagged as filtered exactly when an option is chosen.
   */
  lemma ScreenOutcomes(
    universe: seq<Stock>,
    indicatorsOf: string -> Option<Indicators>,
    rsiOn: bool, percentBOn: bool, widthOn: bool)
    ensures var screen := Page(universe, indicatorsOf, rsiOn, percentBOn, widthOn);
      && (screen.LoadFailed? <==> |universe| == 0)
      && (screen.NothingComputed? <==>
           |universe| > 0 && forall i :: 0 <= i < |universe| ==> indicatorsOf(universe[i].ticker).None?)
      && (screen.Table? ==>
           && 0 < |screen.all| <= |universe|
           && screen.filterApplied == (rsiOn || percentBOn || widthOn)
           && (!screen.filterApplied ==> screen.shown == screen.all))
  {
    BuildRowsEmptyIff(universe, indicatorsOf);
    KeepAllNone(BuildRows(universe, indicatorsOf), []);
  }

  /**
   * Every shown row is a stock of the universe with computed indicators
   * that meets every chosen bound, and every such stock is shown; the
   * shown rows keep the order of the full table.
   */
  lemma ShownRows(
    universe: seq<Stock>,
    indicatorsOf: string -> Option<Indicators>,
    rsiOn: bool, percentBOn: bool, widthOn: bool,
    x: Row)
    ensures var screen := Page(universe, indicatorsOf, rsiOn, percentBOn, widthOn);
      screen.Table? ==>
        && IsSubsequence(screen.shown, screen.all)
        && (x in screen.shown <==>
             && (exists s :: s in universe
                   && indicatorsOf(s.ticker) == Some(x.ind)
                   && x == Row(s.ticker, s.name, s.cap, x.ind))
             && (rsiOn ==> Lt(x.ind.rsi, Fin(RsiBound)))
             && (percentBOn ==> Lt(x.ind.percentB, Fin(PercentBBound)))
             && (widthOn ==> Lt(x.ind.bandWidth, x.ind.avg52wBandWidth)))
  {
    BuildRowsMembership(universe, indicatorsOf, x);
    FilterOptions(BuildRows(universe, indicatorsOf), rsiOn, percentBOn, widthOn, x);
  }

  /** No stock has indicators exactly when every history is missing or shorter than 20 closes. */
  lemma NothingComputedIffShortHistories(universe: seq<Stock>, history: string -> Option<seq<real>>, sqrt: real -> real)
    ensures (forall i :: 0 <= i < |universe| ==> IndicatorsFor(universe[i].ticker, history, sqrt).None?)
        <==> forall s :: s in universe ==> history(s.ticker).None? || |history(s.ticker).value| < MinHistory
  {
    forall s | s in universe
      ensures IndicatorsFor(s.ticker, history, sqrt).None?
          <==> history(s.ticker).None? || |history(s.ticker).value| < MinHistory
    {
    }
  }

  /**
   * A page load shows the load error exactly when the snapshot is missing
   * or lists nothing, the no-results error exactly when no ticker of the
   * universe has a fetchable history of at least 20 closes, and otherwise
   * a table of at most 50 rows.
   */
  lemma RunOutcomes(
    snapshot: Option<Snapshot>,
    lookup: string -> Option<string>,
    history: string -> Option<seq<real>>,
    sqrt: real -> real,
    rsiOn: bool, percentBOn: bool, widthOn: bool)
    ensures var screen := Run(snapshot, lookup, history, sqrt, rsiOn, percentBOn, widthOn);
      && (screen.LoadFailed? <==>
           snapshot.None? || |snapshot.value.kospi| + |snapshot.value.kosdaq| == 0)
      && (screen.NothingComputed? <==>
           && !screen.LoadFailed?
           && forall s :: s in MarketCapTop50(snapshot, lookup) ==>
                history(s.ticker).None? || |history(s.ticker).value| < MinHistory)
      && (screen.Table? ==> |screen.all| <= TopN)
  {
    var universe := MarketCapTop50(snapshot, lookup);
    var indicatorsOf := t => IndicatorsFor(t, history, sqrt);
    assert Run(snapshot, lookup, history, sqrt, rsiOn, percentBOn, widthOn)
        == Page(universe, indicatorsOf, rsiOn, percentBOn, widthOn);
    ScreenOutcomes(universe, indicatorsOf, rsiOn, percentBOn, widthOn);
    NothingComputedIffShortHistories(universe, history, sqrt);
    if snapshot.Some? {
      assert Min(TopN, |snapshot.value.kospi| + |snapshot.value.kosdaq|) <= TopN;
    }
  }
}
