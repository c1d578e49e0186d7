/**
 * `get_market_cap_top50` of app.py: the KOSPI and KOSDAQ market-cap tables
 * are concatenated, the 50 largest caps are kept as pandas' `nlargest`
 * keeps them (descending, ties in input order), and every kept ticker gets
 * a display name, a synthetic one when the name lookup fails.
 */
module Universe {
  import opened Wrappers

  const TopN: nat := 50
  /** The prefix of the synthetic display name, "종목" ("stock"). */
  const FallbackPrefix: string := "종목"

  datatype Listing = Listing(ticker: string, cap: int)

  /** Both market tables of one snapshot date, in the order they are concatenated. */
  datatype Snapshot = Snapshot(kospi: seq<Listing>, kosdaq: seq<Listing>)

  datatype Stock = Stock(ticker: string, name: string, cap: int)

  predicate SortedByCapDesc(s: seq<Listing>)
  {
    forall i, j :: 0 <= i < j < |s| ==> s[i].cap >= s[j].cap
  }

  /** The listings of `s` whose cap is `c`, in order. */
  function WithCap(s: seq<Listing>, c: int): seq<Listing>
  {
    if |s| == 0 then []
    else (if s[0].cap == c then [s[0]] else []) + WithCap(s[1..], c)
  }

  /** Inserts `x` in front of the first listing whose cap is not larger. */
  function InsertByCap(x: Listing, s: seq<Listing>): (r: seq<Listing>)
    ensures |r| == |s| + 1
    ensures multiset(r) == multiset(s) + multiset{x}
  {
    if |s| == 0 || x.cap >= s[0].cap then [x] + s
    else
      assert s == [s[0]] + s[1..];
      [s[0]] + InsertByCap(x, s[1..])
  }

  /** The head of an insertion is either the inserted listing or the old head. */
  lemma InsertHead(x: Listing, s: seq<Listing>)
    ensures InsertByCap(x, s)[0] == x || (|s| > 0 && InsertByCap(x, s)[0] == s[0])
  {
  }

  lemma {:induction false} InsertKeepsSorted(x: Listing, s: seq<Listing>)
    requires SortedByCapDesc(s)
    ensures SortedByCapDesc(InsertByCap(x, s))
  {
    if |s| > 0 && x.cap < s[0].cap {
      var rest := InsertByCap(x, s[1..]);
      InsertKeepsSorted(x, s[1..]);
      InsertHead(x, s[1..]);
      var r := [s[0]] + rest;
      forall i, j | 0 <= i < j < |r|
        ensures r[i].cap >= r[j].cap
      {
        if i == 0 {
          assert r[j] == rest[j-1];
          if 1 < j {
            assert rest[0].cap >= rest[j-1].cap;
          }
        } else {
          assert r[i] == rest[i-1] && r[j] == rest[j-1];
        }
      }
    }
  }

  /** A stable sort by descending market cap: the order `nlargest(keep='first')` returns. */
  function SortByCapDesc(xs: seq<Listing>): (r: seq<Listing>)
    ensures |r| == |xs|
    ensures multiset(r) == multiset(xs)
  {
    if |xs| == 0 then []
    else
      assert xs == [xs[0]] + xs[1..];
      InsertByCap(xs[0], SortByCapDesc(xs[1..]))
  }

  lemma {:induction false} SortIsSorted(xs: seq<Listing>)
    ensures SortedByCapDesc(SortByCapDesc(xs))
  {
    if |xs| > 0 {
      SortIsSorted(xs[1..]);
      InsertKeepsSorted(xs[0], SortByCapDesc(xs[1..]));
    }
  }

  /** `nlargest(k, '시가총액')` on the concatenated table. */
  function NLargest(xs: seq<Listing>, k: nat): seq<Listing>
  {
    SortByCapDesc(xs)[..Min(k, |xs|)]
  }

  function NameOf(ticker: string, lookup: string -> Option<string>): (name: string)
  {
    match lookup(ticker)
    case Some(n) => n
    case None => FallbackPrefix + ticker
  }

  function AttachNames(top: seq<Listing>, lookup: string -> Option<string>): (r: seq<Stock>)
    ensures |r| == |top|
    ensures forall i :: 0 <= i < |top| ==> r[i].ticker == top[i].ticker && r[i].cap == top[i].cap
    ensures forall i :: 0 <= i < |top| ==> r[i].name == NameOf(top[i].ticker, lookup)
  {
    seq(|top|, i requires 0 <= i < |top| => Stock(top[i].ticker, NameOf(top[i].ticker, lookup), top[i].cap))
  }

  /**
   * The universe: empty when the snapshot could not be fetched (the
   * program's exception handler returns an empty frame).
   */
  function MarketCapTop50(snapshot: Option<Snapshot>, lookup: string -> Option<string>): (r: seq<Stock>)
    ensures snapshot.None? ==> r == []
    ensures snapshot.Some? ==> |r| == Min(TopN, |snapshot.value.kospi| + |snapshot.value.kosdaq|)
  {
    match snapshot
    case None => []
    case Some(s) => AttachNames(NLargest(s.kospi + s.kosdaq, TopN), lookup)
  }

  lemma {:induction false} WithCapConcat(a: seq<Listing>, b: seq<Listing>, c: int)
    ensures WithCap(a + b, c) == WithCap(a, c) + WithCap(b, c)
  {
    if |a| == 0 {
      assert a + b == b;
    } else {
      var hd := if a[0].cap == c then [a[0]] else [];
      assert (a + b)[0] == a[0];
      assert (a + b)[1..] == a[1..] + b;
      WithCapConcat(a[1..], b, c);
      calc {
        WithCap(a + b, c);
        hd + WithCap(a[1..] + b, c);
        hd + (WithCap(a[1..], c) + WithCap(b, c));
        (hd + WithCap(a[1..], c)) + WithCap(b, c);
        WithCap(a, c) + WithCap(b, c);
      }
    }
  }

  /** Insertion places `x` ahead of every listing of equal cap and keeps their order. */
  lemma {:induction false} InsertKeepsTies(x: Listing, s: seq<Listing>, c: int)
    ensures WithCap(InsertByCap(x, s), c) == (if x.cap == c then [x] else []) + WithCap(s, c)
  {
    if |s| == 0 || x.cap >= s[0].cap {
      assert ([x] + s)[1..] == s;
    } else {
      var rest := InsertByCap(x, s[1..]);
      InsertKeepsTies(x, s[1..], c);
      assert ([s[0]] + rest)[1..] == rest;
      // x ranks strictly below s[0], so at most one of them has cap c
      if x.cap == c {
        assert s[0].cap != c;
        assert WithCap(InsertByCap(x, s), c) == WithCap(rest, c);
      } else {
        assert WithCap(InsertByCap(x, s), c) == (if s[0].cap == c then [s[0]] else []) + WithCap(rest, c);
      }
    }
  }

  /** The sort is stable: listings of equal cap stay in input order, so the first of a tie is kept. */
  lemma {:induction false} SortIsStable(xs: seq<Listing>, c: int)
    ensures WithCap(SortByCapDesc(xs), c) == WithCap(xs, c)
  {
    if |xs| > 0 {
      SortIsStable(xs[1..], c);
      InsertKeepsTies(xs[0], SortByCapDesc(xs[1..]), c);
      WithCapConcat([xs[0]], xs[1..], c);
      assert xs == [xs[0]] + xs[1..];
    }
  }

  /** The selection lists the largest caps first. */
  lemma NLargestIsSorted(xs: seq<Listing>, k: nat)
    ensures SortedByCapDesc(NLargest(xs, k))
  {
    SortIsSorted(xs);
    var s := SortByCapDesc(xs);
    var top := NLargest(xs, k);
    forall i, j | 0 <= i < j < |top|
      ensures top[i].cap >= top[j].cap
    {
      assert top[i] == s[i] && top[j] == s[j];
    }
  }

  /** In a ranking, every listing before position m has at least the cap of every listing after it. */
  lemma PrefixDominates(s: seq<Listing>, m: nat)
    requires SortedByCapDesc(s) && m <= |s|
    ensures forall a, b :: a in s[..m] && b in s[m..] ==> a.cap >= b.cap
  {
    forall a, b | a in s[..m] && b in s[m..]
      ensures a.cap >= b.cap
    {
      var i :| 0 <= i < m && s[..m][i] == a;
      var j :| 0 <= j < |s| - m && s[m..][j] == b;
      assert s[i] == a && s[m + j] == b;
    }
  }

  /**
   * At most k listings are selected, all from the input, and none of the
   * listings left out has a larger cap than any selected one.
   */
  lemma NLargestSelectsLargest(xs: seq<Listing>, k: nat)
    ensures |NLargest(xs, k)| == Min(k, |xs|) <= k
    ensures multiset(NLargest(xs, k)) <= multiset(xs)
    ensures forall a, b :: a in NLargest(xs, k) && b in multiset(xs) - multiset(NLargest(xs, k)) ==> a.cap >= b.cap
  {
    var s := SortByCapDesc(xs);
    var m := Min(k, |xs|);
    var top, rest := s[..m], s[m..];
    SortIsSorted(xs);
    PrefixDominates(s, m);
    assert s == top + rest;
    calc {
      multiset(xs);
      multiset(s);
      multiset(top) + multiset(rest);
    }
    assert multiset(xs) - multiset(top) == multiset(rest);
  }

  /**
   * Every selected ticker keeps its cap and gets a name: the looked-up one,
   * or "종목" + ticker when the lookup fails. No ticker is dropped for a
   * failed lookup: the stock list is exactly as long as the selection.
   */
  lemma NamesNeverDrop(s: Snapshot, lookup: string -> Option<string>)
    ensures var top := NLargest(s.kospi + s.kosdaq, TopN);
      var r := MarketCapTop50(Some(s), lookup);
      && |r| == |top|
      && forall i :: 0 <= i < |r| ==>
           && r[i].ticker == top[i].ticker && r[i].cap == top[i].cap
           && (lookup(top[i].ticker).None? ==> r[i].name == FallbackPrefix + top[i].ticker)
           && (lookup(top[i].ticker).Some? ==> r[i].name == lookup(top[i].ticker).value)
  {
  }

  /** The universe is sorted by descending cap and no left-out listing outranks a selected one. */
  lemma UniverseIsTopByCap(s: Snapshot, lookup: string -> Option<string>)
    ensures var all := s.kospi + s.kosdaq;
      var r := MarketCapTop50(Some(s), lookup);
      && |r| <= TopN
      && (forall i, j :: 0 <= i < j < |r| ==> r[i].cap >= r[j].cap)
      && forall i, b :: 0 <= i < |r| && b in multiset(all) - multiset(NLargest(all, TopN)) ==> r[i].cap >= b.cap
  {
    var all := s.kospi + s.kosdaq;
    var top := NLargest(all, TopN);
    NLargestSelectsLargest(all, TopN);
    NLargestIsSorted(all, TopN);
    var r := MarketCapTop50(Some(s), lookup);
    assert r == AttachNames(top, lookup);
    assert forall i :: 0 <= i < |r| ==> r[i].cap == top[i].cap;
    forall i, b: Listing | 0 <= i < |r| && b in multiset(all) - multiset(top)
      ensures r[i].cap >= b.cap
    {
      assert top[i] in top;
    }
  }
}
