/** The inputs of the multi-asset backtest (backtest/portfolio.py): each
    ticker's prepared history with its uptrend column, the trading calendar
    of all tickers, the dict order of the tickers, and the price a ticker was
    last seen at while the calendar is replayed. */
module Calendar {
  import opened Market
  import opened Ledger
  import Strategy

  /** One prepared row of a ticker's history: its close and uptrend flag. */
  datatype Day = Day(close: real, uptrend: bool)

  /** A ticker's prepared history, one row per trading date. */
  type History = map<Date, Day>

  predicate PositivePrices(histories: map<Ticker, History>)
  {
    forall u, d :: u in histories && d in histories[u] ==> histories[u][d].close > 0.0
  }

  // ---------------------------------------------------------------------------
  // History preparation and calendar

  /** The uptrend column of `_prepare_history`: false throughout the warm-up
      rows, the uptrend test of each row after them. */
  method UptrendFlags(lows: seq<real>, sma50: seq<Option<real>>, sma150: seq<Option<real>>,
                      sma200: seq<Option<real>>, warmup: int)
    returns (flags: seq<bool>)
    requires |sma50| == |lows| && |sma150| == |lows| && |sma200| == |lows|
    ensures |flags| == |lows|
    ensures forall i :: 0 <= i < |lows| && i < warmup ==> !flags[i]
    ensures forall i :: 0 <= i < |lows| && warmup <= i ==>
              flags[i] == Strategy.IsOnUpTrend(lows[i], sma50[i], sma150[i], sma200[i])
  {
    flags := seq(|lows|, _ => false);
    for i := 0 to |lows|
      invariant |flags| == |lows|
      invariant forall j :: 0 <= j < i && j < warmup ==> !flags[j]
      invariant forall j :: 0 <= j < i && warmup <= j ==>
                  flags[j] == Strategy.IsOnUpTrend(lows[j], sma50[j], sma150[j], sma200[j])
      invariant forall j :: i <= j < |lows| ==> !flags[j]
    {
      if i < warmup {
        continue;
      }
      flags := flags[i := Strategy.IsOnUpTrend(lows[i], sma50[i], sma150[i], sma200[i])];
    }
  }

  predicate StrictlyIncreasing(xs: seq<Date>)
  {
    forall i, j :: 0 <= i < j < |xs| ==> xs[i] < xs[j]
  }

  /** Inserts a new date into a sorted, duplicate-free date list. */
  function InsertSorted(xs: seq<Date>, d: Date): (r: seq<Date>)
    requires StrictlyIncreasing(xs) && d !in xs
    ensures StrictlyIncreasing(r)
    ensures |r| == |xs| + 1
    ensures forall x :: x in r <==> x in xs || x == d
  {
    if xs == [] || d < xs[0] then [d] + xs
    else
      var rest := InsertSorted(xs[1..], d);
      assert forall k :: 0 <= k < |rest| ==> xs[0] < rest[k] by {
        forall k | 0 <= k < |rest| ensures xs[0] < rest[k] {
          assert rest[k] in rest;
          if rest[k] != d {
            assert rest[k] in xs[1..];
          }
        }
      }
      [xs[0]] + rest
  }

  /** Some date of a non-empty set. */
  method PickDate(s: set<Date>) returns (d: Date)
    requires s != {}
    ensures d in s
  {
    assert exists x :: x in s by {
      if forall x :: x !in s { assert false; }
    }
    d :| d in s;
  }

  /** `_union_dates`: every date on which some ticker trades, in ascending
      order and without repetition. */
  method UnionDates(histories: map<Ticker, History>) returns (dates: seq<Date>)
    ensures StrictlyIncreasing(dates)
    ensures forall d :: d in dates <==> exists u :: u in histories && d in histories[u]
  {
    var all: set<Date> := {};
    var rest := histories.Keys;
    while rest != {}
      invariant rest <= histories.Keys
      invariant forall d :: d in all <==> exists u :: u in histories && u !in rest && d in histories[u]
      decreases rest
    {
      var u :| u in rest;
      all := all + histories[u].Keys;
      rest := rest - {u};
    }
    dates := [];
    var left := all;
    while left != {}
      invariant left <= all
      invariant StrictlyIncreasing(dates)
      invariant forall d :: d in dates <==> d in all && d !in left
      decreases left
    {
      var d := PickDate(left);
      dates := InsertSorted(dates, d);
      left := left - {d};
    }
  }

  /** The position of the first listing of `u` in `ts`. */
  function FirstIndex(ts: seq<Ticker>, u: Ticker): (k: nat)
    requires u in ts
    ensures k < |ts| && ts[k] == u
    ensures forall j :: 0 <= j < k ==> ts[j] != u
  {
    var prefix := ts[..|ts| - 1];
    if u in prefix then FirstIndex(prefix, u) else |ts| - 1
  }

  /** The tickers of a list, each once, in the order of their first listing:
      the key order of a dict built from the list. */
  function Dedup(ts: seq<Ticker>): (r: seq<Ticker>)
    ensures forall u :: u in r <==> u in ts
    ensures forall i, j :: 0 <= i < j < |r| ==> r[i] != r[j]
  {
    if ts == [] then []
    else
      var rest := Dedup(ts[..|ts| - 1]);
      if ts[|ts| - 1] in rest then rest else rest + [ts[|ts| - 1]]
  }

  /** Dedup keeps the order of first listing: of two tickers it returns, the
      earlier one was listed first. */
  lemma {:induction false} DedupKeepsFirstListing(ts: seq<Ticker>)
    ensures forall i, j :: 0 <= i < j < |Dedup(ts)| ==> FirstIndex(ts, Dedup(ts)[i]) < FirstIndex(ts, Dedup(ts)[j])
  {
    if ts != [] {
      var prefix, last := ts[..|ts| - 1], ts[|ts| - 1];
      var rest := Dedup(prefix);
      DedupKeepsFirstListing(prefix);
      var r := Dedup(ts);
      assert r == if last in rest then rest else rest + [last];
      forall i, j | 0 <= i < j < |r|
        ensures FirstIndex(ts, r[i]) < FirstIndex(ts, r[j])
      {
        assert r[i] == rest[i] && rest[i] in prefix;
        assert FirstIndex(ts, r[i]) == FirstIndex(prefix, r[i]) < |prefix|;
        if j < |rest| {
          assert r[j] == rest[j] && rest[j] in prefix;
          assert FirstIndex(ts, r[j]) == FirstIndex(prefix, rest[j]);
          assert FirstIndex(prefix, rest[i]) < FirstIndex(prefix, rest[j]);
        } else {
          assert r[j] == last && last !in prefix;
          assert FirstIndex(ts, r[j]) == |prefix|;
        }
      }
    }
  }

  /** The price a ticker was last seen at, walking a calendar in order; the
      fallback stands for the price before the calendar starts. */
  function LastKnown(rows: History, calendar: seq<Date>, fallback: Option<real>): Option<real>
  {
    if calendar == [] then fallback
    else if calendar[|calendar| - 1] in rows then Some(rows[calendar[|calendar| - 1]].close)
    else LastKnown(rows, calendar[..|calendar| - 1], fallback)
  }

  /** The last price seen is the close of the last calendar date the ticker
      has a row on, and the fallback while it has none. */
  lemma {:induction false} LastKnownIsLastRowSeen(rows: History, calendar: seq<Date>, fallback: Option<real>)
    ensures (forall k :: 0 <= k < |calendar| ==> calendar[k] !in rows) ==> LastKnown(rows, calendar, fallback) == fallback
    ensures (exists k :: 0 <= k < |calendar| && calendar[k] in rows) ==>
              exists k :: && 0 <= k < |calendar| && calendar[k] in rows
                          && LastKnown(rows, calendar, fallback) == Some(rows[calendar[k]].close)
                          && forall j :: k < j < |calendar| ==> calendar[j] !in rows
  {
    if calendar != [] {
      var last, prefix := |calendar| - 1, calendar[..|calendar| - 1];
      if calendar[last] !in rows {
        LastKnownIsLastRowSeen(rows, prefix, fallback);
        assert forall k :: 0 <= k < |prefix| ==> prefix[k] == calendar[k];
        if exists k :: 0 <= k < |calendar| && calendar[k] in rows {
          var k0 :| 0 <= k0 < |calendar| && calendar[k0] in rows;
          assert prefix[k0] in rows;
          var k :| && 0 <= k < |prefix| && prefix[k] in rows
                   && LastKnown(rows, prefix, fallback) == Some(rows[prefix[k]].close)
                   && forall j :: k < j < |prefix| ==> prefix[j] !in rows;
          assert forall j :: k < j < |calendar| ==> calendar[j] !in rows;
        }
      }
    }
  }

  /** Replaying the whole calendar leaves each ticker at the close of its
      latest row; a ticker without rows keeps the fallback. */
  lemma {:induction false} LastKnownIsLatestRow(rows: History, calendar: seq<Date>, fallback: Option<real>)
    requires StrictlyIncreasing(calendar)
    requires forall d :: d in rows ==> d in calendar
    ensures rows == map[] ==> LastKnown(rows, calendar, fallback) == fallback
    ensures rows != map[] ==>
              exists d :: d in rows && (forall d' :: d' in rows ==> d' <= d) &&
                          LastKnown(rows, calendar, fallback) == Some(rows[d].close)
  {
    if calendar == [] {
      assert forall d :: d !in rows;
      assert rows == map[];
    } else {
      var last := calendar[|calendar| - 1];
      var prefix := calendar[..|calendar| - 1];
      if last in rows {
        forall d' | d' in rows ensures d' <= last {
          var k :| 0 <= k < |calendar| && calendar[k] == d';
          assert k == |calendar| - 1 || calendar[k] < last;
        }
      } else {
        forall d | d in rows ensures d in prefix {
          var k :| 0 <= k < |calendar| && calendar[k] == d;
          assert k < |calendar| - 1;
          assert prefix[k] == d;
        }
        assert StrictlyIncreasing(prefix);
        LastKnownIsLatestRow(rows, prefix, fallback);
        if rows == map[] {
          assert LastKnown(rows, calendar, fallback) == LastKnown(rows, prefix, fallback);
        }
      }
    }
  }

  /** `price_book` after the refresh of a date: a ticker with a row on that
      date takes the row's close; every other entry keeps its price. */
  function Refreshed(histories: map<Ticker, History>, prices: map<Ticker, Option<real>>, date: Date)
    : (r: map<Ticker, Option<real>>)
    ensures r.Keys == prices.Keys
    ensures forall u :: u in r && u in histories && date in histories[u] ==> r[u] == Some(histories[u][date].close)
    ensures forall u :: u in r && (u !in histories || date !in histories[u]) ==> r[u] == prices[u]
    ensures PositivePrices(histories) && PositiveBook(prices) ==> PositiveBook(r)
  {
    map u | u in prices :: if u in histories && date in histories[u] then Some(histories[u][date].close) else prices[u]
  }

  /** The price book after replaying a calendar: every ticker at the price it
      was last seen at, or at its starting entry if it had no row yet. */
  function LastKnownBook(histories: map<Ticker, History>, start: map<Ticker, Option<real>>, calendar: seq<Date>)
    : map<Ticker, Option<real>>
  {
    map u | u in start :: if u in histories then LastKnown(histories[u], calendar, start[u]) else start[u]
  }

  /** Refreshing the book of a replayed calendar with the next date gives the
      book of the longer calendar. */
  lemma RefreshExtendsLastKnown(histories: map<Ticker, History>, start: map<Ticker, Option<real>>,
                                calendar: seq<Date>, date: Date)
    ensures Refreshed(histories, LastKnownBook(histories, start, calendar), date)
            == LastKnownBook(histories, start, calendar + [date])
  {
    var longer := calendar + [date];
    assert longer[..|longer| - 1] == calendar;
    var lhs := Refreshed(histories, LastKnownBook(histories, start, calendar), date);
    var rhs := LastKnownBook(histories, start, longer);
    forall u | u in lhs
      ensures lhs[u] == rhs[u]
    {
      if u in histories {
        assert LastKnown(histories[u], longer, start[u])
               == if date in histories[u] then Some(histories[u][date].close)
                  else LastKnown(histories[u], calendar, start[u]);
      }
    }
  }
}
