/** The bookkeeping pieces of the multi-asset backtest (backtest/portfolio.py):
    the risk constants, the per-ticker `Position`, the valuation of a book of
    positions against a price book, the decision conditions of the day loop
    and the trade records with their capped and per-ticker views. */
module Ledger {
  import opened Market

  type Ticker = string
  type Date = int

  const MAX_ALLOC_PER_TICKER: real := 0.20
  const TRANCHE_FRACTION: real := 0.05
  const TRAILING_STOP_PCT: real := 0.15
  const RISK_CUTOFF: real := 0.01
  /** A tranche sell that leaves at most this many shares closes the position. */
  const DUST_SHARES: real := 0.000000001

  function Min(a: real, b: real): real { if a <= b then a else b }
  function Max(a: real, b: real): real { if a >= b then a else b }

  /** A ticker's `Position` record: shares held, average cost, highest price
      since entry, trailing stop, and the last price seen. */
  datatype Position = Position(shares: real, avgCost: real, highestPrice: real, trailingStop: real,
                               lastPrice: Option<real>)
  {
    /** `value`: the holding's worth at a price, 0 when the price is unknown. */
    function Value(price: Option<real>): (r: real)
      ensures price.None? ==> r == 0.0
    {
      if price.None? then 0.0 else shares * price.value
    }

    /** `reset`: closes the position, keeping the last price seen. */
    function Reset(): (r: Position)
      ensures Consistent(r) && r.shares == 0.0 && r.lastPrice == lastPrice
      ensures forall price :: r.Value(price) == 0.0
    {
      Position(0.0, 0.0, 0.0, 0.0, lastPrice)
    }
  }

  /** The position a ticker starts with: the record's defaults. */
  const NEW_POSITION: Position := Position(0.0, 0.0, 0.0, 0.0, None)

  /** The position invariant: shares are never negative; a position with no
      shares has every other field reset; a held position has a positive
      average cost and highest price, and its trailing stop sits exactly
      TRAILING_STOP_PCT below the highest price. */
  predicate Consistent(v: Position)
    ensures Consistent(v) && v.shares > 0.0 ==> 0.0 < v.trailingStop < v.highestPrice
  {
    && v.shares >= 0.0
    && (v.shares == 0.0 ==> v.avgCost == 0.0 && v.highestPrice == 0.0 && v.trailingStop == 0.0)
    && (v.shares > 0.0 ==>
          v.avgCost > 0.0 && v.highestPrice > 0.0 &&
          v.trailingStop == v.highestPrice * (1.0 - TRAILING_STOP_PCT))
  }

  predicate AllConsistent(book: map<Ticker, Position>)
  {
    forall u :: u in book ==> Consistent(book[u])
  }

  // ---------------------------------------------------------------------------
  // Valuation

  function PriceOf(prices: map<Ticker, Option<real>>, t: Ticker): Option<real>
  {
    if t in prices then prices[t] else None
  }

  /** Every entry of the ticker list has a key in the set. */
  predicate Listed(ts: seq<Ticker>, keys: set<Ticker>)
  {
    forall i :: 0 <= i < |ts| ==> ts[i] in keys
  }

  /** Every known price in the book is positive. */
  predicate PositiveBook(prices: map<Ticker, Option<real>>)
  {
    forall u :: u in prices && prices[u].Some? ==> prices[u].value > 0.0
  }

  /** `sum(positions[t].value(prices.get(t)) for t in tickers)`: one term per
      entry of the ticker list. */
  function SumValues(ts: seq<Ticker>, book: map<Ticker, Position>, prices: map<Ticker, Option<real>>): (r: real)
    requires Listed(ts, book.Keys)
  {
    if ts == [] then 0.0
    else SumValues(ts[..|ts| - 1], book, prices) + book[ts[|ts| - 1]].Value(PriceOf(prices, ts[|ts| - 1]))
  }

  /** A book holding nothing is worth nothing. */
  lemma {:induction false} SumValuesOfFlatBook(ts: seq<Ticker>, book: map<Ticker, Position>,
                                               prices: map<Ticker, Option<real>>)
    requires Listed(ts, book.Keys)
    requires forall i :: 0 <= i < |ts| ==> book[ts[i]].shares == 0.0
    ensures SumValues(ts, book, prices) == 0.0
  {
    if ts != [] {
      SumValuesOfFlatBook(ts[..|ts| - 1], book, prices);
    }
  }

  /** Positions satisfying the invariant at positive prices are never worth
      less than nothing. */
  lemma {:induction false} SumValuesNonNegative(ts: seq<Ticker>, book: map<Ticker, Position>,
                                                prices: map<Ticker, Option<real>>)
    requires Listed(ts, book.Keys) && AllConsistent(book) && PositiveBook(prices)
    ensures SumValues(ts, book, prices) >= 0.0
  {
    if ts != [] {
      SumValuesNonNegative(ts[..|ts| - 1], book, prices);
      var last := ts[|ts| - 1];
      assert book[last].shares >= 0.0;
    }
  }

  function Occurrences(ts: seq<Ticker>, t: Ticker): (n: nat)
    ensures n > 0 <==> t in ts
  {
    if ts == [] then 0
    else Occurrences(ts[..|ts| - 1], t) + (if ts[|ts| - 1] == t then 1 else 0)
  }

  /** `n` copies of `d` added up. */
  function Repeat(n: nat, d: real): (r: real)
    ensures n == 0 ==> r == 0.0
    ensures n == 1 ==> r == d
    ensures d == 0.0 ==> r == 0.0
    ensures d >= 0.0 ==> r >= 0.0
  {
    if n == 0 then 0.0 else Repeat(n - 1, d) + d
  }

  /** Changing one ticker's position changes the summed value by the change in
      that holding's worth at its current price, once per listing of the
      ticker. */
  lemma {:induction false} SumValuesAfterUpdate(ts: seq<Ticker>, book: map<Ticker, Position>,
                                                prices: map<Ticker, Option<real>>, t: Ticker, v: Position)
    requires Listed(ts, book.Keys) && t in book
    ensures Listed(ts, book[t := v].Keys)
    ensures SumValues(ts, book[t := v], prices)
            == SumValues(ts, book, prices) +
               Repeat(Occurrences(ts, t), v.Value(PriceOf(prices, t)) - book[t].Value(PriceOf(prices, t)))
  {
    if ts != [] {
      var prefix, last := ts[..|ts| - 1], ts[|ts| - 1];
      SumValuesAfterUpdate(prefix, book, prices, t, v);
      if last != t {
        assert book[t := v][last] == book[last];
      }
    }
  }

  /** The summed value only looks at the listed tickers' positions. */
  lemma {:induction false} SumValuesOfListed(ts: seq<Ticker>, book: map<Ticker, Position>, book': map<Ticker, Position>,
                                             prices: map<Ticker, Option<real>>)
    requires Listed(ts, book.Keys) && Listed(ts, book'.Keys)
    requires forall i :: 0 <= i < |ts| ==> book[ts[i]].shares == book'[ts[i]].shares
    ensures SumValues(ts, book, prices) == SumValues(ts, book', prices)
  {
    if ts != [] {
      SumValuesOfListed(ts[..|ts| - 1], book, book', prices);
    }
  }

  // ---------------------------------------------------------------------------
  // Decision conditions of the day loop

  /** The mark-to-market step: a held position's highest price follows a new
      high, and its trailing stop is recomputed from it. */
  function Marked(v: Position, price: real): (m: Position)
    ensures m.shares == v.shares && m.avgCost == v.avgCost && m.lastPrice == v.lastPrice
    ensures m.highestPrice >= v.highestPrice
    ensures v.shares > 0.0 ==> m.highestPrice >= price
    ensures m.highestPrice != v.highestPrice ==> v.shares > 0.0 && m.highestPrice == price
    ensures Consistent(v) ==> Consistent(m)
  {
    if v.shares > 0.0 && price > v.highestPrice then
      v.(highestPrice := price, trailingStop := price * (1.0 - TRAILING_STOP_PCT))
    else v
  }

  /** The loss cutoff: the unrealised loss of a held position reaches
      RISK_CUTOFF of the current total equity (the boundary included). */
  predicate LossCutoffHit(v: Position, price: real, totalEquity: real)
    ensures LossCutoffHit(v, price, totalEquity) ==> v.shares > 0.0
    ensures totalEquity > 0.0 ==>
              (LossCutoffHit(v, price, totalEquity) <==>
                 v.shares > 0.0 && v.avgCost * v.shares - v.shares * price >= totalEquity * RISK_CUTOFF)
  {
    v.shares > 0.0 && Max(0.0, v.avgCost * v.shares - v.shares * price) >= totalEquity * RISK_CUTOFF
  }

  /** The trailing stop: a held position with a set stop trades at or below it. */
  predicate TrailingStopHit(v: Position, price: real)
    ensures TrailingStopHit(v, price) ==> v.shares > 0.0 && price <= v.trailingStop
    ensures Consistent(v) ==>
              (TrailingStopHit(v, price) <==> v.shares > 0.0 && price <= v.highestPrice * (1.0 - TRAILING_STOP_PCT))
  {
    v.shares > 0.0 && v.trailingStop != 0.0 && price <= v.trailingStop
  }

  /** Day-over-day direction: a first price or a strictly higher one. */
  predicate Increasing(prev: Option<real>, price: real)
    ensures prev == Some(price) ==> !Increasing(prev, price)
  {
    prev.None? || price > prev.value
  }

  /** Day-over-day direction: a strictly lower price than the previous one. */
  predicate Decreasing(prev: Option<real>, price: real)
    ensures Decreasing(prev, price) ==> !Increasing(prev, price)
  {
    prev.Some? && price < prev.value
  }

  /** At most one direction holds, and an unchanged price has neither. */
  lemma DirectionsExclusive(prev: Option<real>, price: real)
    ensures !(Increasing(prev, price) && Decreasing(prev, price))
    ensures prev == Some(price) ==> !Increasing(prev, price) && !Decreasing(prev, price)
  {
  }

  /** The size of a buy on an up day: a tranche of the equity, but no more than
      the room left under the per-ticker allocation cap. */
  function BuySize(totalEquity: real, currentValue: real): (r: real)
    ensures r <= totalEquity * TRANCHE_FRACTION
    ensures currentValue + r <= totalEquity * MAX_ALLOC_PER_TICKER
    ensures r == totalEquity * TRANCHE_FRACTION || r == totalEquity * MAX_ALLOC_PER_TICKER - currentValue
  {
    Min(totalEquity * TRANCHE_FRACTION, totalEquity * MAX_ALLOC_PER_TICKER - currentValue)
  }

  // ---------------------------------------------------------------------------
  // Trade records

  datatype Action = Buy | Sell | Exit

  /** One trade as `log_trade` receives it; the profit and the equity at the
      time are given for sells and exits only. */
  datatype TradeEvent = TradeEvent(date: Date, action: Action, ticker: Ticker, price: real,
                                   sharesAfter: real, avgCostAfter: real,
                                   profit: Option<real>, equity: Option<real>)

  /** One ticker's entry of `trade_counts`. */
  datatype Counts = Counts(buys: nat, sells: nat, exits: nat)

  function Bump(c: Counts, a: Action): Counts
  {
    match a
    case Buy => c.(buys := c.buys + 1)
    case Sell => c.(sells := c.sells + 1)
    case Exit => c.(exits := c.exits + 1)
  }

  /** The trades of one ticker, in order. */
  function ForTicker(events: seq<TradeEvent>, t: Ticker): (r: seq<TradeEvent>)
    ensures |r| <= |events|
    ensures forall e :: e in r <==> e in events && e.ticker == t
  {
    if events == [] then []
    else
      var rest := ForTicker(events[..|events| - 1], t);
      var last := events[|events| - 1];
      assert events == events[..|events| - 1] + [last];
      if last.ticker == t then rest + [last] else rest
  }

  /** The per-action trade counts of one ticker. */
  function CountsOf(events: seq<TradeEvent>, t: Ticker): (c: Counts)
    ensures c.buys + c.sells + c.exits <= |events|
  {
    if events == [] then Counts(0, 0, 0)
    else
      var last := events[|events| - 1];
      var rest := CountsOf(events[..|events| - 1], t);
      if last.ticker == t then Bump(rest, last.action) else rest
  }

  /** Every trade of a ticker is counted under exactly one action. */
  lemma {:induction false} CountsMatchTrades(events: seq<TradeEvent>, t: Ticker)
    ensures var c := CountsOf(events, t); c.buys + c.sells + c.exits == |ForTicker(events, t)|
  {
    if events != [] {
      CountsMatchTrades(events[..|events| - 1], t);
    }
  }

  /** The capped recent-trades view: the last `limit` trades, or all of them
      while there are fewer. */
  function Recent(full: seq<TradeEvent>, limit: nat): (r: seq<TradeEvent>)
    ensures |r| == if |full| <= limit then |full| else limit
  {
    if |full| <= limit then full else full[|full| - limit..]
  }

  /** Dropping the oldest entry of a full view before appending keeps the view
      equal to the last `limit` trades: the list behaves as a bounded FIFO. */
  lemma RecentAppend(full: seq<TradeEvent>, e: TradeEvent, limit: nat)
    requires limit > 0
    ensures var view := Recent(full, limit);
            Recent(full + [e], limit) == (if |view| >= limit then view[1..] else view) + [e]
  {
    var view := Recent(full, limit);
    var next := full + [e];
    if |full| < limit {
      assert Recent(next, limit) == next;
    } else {
      assert |view| == limit;
      assert Recent(next, limit) == next[|next| - limit..];
      assert next[|next| - limit..] == full[|full| - limit + 1..] + [e];
    }
  }

  /** Appending to a log in two steps is appending once. */
  lemma AppendTwice<T>(log: seq<T>, first: seq<T>, second: seq<T>)
    ensures log + first + second == log + (first + second)
  {
  }

  /** The state `log_trade` keeps: the capped recent view, the number of
      entries dropped from it, the per-ticker counts, the full log and the
      per-ticker logs. */
  datatype LogState = LogState(recent: seq<TradeEvent>, skipped: nat, counts: map<Ticker, Counts>,
                               full: seq<TradeEvent>, perTicker: map<Ticker, seq<TradeEvent>>)

  /** The empty log of a run over the given tickers. */
  function EmptyLog(keys: set<Ticker>): LogState
  {
    LogState([], 0, map u | u in keys :: Counts(0, 0, 0), [], map u | u in keys :: [])
  }

  /** One call of `log_trade` with a recent view of capacity `cap` (zero
      while logging is off): the trade is counted; with logging on, a full
      recent view first loses its oldest entry, then the trade is appended to
      the recent view, the full log and its ticker's list. A ticker outside
      the run has no entries to update. */
  function LogTrade(st: LogState, e: TradeEvent, cap: nat): (r: LogState)
    ensures r.counts.Keys == st.counts.Keys && r.perTicker.Keys == st.perTicker.Keys
    ensures e.ticker in st.counts ==> r.counts[e.ticker] == Bump(st.counts[e.ticker], e.action)
    ensures forall u :: u in st.counts && u != e.ticker ==> r.counts[u] == st.counts[u]
    ensures cap == 0 ==> r.recent == st.recent && r.skipped == st.skipped && r.full == st.full &&
                         r.perTicker == st.perTicker
    ensures cap > 0 ==> r.full == st.full + [e] && r.recent != [] && r.recent[|r.recent| - 1] == e
    ensures cap > 0 && |st.recent| <= cap ==> |r.recent| <= cap
  {
    var counts := if e.ticker in st.counts then st.counts[e.ticker := Bump(st.counts[e.ticker], e.action)]
                  else st.counts;
    if cap == 0 then st.(counts := counts)
    else
      var dropped := |st.recent| >= cap;
      var perTicker := if e.ticker in st.perTicker then st.perTicker[e.ticker := st.perTicker[e.ticker] + [e]]
                       else st.perTicker;
      LogState((if dropped then st.recent[1..] else st.recent) + [e], if dropped then st.skipped + 1 else st.skipped,
               counts, st.full + [e], perTicker)
  }

  /** The log after the given trades, in order. */
  function Replay(keys: set<Ticker>, cap: nat, events: seq<TradeEvent>): (r: LogState)
    ensures |r.recent| <= cap
  {
    if events == [] then EmptyLog(keys)
    else LogTrade(Replay(keys, cap, events[..|events| - 1]), events[|events| - 1], cap)
  }

  /** The counts and the per-ticker lists always have an entry for each of
      the run's tickers and no other. */
  lemma {:induction false} ReplayKeys(keys: set<Ticker>, cap: nat, events: seq<TradeEvent>)
    ensures Replay(keys, cap, events).counts.Keys == keys && Replay(keys, cap, events).perTicker.Keys == keys
  {
    if events != [] {
      ReplayKeys(keys, cap, events[..|events| - 1]);
    }
  }

  /** What the log holds after any trades: the recent view is the last `cap`
      entries of the full log and the skipped count is the rest; the full log
      holds every trade while logging is on and nothing otherwise; each
      ticker's list is its trades in the full log; each ticker's counts cover
      every trade, logged or not. */
  predicate JournalInvariant(keys: set<Ticker>, cap: nat, events: seq<TradeEvent>, st: LogState)
  {
    && st.counts.Keys == keys
    && st.perTicker.Keys == keys
    && st.recent == Recent(st.full, cap)
    && st.skipped == |st.full| - |st.recent|
    && st.full == (if cap > 0 then events else [])
    && (forall u :: u in st.perTicker ==> st.perTicker[u] == ForTicker(st.full, u))
    && (forall u :: u in st.counts ==> st.counts[u] == CountsOf(events, u))
  }

  /** Counting a trade keeps every ticker's counts equal to its trades'. */
  lemma CountsStep(counts: map<Ticker, Counts>, events: seq<TradeEvent>, e: TradeEvent)
    requires forall u :: u in counts ==> counts[u] == CountsOf(events, u)
    ensures var counts' := if e.ticker in counts then counts[e.ticker := Bump(counts[e.ticker], e.action)]
                           else counts;
            forall u :: u in counts' ==> counts'[u] == CountsOf(events + [e], u)
  {
    assert (events + [e])[..|events|] == events;
  }

  /** Appending a trade to its ticker's list keeps every list equal to the
      ticker's trades in the full log. */
  lemma PerTickerStep(perTicker: map<Ticker, seq<TradeEvent>>, full: seq<TradeEvent>, e: TradeEvent)
    requires forall u :: u in perTicker ==> perTicker[u] == ForTicker(full, u)
    ensures var perTicker' := if e.ticker in perTicker then perTicker[e.ticker := perTicker[e.ticker] + [e]]
                              else perTicker;
            forall u :: u in perTicker' ==> perTicker'[u] == ForTicker(full + [e], u)
  {
    assert (full + [e])[..|full|] == full;
  }

  /** One call of `log_trade` keeps the invariant. */
  lemma LogTradeStep(keys: set<Ticker>, cap: nat, events: seq<TradeEvent>, st: LogState, e: TradeEvent)
    requires JournalInvariant(keys, cap, events, st)
    ensures JournalInvariant(keys, cap, events + [e], LogTrade(st, e, cap))
  {
    CountsStep(st.counts, events, e);
    if cap > 0 {
      PerTickerStep(st.perTicker, st.full, e);
      RecentAppend(st.full, e, cap);
    }
  }

  /** The log of any run of trades satisfies the invariant. */
  lemma {:induction false} ReplayInvariant(keys: set<Ticker>, cap: nat, events: seq<TradeEvent>)
    ensures JournalInvariant(keys, cap, events, Replay(keys, cap, events))
  {
    if events != [] {
      var prefix := events[..|events| - 1];
      assert prefix + [events[|events| - 1]] == events;
      ReplayInvariant(keys, cap, prefix);
      LogTradeStep(keys, cap, prefix, Replay(keys, cap, prefix), events[|events| - 1]);
    }
  }

  /** The trade log of a run: its state is always the replay of every trade
      `log_trade` was called with. */
  class TradeJournal {
    const keys: set<Ticker>
    const showTrades: bool
    const logLimit: int
    var tradeLog: seq<TradeEvent>
    var skippedLogs: nat
    var tradeCounts: map<Ticker, Counts>
    var fullTradeLog: seq<TradeEvent>
    var tickerTradeLogs: map<Ticker, seq<TradeEvent>>
    /** Every trade `log_trade` was called with, logged or not. */
    ghost var events: seq<TradeEvent>

    predicate Logging()
    {
      showTrades && logLimit > 0
    }

    /** The capacity of the recent view; nothing is kept while logging is off. */
    function Cap(): nat
    {
      if Logging() then logLimit else 0
    }

    function State(): LogState
      reads this
    {
      LogState(tradeLog, skippedLogs, tradeCounts, fullTradeLog, tickerTradeLogs)
    }

    ghost predicate Valid()
      reads this
    {
      State() == Replay(keys, Cap(), events)
    }

    /** The empty log of a run over the given tickers. */
    constructor (keys: set<Ticker>, showTrades: bool, logLimit: int)
      ensures Valid() && events == []
      ensures this.keys == keys && this.showTrades == showTrades && this.logLimit == logLimit
      ensures tradeLog == [] && skippedLogs == 0 && fullTradeLog == []
    {
      this.keys := keys;
      this.showTrades := showTrades;
      this.logLimit := logLimit;
      tradeLog := [];
      skippedLogs := 0;
      tradeCounts := map u | u in keys :: Counts(0, 0, 0);
      fullTradeLog := [];
      tickerTradeLogs := map u | u in keys :: [];
      events := [];
    }

    /** `log_trade`: counts the trade, and when logging is on appends it to
        the full and per-ticker logs and to the recent view, first dropping
        the oldest entry of a full view. */
    method Record(e: TradeEvent)
      requires Valid() && e.ticker in keys
      modifies this
      ensures Valid()
      ensures events == old(events) + [e]
      ensures State() == LogTrade(old(State()), e, Cap())
      ensures |tradeLog| <= Cap()
    {
      ReplayKeys(keys, Cap(), events);
      assert (events + [e])[..|events|] == events;
      tradeCounts := tradeCounts[e.ticker := Bump(tradeCounts[e.ticker], e.action)];
      events := events + [e];
      if !showTrades || logLimit <= 0 {
        return;
      }
      Append(e);
    }

    /** The logging half of `log_trade`: a full recent view first loses its
        oldest entry, then the trade joins the recent view, the full log and
        its ticker's list. */
    method Append(e: TradeEvent)
      requires Logging() && e.ticker in tickerTradeLogs
      modifies this
      ensures tradeLog == (if |old(tradeLog)| >= logLimit then old(tradeLog)[1..] else old(tradeLog)) + [e]
      ensures skippedLogs == if |old(tradeLog)| >= logLimit then old(skippedLogs) + 1 else old(skippedLogs)
      ensures fullTradeLog == old(fullTradeLog) + [e]
      ensures tickerTradeLogs == old(tickerTradeLogs)[e.ticker := old(tickerTradeLogs)[e.ticker] + [e]]
      ensures tradeCounts == old(tradeCounts) && events == old(events)
    {
      if |tradeLog| >= logLimit {
        tradeLog := tradeLog[1..];
        skippedLogs := skippedLogs + 1;
      }
      tradeLog := tradeLog + [e];
      fullTradeLog := fullTradeLog + [e];
      tickerTradeLogs := tickerTradeLogs[e.ticker := tickerTradeLogs[e.ticker] + [e]];
    }
  }
}
