/** The multi-asset portfolio backtest (backtest/portfolio.py): the day loop
    over the calendar as a function of the books, and the engine that runs
    it on one shared cash balance, one position per ticker and a price book. */
module Portfolio {
  import opened Market
  import opened Ledger
  import opened Orders
  import opened Calendar

  // ---------------------------------------------------------------------------
  // The day loop as a function

  /** The decisions of one date for the tickers of `order`, in that order,
      starting from `s`. */
  function AfterTickers(ts: seq<Ticker>, histories: map<Ticker, History>, order: seq<Ticker>, s: Step,
                        prices: map<Ticker, Option<real>>, date: Date): (r: Step)
    requires Listed(ts, s.books.positions.Keys) && Listed(order, s.books.positions.Keys) && PositiveBook(prices)
    ensures r.books.positions.Keys == s.books.positions.Keys
    ensures AllConsistent(s.books.positions) ==> AllConsistent(r.books.positions)
    ensures r.books.cash >= Min(s.books.cash, 0.0)
  {
    if order == [] then s
    else AfterVisit(ts, histories, AfterTickers(ts, histories, order[..|order| - 1], s, prices, date),
                    prices, date, order[|order| - 1])
  }

  /** The visit of one ticker on a date: a ticker without a row that date,
      or without a price, is skipped; otherwise its decisions are made and
      their trades follow the day's earlier ones. */
  function AfterVisit(ts: seq<Ticker>, histories: map<Ticker, History>, s: Step,
                      prices: map<Ticker, Option<real>>, date: Date, t: Ticker): (r: Step)
    requires Listed(ts, s.books.positions.Keys) && t in s.books.positions && PositiveBook(prices)
    ensures r.books.positions.Keys == s.books.positions.Keys
    ensures AllConsistent(s.books.positions) ==> AllConsistent(r.books.positions)
    ensures r.books.cash >= Min(s.books.cash, 0.0)
    ensures t in histories && date in histories[t] && PriceOf(prices, t).Some? ==>
              var x := AfterTickerDay(ts, s.books, prices, t, PriceOf(prices, t).value, histories[t][date].uptrend,
                                      s.equity, date);
              r.books == x.books && r.equity == x.equity && r.events == s.events + x.events
    ensures !(t in histories && date in histories[t] && PriceOf(prices, t).Some?) ==> r == s
  {
    if t in histories && date in histories[t] && PriceOf(prices, t).Some? then
      var x := AfterTickerDay(ts, s.books, prices, t, PriceOf(prices, t).value, histories[t][date].uptrend,
                              s.equity, date);
      Step(x.books, s.events + x.events, x.equity)
    else s
  }

  /** An empty position for every ticker. */
  function OpeningPositions(keys: set<Ticker>): (m: map<Ticker, Position>)
    ensures m.Keys == keys && AllConsistent(m)
    ensures forall u :: u in m ==> m[u] == NEW_POSITION
  {
    map u | u in keys :: NEW_POSITION
  }

  /** No price known yet for any ticker. */
  function UnknownPrices(keys: set<Ticker>): (m: map<Ticker, Option<real>>)
    ensures m.Keys == keys && PositiveBook(m)
    ensures forall u :: u in m ==> m[u] == None
  {
    map u | u in keys :: None
  }

  /** The books, the price book and the trades so far. */
  datatype Progress = Progress(books: Books, prices: map<Ticker, Option<real>>, events: seq<TradeEvent>)

  predicate Ready(ts: seq<Ticker>, order: seq<Ticker>, histories: map<Ticker, History>, p: Progress)
  {
    && Listed(ts, p.books.positions.Keys) && Listed(order, p.books.positions.Keys)
    && PositiveBook(p.prices) && PositivePrices(histories)
  }

  /** One date of the day loop: the prices are refreshed, `total_equity` is
      taken at the new prices, and every ticker's decisions follow. */
  function AfterDate(ts: seq<Ticker>, order: seq<Ticker>, histories: map<Ticker, History>, p: Progress, date: Date)
    : (r: Progress)
    requires Ready(ts, order, histories, p)
    ensures Ready(ts, order, histories, r)
    ensures r.books.positions.Keys == p.books.positions.Keys && r.prices.Keys == p.prices.Keys
    ensures AllConsistent(p.books.positions) ==> AllConsistent(r.books.positions)
    ensures r.books.cash >= Min(p.books.cash, 0.0)
  {
    var prices := Refreshed(histories, p.prices, date);
    var s := AfterTickers(ts, histories, order, Step(p.books, [], Equity(ts, p.books, prices)), prices, date);
    Progress(s.books, prices, p.events + s.events)
  }

  /** The whole day loop over a calendar. */
  function AfterDates(ts: seq<Ticker>, order: seq<Ticker>, histories: map<Ticker, History>, p: Progress,
                      calendar: seq<Date>): (r: Progress)
    requires Ready(ts, order, histories, p)
    ensures Ready(ts, order, histories, r)
    ensures r.books.positions.Keys == p.books.positions.Keys && r.prices.Keys == p.prices.Keys
    ensures AllConsistent(p.books.positions) ==> AllConsistent(r.books.positions)
    ensures r.books.cash >= Min(p.books.cash, 0.0)
  {
    if calendar == [] then p
    else AfterDate(ts, order, histories, AfterDates(ts, order, histories, p, calendar[..|calendar| - 1]),
                   calendar[|calendar| - 1])
  }

  // ---------------------------------------------------------------------------
  // Properties of the day loop

  /** No decision is made for a ticker without a row on the date: its
      position is the same after the date's decisions. */
  lemma {:induction false} NoRowNoDecision(ts: seq<Ticker>, histories: map<Ticker, History>, order: seq<Ticker>,
                                           s: Step, prices: map<Ticker, Option<real>>, date: Date, u: Ticker)
    requires Listed(ts, s.books.positions.Keys) && Listed(order, s.books.positions.Keys) && PositiveBook(prices)
    requires u in s.books.positions && (u !in histories || date !in histories[u])
    ensures AfterTickers(ts, histories, order, s, prices, date).books.positions[u] == s.books.positions[u]
  {
    if order != [] {
      NoRowNoDecision(ts, histories, order[..|order| - 1], s, prices, date, u);
    }
  }

  /** `total_equity` is re-read after every order, so after any number of
      tickers it is the equity of the books at the day's prices. */
  lemma {:induction false} SnapshotIsEquity(ts: seq<Ticker>, histories: map<Ticker, History>, order: seq<Ticker>,
                                            s: Step, prices: map<Ticker, Option<real>>, date: Date)
    requires Listed(ts, s.books.positions.Keys) && Listed(order, s.books.positions.Keys) && PositiveBook(prices)
    requires s.equity == Equity(ts, s.books, prices)
    ensures var r := AfterTickers(ts, histories, order, s, prices, date);
            Listed(ts, r.books.positions.Keys) && r.equity == Equity(ts, r.books, prices)
  {
    if order != [] {
      var before := AfterTickers(ts, histories, order[..|order| - 1], s, prices, date);
      SnapshotIsEquity(ts, histories, order[..|order| - 1], s, prices, date);
      var t := order[|order| - 1];
      if t in histories && date in histories[t] && PriceOf(prices, t).Some? {
        TickerDaySnapshot(ts, before.books, prices, t, PriceOf(prices, t).value, histories[t][date].uptrend,
                          before.equity, date);
      }
    }
  }

  /** The price book after the day loop: each ticker at the price it was last
      seen at over the calendar. */
  lemma {:induction false} PricesAreLastKnown(ts: seq<Ticker>, order: seq<Ticker>, histories: map<Ticker, History>,
                                              p: Progress, calendar: seq<Date>)
    requires Ready(ts, order, histories, p)
    ensures AfterDates(ts, order, histories, p, calendar).prices == LastKnownBook(histories, p.prices, calendar)
  {
    if calendar == [] {
      assert LastKnownBook(histories, p.prices, calendar) == p.prices;
    } else {
      var prefix := calendar[..|calendar| - 1];
      PricesAreLastKnown(ts, order, histories, p, prefix);
      RefreshExtendsLastKnown(histories, p.prices, prefix, calendar[|calendar| - 1]);
      assert prefix + [calendar[|calendar| - 1]] == calendar;
    }
  }

  /** Replaying the calendar of all dates leaves every ticker with rows at the
      close of its latest row. */
  lemma FinalPricesAreLatestCloses(ts: seq<Ticker>, order: seq<Ticker>, histories: map<Ticker, History>,
                                   p: Progress, calendar: seq<Date>, u: Ticker)
    requires Ready(ts, order, histories, p)
    requires StrictlyIncreasing(calendar)
    requires forall d :: d in calendar <==> exists w :: w in histories && d in histories[w]
    requires u in p.prices && u in histories && histories[u] != map[]
    ensures exists d :: d in histories[u] && (forall d' :: d' in histories[u] ==> d' <= d) &&
                        AfterDates(ts, order, histories, p, calendar).prices[u] == Some(histories[u][d].close)
  {
    PricesAreLastKnown(ts, order, histories, p, calendar);
    LastKnownIsLatestRow(histories[u], calendar, p.prices[u]);
  }

  // ---------------------------------------------------------------------------
  // The engine

  /** The state `run_portfolio_backtest` keeps while it replays the calendar:
      the positions, the shared cash, the price book and the trade log. */
  class Engine {
    const tickers: seq<Ticker>
    /** The iteration order of the histories dict: first listing order. */
    const order: seq<Ticker>
    const histories: map<Ticker, History>
    const initialBalance: real
    const journal: TradeJournal
    var positions: map<Ticker, Position>
    var cash: real
    var priceBook: map<Ticker, Option<real>>

    /** The positions and the cash as a value. */
    function Holdings(): Books
      reads this`positions, this`cash
    {
      Books(positions, cash)
    }

    /** The engine invariant: the books invariant, and a trade log that is
        consistent over the same tickers. */
    ghost predicate Valid()
      reads this, journal
    {
      BooksValid() && journal.keys == histories.Keys && journal.Valid()
    }

    /** One position per ticker, each satisfying the position invariant; a
        price book entry per ticker with positive known prices; cash never
        below zero, or below a negative starting balance. */
    ghost predicate BooksValid()
      reads this`positions, this`cash, this`priceBook
    {
      && Listed(tickers, histories.Keys) && Listed(order, histories.Keys)
      && positions.Keys == histories.Keys && AllConsistent(positions)
      && priceBook.Keys == histories.Keys && PositiveBook(priceBook)
      && cash >= Min(0.0, initialBalance)
    }

    /** The dict order visits every ticker, and every close is positive. */
    ghost predicate Complete()
    {
      (forall u :: u in histories ==> u in order) && PositivePrices(histories)
    }

    /** The set-up of `run_portfolio_backtest`: an empty position per ticker,
        the starting cash, an unknown price per ticker and an empty log. */
    constructor (tickers: seq<Ticker>, histories: map<Ticker, History>, initialBalance: real,
                 showTrades: bool, logLimit: int)
      requires forall u :: u in histories <==> u in tickers
      requires PositivePrices(histories)
      ensures Valid() && Complete() && fresh(journal)
      ensures this.tickers == tickers && this.histories == histories && this.initialBalance == initialBalance
      ensures order == Dedup(tickers)
      ensures positions == OpeningPositions(histories.Keys)
      ensures cash == initialBalance
      ensures priceBook == UnknownPrices(histories.Keys)
      ensures journal.events == [] && journal.tradeLog == [] && journal.fullTradeLog == []
      ensures journal.showTrades == showTrades && journal.logLimit == logLimit
    {
      this.tickers := tickers;
      this.order := Dedup(tickers);
      this.histories := histories;
      this.initialBalance := initialBalance;
      this.journal := new TradeJournal(histories.Keys, showTrades, logLimit);
      positions := OpeningPositions(histories.Keys);
      cash := initialBalance;
      priceBook := UnknownPrices(histories.Keys);
      new;
      assert Listed(order, histories.Keys) && Listed(tickers, histories.Keys);
    }

    /** `sell_all`: the order of Orders.AfterSellAll, applied to the engine's
        books, with its trade sent to the log. */
    method SellAll(t: Ticker, price: real, date: Date)
      requires Valid() && t in positions && price > 0.0
      modifies this`positions, this`cash, journal
      ensures Valid()
      ensures var x := AfterSellAll(tickers, old(Holdings()), priceBook, t, price, date);
              Holdings() == x.books && journal.events == old(journal.events) + x.events
    {
      var x := AfterSellAll(tickers, Holdings(), priceBook, t, price, date);
      Apply(x, t);
    }

    /** `sell_tranche`, likewise. */
    method SellTranche(t: Ticker, price: real, trancheValue: real, date: Date)
      requires Valid() && t in positions && price > 0.0
      modifies this`positions, this`cash, journal
      ensures Valid()
      ensures var x := AfterSellTranche(tickers, old(Holdings()), priceBook, t, price, trancheValue, date);
              Holdings() == x.books && journal.events == old(journal.events) + x.events
    {
      var x := AfterSellTranche(tickers, Holdings(), priceBook, t, price, trancheValue, date);
      Apply(x, t);
    }

    /** `buy_tranche`, likewise. */
    method BuyTranche(t: Ticker, price: real, trancheValue: real, date: Date)
      requires Valid() && t in positions && price > 0.0
      modifies this`positions, this`cash, journal
      ensures Valid()
      ensures var x := AfterBuyTranche(old(Holdings()), t, price, trancheValue, date);
              Holdings() == x.books && journal.events == old(journal.events) + x.events
    {
      var x := AfterBuyTranche(Holdings(), t, price, trancheValue, date);
      Apply(x, t);
    }

    /** One ticker's decisions on a date it has a row (Orders.AfterTickerDay:
        mark, then sell everything at the loss cutoff or trailing stop, or
        else sell a tranche on a down day and buy one on an up day in an
        uptrend), applied to the engine's books with the trade logged.
        Returns the running `total_equity`. */
    method DecideTicker(t: Ticker, price: real, uptrend: bool, totalEquity: real, date: Date)
      returns (equity: real)
      requires Valid() && t in positions && price > 0.0
      modifies this`positions, this`cash, journal
      ensures Valid()
      ensures var r := AfterTickerDay(tickers, old(Holdings()), priceBook, t, price, uptrend, totalEquity, date);
              Holdings() == r.books && journal.events == old(journal.events) + r.events && equity == r.equity
    {
      ghost var logged := journal.events;
      var prev := positions[t].lastPrice;
      var exit := ExitToday(positions[t], price, totalEquity);
      positions := positions[t := MarkedToday(positions[t], price)];
      if exit {
        SellAll(t, price, date);
        equity := Orders.Equity(tickers, Holdings(), priceBook);
      } else {
        ghost var s := AfterDownDay(tickers, Holdings(), priceBook, t, price, Decreasing(prev, price), totalEquity, date);
        var afterSale := SellStep(t, price, Decreasing(prev, price), totalEquity, date);
        equity := BuyStep(t, price, Increasing(prev, price) && uptrend, afterSale, date, s, logged);
      }
    }

    /** The sell step of a ticker's day (Orders.AfterDownDay): on a sell day
        a held position is cut by a tranche of the running equity, which is
        then re-read. */
    method SellStep(t: Ticker, price: real, sellDay: bool, totalEquity: real, date: Date)
      returns (equity: real)
      requires Valid() && t in positions && price > 0.0
      modifies this`positions, this`cash, journal
      ensures Valid()
      ensures var s := AfterDownDay(tickers, old(Holdings()), priceBook, t, price, sellDay, totalEquity, date);
              Holdings() == s.books && equity == s.equity && journal.events == old(journal.events) + s.events
    {
      equity := totalEquity;
      if sellDay && positions[t].shares > 0.0 {
        SellTranche(t, price, totalEquity * TRANCHE_FRACTION, date);
        equity := Orders.Equity(tickers, Holdings(), priceBook);
      }
    }

    /** The buy step of a ticker's day (Orders.AfterUpDay), continuing the
        step `s` whose trades follow `logged` in the log: on a buy day the
        tranche capped by the allocation room, if positive, is bought and the
        running equity re-read. */
    method BuyStep(t: Ticker, price: real, buyDay: bool, totalEquity: real, date: Date,
                   ghost s: Step, ghost logged: seq<TradeEvent>)
      returns (equity: real)
      requires Valid() && t in positions && price > 0.0
      requires Holdings() == s.books && totalEquity == s.equity && journal.events == logged + s.events
      modifies this`positions, this`cash, journal
      ensures Valid()
      ensures var r := AfterUpDay(tickers, s, priceBook, t, price, buyDay, date);
              Holdings() == r.books && equity == r.equity && journal.events == logged + r.events
    {
      equity := totalEquity;
      if buyDay {
        var buy := BuySize(equity, positions[t].Value(Some(price)));
        if buy > 0.0 {
          ghost var x := AfterBuyTranche(s.books, t, price, buy, date);
          AppendTwice(logged, s.events, x.events);
          BuyTranche(t, price, buy, date);
          equity := Orders.Equity(tickers, Holdings(), priceBook);
        }
      }
    }

    /** The price refresh of a date: every ticker with a row that date takes
        the row's close, the others keep their price. */
    method RefreshPrices(date: Date)
      requires BooksValid() && Complete()
      modifies this`priceBook
      ensures BooksValid() && priceBook == Refreshed(histories, old(priceBook), date)
    {
      ghost var done: set<Ticker> := {};
      var book := priceBook;
      var i := 0;
      while i < |order|
        invariant 0 <= i <= |order|
        invariant book.Keys == priceBook.Keys
        invariant forall j :: 0 <= j < i ==> order[j] in done
        invariant forall u :: u in priceBook ==>
                    book[u] == if u in done && date in histories[u]
                               then Some(histories[u][date].close) else priceBook[u]
      {
        var u := order[i];
        if date in histories[u] {
          book := book[u := Some(histories[u][date].close)];
        }
        done := done + {u};
        i := i + 1;
      }
      priceBook := book;
    }

    /** One date of the day loop: refresh the prices, take `total_equity`,
        then visit every ticker in dict order. */
    method RunDay(date: Date)
      requires Valid() && Complete()
      modifies this`positions, this`cash, this`priceBook, journal
      ensures Valid()
      ensures var p := AfterDate(tickers, order, histories, Progress(old(Holdings()), old(priceBook), old(journal.events)), date);
              Holdings() == p.books && priceBook == p.prices && journal.events == p.events
    {
      RefreshPrices(date);
      var totalEquity := Orders.Equity(tickers, Holdings(), priceBook);
      VisitAll(date, totalEquity);
    }

    /** The ticker loop of a date, from the equity `totalEquity` of the
        books at the refreshed prices. */
    method VisitAll(date: Date, totalEquity: real)
      requires Valid()
      modifies this`positions, this`cash, journal
      ensures Valid()
      ensures var s := AfterTickers(tickers, histories, order, Step(old(Holdings()), [], totalEquity), priceBook, date);
              Holdings() == s.books && journal.events == old(journal.events) + s.events
    {
      ghost var s0 := Step(Holdings(), [], totalEquity);
      var equity := totalEquity;
      var i := 0;
      while i < |order|
        invariant 0 <= i <= |order|
        invariant Valid()
        invariant var s := AfterTickers(tickers, histories, order[..i], s0, priceBook, date);
                  Holdings() == s.books && equity == s.equity && journal.events == old(journal.events) + s.events
      {
        assert order[..i + 1][..i] == order[..i];
        ghost var s := AfterTickers(tickers, histories, order[..i], s0, priceBook, date);
        assert AfterTickers(tickers, histories, order[..i + 1], s0, priceBook, date)
            == AfterVisit(tickers, histories, s, priceBook, date, order[i]);
        equity := Visit(order[i], date, equity, s, old(journal.events));
        i := i + 1;
      }
      assert order[..i] == order;
    }

    /** The visit of ticker `t` on a date (AfterVisit), continuing the step
        `s` of that date whose trades follow `logged` in the log. Returns the
        running `total_equity`. */
    method Visit(t: Ticker, date: Date, totalEquity: real, ghost s: Step, ghost logged: seq<TradeEvent>)
      returns (equity: real)
      requires Valid() && t in positions
      requires Holdings() == s.books && totalEquity == s.equity && journal.events == logged + s.events
      modifies this`positions, this`cash, journal
      ensures Valid()
      ensures var r := AfterVisit(tickers, histories, s, priceBook, date, t);
              Holdings() == r.books && equity == r.equity && journal.events == logged + r.events
    {
      equity := totalEquity;
      if date in histories[t] && PriceOf(priceBook, t).Some? {
        ghost var x := AfterTickerDay(tickers, s.books, priceBook, t, PriceOf(priceBook, t).value,
                                      histories[t][date].uptrend, s.equity, date);
        AppendTwice(logged, s.events, x.events);
        equity := DecideTicker(t, priceBook[t].value, histories[t][date].uptrend, totalEquity, date);
      }
    }

    /** `run_portfolio_backtest` after its set-up: the day loop over the
        union of all dates, then the final equity at the last prices. */
    method Run() returns (calendar: seq<Date>, finalEquity: real)
      requires Valid() && Complete()
      modifies this`positions, this`cash, this`priceBook, journal
      ensures Valid()
      ensures StrictlyIncreasing(calendar)
      ensures forall d :: d in calendar <==> exists u :: u in histories && d in histories[u]
      ensures var p := AfterDates(tickers, order, histories, Progress(old(Holdings()), old(priceBook), old(journal.events)), calendar);
              Holdings() == p.books && priceBook == p.prices && journal.events == p.events
      ensures finalEquity == Orders.Equity(tickers, Holdings(), priceBook)
    {
      calendar := UnionDates(histories);
      ghost var p0 := Progress(Holdings(), priceBook, journal.events);
      var i := 0;
      while i < |calendar|
        invariant 0 <= i <= |calendar|
        invariant Valid()
        invariant var p := AfterDates(tickers, order, histories, p0, calendar[..i]);
                  Holdings() == p.books && priceBook == p.prices && journal.events == p.events
      {
        assert calendar[..i + 1][..i] == calendar[..i];
        RunDay(calendar[i]);
        i := i + 1;
      }
      assert calendar[..i] == calendar;
      finalEquity := Orders.Equity(tickers, Holdings(), priceBook);
    }

    /** Installs the books an order produced and logs its trade, if any. */
    method Apply(x: Trade, t: Ticker)
      requires Valid() && t in positions
      requires OnlyTicker(positions, x.books.positions, t) && AllOn(x.events, t) && |x.events| <= 1
      requires Consistent(x.books.positions[t]) && x.books.cash >= Min(0.0, initialBalance)
      modifies this`positions, this`cash, journal
      ensures Valid() && Holdings() == x.books && journal.events == old(journal.events) + x.events
    {
      Log(x.events);
      positions, cash := x.books.positions, x.books.cash;
    }

    /** Sends an order's trade, if any, to the log. */
    method Log(es: seq<TradeEvent>)
      requires journal.Valid() && |es| <= 1 && forall i :: 0 <= i < |es| ==> es[i].ticker in journal.keys
      modifies journal
      ensures journal.Valid() && journal.events == old(journal.events) + es
    {
      if es != [] {
        journal.Record(es[0]);
        assert es == [es[0]];
      }
    }
  }
}
