/** The three orders of the portfolio backtest (backtest/portfolio.py) and one
    ticker's decisions on one day, as functions from the positions and cash
    before to the positions and cash after, together with the trades each
    logs. The engine's methods are proved to perform exactly these steps. */
module Orders {
  import opened Market
  import opened Ledger

  /** The positions and the shared cash: the state the orders change. */
  datatype Books = Books(positions: map<Ticker, Position>, cash: real)

  /** `equity(prices)`: the cash plus the worth of every listed ticker's
      holding, counted once per listing. */
  function Equity(ts: seq<Ticker>, b: Books, prices: map<Ticker, Option<real>>): real
    requires Listed(ts, b.positions.Keys)
  {
    b.cash + SumValues(ts, b.positions, prices)
  }

  /** The books after an order and the trades it logged. */
  datatype Trade = Trade(books: Books, events: seq<TradeEvent>)

  /** The books after a ticker's day, the trades logged, and the running
      `total_equity` snapshot. */
  datatype Step = Step(books: Books, events: seq<TradeEvent>, equity: real)

  /** Only ticker `t`'s position may differ between the two books. */
  predicate OnlyTicker(before: map<Ticker, Position>, after: map<Ticker, Position>, t: Ticker)
  {
    && after.Keys == before.Keys && t in after
    && forall u :: u in after && u != t ==> after[u] == before[u]
  }

  /** Every trade is on ticker `t`. */
  predicate AllOn(events: seq<TradeEvent>, t: Ticker)
  {
    forall i :: 0 <= i < |events| ==> events[i].ticker == t
  }

  /** Replacing the position of a ticker listed once and moving the cash
      changes equity by the cash moved plus the change in the holding's
      worth at the ticker's book price. */
  lemma EquityAfterUpdate(ts: seq<Ticker>, b: Books, prices: map<Ticker, Option<real>>,
                          t: Ticker, after: Position, cash': real)
    requires Listed(ts, b.positions.Keys) && t in b.positions && Occurrences(ts, t) == 1
    ensures Listed(ts, b.positions[t := after].Keys)
    ensures Equity(ts, Books(b.positions[t := after], cash'), prices)
            == Equity(ts, b, prices) + (cash' - b.cash) +
               (after.Value(PriceOf(prices, t)) - b.positions[t].Value(PriceOf(prices, t)))
  {
    SumValuesAfterUpdate(ts, b.positions, prices, t, after);
  }

  /** The same for books in which only ticker `t` changed, at the ticker's
      known book price, in shares. */
  lemma EquityAtPrice(ts: seq<Ticker>, b: Books, prices: map<Ticker, Option<real>>,
                      t: Ticker, price: real, b': Books)
    requires Listed(ts, b.positions.Keys) && Occurrences(ts, t) == 1
    requires OnlyTicker(b.positions, b'.positions, t) && PriceOf(prices, t) == Some(price)
    ensures Listed(ts, b'.positions.Keys)
    ensures Equity(ts, b', prices)
            == Equity(ts, b, prices) + (b'.cash - b.cash) + (b'.positions[t].shares * price - b.positions[t].shares * price)
  {
    assert b'.positions == b.positions[t := b'.positions[t]];
    EquityAfterUpdate(ts, b, prices, t, b'.positions[t], b'.cash);
  }

  /** Shares bought for `spent` at a positive price are worth `spent` at
      that price. */
  lemma PurchaseWorth(before: Position, after: Position, spent: real, p: real)
    requires p > 0.0 && after.shares == before.shares + spent / p
    ensures after.Value(Some(p)) - before.Value(Some(p)) == spent
  {
    assert (before.shares + spent / p) * p == before.shares * p + spent;
  }

  /** Shares sold for `received` at a positive price were worth `received`
      at that price; what is left is worth the rest. */
  lemma SaleWorth(before: Position, after: Position, received: real, p: real)
    requires p > 0.0 && after.shares == before.shares - received / p
    ensures before.Value(Some(p)) - after.Value(Some(p)) == received
  {
    assert (before.shares - received / p) * p == before.shares * p - received;
  }

  /** Dust of between 0 and DUST_SHARES shares at a positive price is worth
      between 0 and DUST_SHARES times the price. */
  lemma DustWorth(left: real, p: real)
    requires 0.0 <= left <= DUST_SHARES && p > 0.0
    ensures 0.0 <= left * p <= DUST_SHARES * p
  {
  }

  // ---------------------------------------------------------------------------
  // sell_all

  /** The realised profit logged with a sale: the price over the average
      cost, times the shares sold. */
  function Profit(pos: Position, price: real, sold: real): real
  {
    (price - pos.avgCost) * sold
  }

  /** `sell_all`: a held position is sold in full at the price, the proceeds
      are credited to cash, one EXIT trade is logged with the profit over the
      average cost and the equity before the sale, and the position is reset;
      a position holding nothing is left alone. */
  function AfterSellAll(ts: seq<Ticker>, b: Books, prices: map<Ticker, Option<real>>,
                        t: Ticker, price: real, date: Date): (r: Trade)
    requires Listed(ts, b.positions.Keys) && t in b.positions
    ensures OnlyTicker(b.positions, r.books.positions, t) && AllOn(r.events, t)
    ensures Consistent(b.positions[t]) ==> Consistent(r.books.positions[t])
    ensures r.books.positions[t].lastPrice == b.positions[t].lastPrice
    ensures b.positions[t].shares <= 0.0 ==> r == Trade(b, [])
    ensures b.positions[t].shares > 0.0 ==>
              && r.books.positions[t].shares == 0.0
              && r.books.cash - b.cash == b.positions[t].shares * price
              && |r.events| == 1 && r.events[0].action == Exit
    ensures price > 0.0 ==> r.books.cash >= b.cash
  {
    var pos := b.positions[t];
    if pos.shares <= 0.0 then Trade(b, [])
    else
      var proceeds := pos.shares * price;
      var e := TradeEvent(date, Exit, t, price, 0.0, 0.0, Some(Profit(pos, price, pos.shares)),
                          Some(Equity(ts, b, prices)));
      Trade(Books(b.positions[t := pos.Reset()], b.cash + proceeds), [e])
  }

  /** Selling everything at the ticker's book price moves the holding's worth
      into cash: for a ticker listed once, equity is unchanged. */
  lemma SellAllConservesEquity(ts: seq<Ticker>, b: Books, prices: map<Ticker, Option<real>>,
                               t: Ticker, price: real, date: Date)
    requires Listed(ts, b.positions.Keys) && t in b.positions
    requires PriceOf(prices, t) == Some(price) && Occurrences(ts, t) == 1
    ensures var r := AfterSellAll(ts, b, prices, t, price, date);
            Equity(ts, r.books, prices) == Equity(ts, b, prices)
  {
    var pos := b.positions[t];
    if pos.shares > 0.0 {
      EquityAfterUpdate(ts, b, prices, t, pos.Reset(), b.cash + pos.shares * price);
    }
  }

  // ---------------------------------------------------------------------------
  // sell_tranche

  /** `sell_tranche`: sells the smaller of the tranche and the holding's worth,
      credits exactly that to cash, keeps the average cost, and resets a
      position left with DUST_SHARES or fewer; nothing happens to a position
      holding nothing or when there is nothing to sell. */
  function AfterSellTranche(ts: seq<Ticker>, b: Books, prices: map<Ticker, Option<real>>,
                            t: Ticker, price: real, trancheValue: real, date: Date): (r: Trade)
    requires Listed(ts, b.positions.Keys) && t in b.positions && price > 0.0
    ensures OnlyTicker(b.positions, r.books.positions, t) && AllOn(r.events, t)
    ensures Consistent(b.positions[t]) ==> Consistent(r.books.positions[t])
    ensures r.books.positions[t].lastPrice == b.positions[t].lastPrice
    ensures r.books.cash >= b.cash
    ensures |r.events| <= 1 && (r.events != [] ==> r.events[0].action == Sell)
  {
    var pos := b.positions[t];
    if pos.shares <= 0.0 then Trade(b, [])
    else
      var sellValue := Min(trancheValue, pos.Value(Some(price)));
      if sellValue <= 0.0 then Trade(b, [])
      else
        var sold := sellValue / price;
        var left := pos.(shares := pos.shares - sold);
        var pos' := if left.shares <= DUST_SHARES then left.Reset() else left;
        var e := TradeEvent(date, Sell, t, price, pos'.shares, pos'.avgCost,
                            Some(Profit(pos, price, sold)), Some(Equity(ts, b, prices)));
        Trade(Books(b.positions[t := pos'], b.cash + sellValue), [e])
  }

  /** What a tranche sale does: it happens exactly when shares are held and
      both the tranche and the price are positive; it then credits cash with
      the smaller of the tranche and the holding's worth, so never more than
      is held; the shares drop by that value over the price; the average cost
      is kept while shares remain; and the position is reset exactly when
      DUST_SHARES or fewer would remain. */
  lemma TrancheSaleEffect(ts: seq<Ticker>, b: Books, prices: map<Ticker, Option<real>>,
                          t: Ticker, price: real, trancheValue: real, date: Date)
    requires Listed(ts, b.positions.Keys) && t in b.positions && price > 0.0
    ensures var pos := b.positions[t];
            var r := AfterSellTranche(ts, b, prices, t, price, trancheValue, date);
            var sellValue := r.books.cash - b.cash;
            var after := r.books.positions[t];
            && (r.events != [] <==> pos.shares > 0.0 && trancheValue > 0.0)
            && (r.events == [] ==> r.books == b)
            && (r.events != [] ==>
                  && sellValue == Min(trancheValue, pos.shares * price)
                  && 0.0 < sellValue <= pos.shares * price
                  && (after.shares == 0.0 <==> pos.shares - sellValue / price <= DUST_SHARES)
                  && (after.shares != 0.0 ==>
                        after.shares == pos.shares - sellValue / price && after.avgCost == pos.avgCost))
  {
    var pos := b.positions[t];
    if pos.shares > 0.0 && trancheValue > 0.0 {
      assert pos.shares * price > 0.0;
      var sellValue := Min(trancheValue, pos.shares * price);
      var sold := sellValue / price;
      assert sold <= pos.shares by {
        assert sold * price == sellValue;
        assert sellValue <= pos.shares * price;
      }
    }
  }

  /** A tranche sale at the ticker's book price conserves equity for a ticker
      listed once, except that a reset discards the dust left behind: equity
      never rises, drops by at most DUST_SHARES at the price, and is unchanged
      while shares remain. */
  lemma TrancheSaleEquity(ts: seq<Ticker>, b: Books, prices: map<Ticker, Option<real>>,
                          t: Ticker, price: real, trancheValue: real, date: Date)
    requires Listed(ts, b.positions.Keys) && t in b.positions && price > 0.0
    requires PriceOf(prices, t) == Some(price) && Occurrences(ts, t) == 1
    ensures var r := AfterSellTranche(ts, b, prices, t, price, trancheValue, date);
            var loss := Equity(ts, b, prices) - Equity(ts, r.books, prices);
            && 0.0 <= loss <= DUST_SHARES * price
            && (r.books.positions[t].shares > 0.0 ==> loss == 0.0)
  {
    var r := AfterSellTranche(ts, b, prices, t, price, trancheValue, date);
    if r.events != [] {
      TrancheSaleWorth(ts, b, prices, t, price, trancheValue, date);
      EquityAtPrice(ts, b, prices, t, price, r.books);
    }
  }

  /** What a tranche sale removes from the holding's worth at the price,
      beyond the cash it brings in: nothing while shares remain, and the
      dust, worth at most DUST_SHARES at the price, on a reset. */
  lemma TrancheSaleWorth(ts: seq<Ticker>, b: Books, prices: map<Ticker, Option<real>>,
                         t: Ticker, price: real, trancheValue: real, date: Date)
    requires Listed(ts, b.positions.Keys) && t in b.positions && price > 0.0
    ensures var r := AfterSellTranche(ts, b, prices, t, price, trancheValue, date);
            var lost := b.positions[t].shares * price - r.books.positions[t].shares * price - (r.books.cash - b.cash);
            && 0.0 <= lost <= DUST_SHARES * price
            && (r.books.positions[t].shares > 0.0 ==> lost == 0.0)
  {
    var r := AfterSellTranche(ts, b, prices, t, price, trancheValue, date);
    TrancheSaleEffect(ts, b, prices, t, price, trancheValue, date);
    if r.events != [] {
      var pos, after := b.positions[t], r.books.positions[t];
      TrancheLoss(r.books.cash - b.cash, pos.shares, after.shares, price);
    }
  }

  /** The arithmetic of a tranche sale: selling `sold` worth of `held`
      shares at `p` leaves `held - sold / p` shares, which are either kept,
      losing nothing, or reset as dust worth at most DUST_SHARES at `p`. */
  lemma TrancheLoss(sold: real, held: real, kept: real, p: real)
    requires p > 0.0 && 0.0 < sold <= held * p
    requires kept == 0.0 <==> held - sold / p <= DUST_SHARES
    requires kept != 0.0 ==> kept == held - sold / p
    ensures 0.0 <= held * p - kept * p - sold <= DUST_SHARES * p
    ensures kept > 0.0 ==> held * p - kept * p - sold == 0.0
  {
    var left := held - sold / p;
    assert left * p == held * p - sold;
    if kept == 0.0 {
      assert sold / p <= held by {
        assert sold / p * p == sold;
      }
      DustWorth(left, p);
    }
  }

  // ---------------------------------------------------------------------------
  // buy_tranche

  /** `buy_tranche`: with a positive tranche and positive cash, spends the
      smaller of the two on shares at the price, re-averages the cost, raises
      the highest price to the price if it is higher, and recomputes the
      trailing stop; otherwise does nothing. */
  function AfterBuyTranche(b: Books, t: Ticker, price: real, trancheValue: real, date: Date): (r: Trade)
    requires t in b.positions && price > 0.0
    ensures OnlyTicker(b.positions, r.books.positions, t) && AllOn(r.events, t)
    ensures Consistent(b.positions[t]) ==> Consistent(r.books.positions[t])
    ensures r.books.positions[t].lastPrice == b.positions[t].lastPrice
    ensures r.books.cash == b.cash || r.books.cash >= 0.0
    ensures |r.events| <= 1 && (r.events != [] ==> r.events[0].action == Buy)
  {
    if trancheValue <= 0.0 || b.cash <= 0.0 then Trade(b, [])
    else
      var buyValue := Min(trancheValue, b.cash);
      var pos := b.positions[t];
      var newTotal := pos.shares + buyValue / price;
      var avgCost := if newTotal > 0.0 then (pos.avgCost * pos.shares + buyValue) / newTotal else 0.0;
      var highest := Max(pos.highestPrice, price);
      var pos' := Position(newTotal, avgCost, highest, highest * (1.0 - TRAILING_STOP_PCT), pos.lastPrice);
      BuyKeepsConsistent(pos, pos', price, buyValue);
      Trade(Books(b.positions[t := pos'], b.cash - buyValue),
            [TradeEvent(date, Buy, t, price, newTotal, avgCost, None, None)])
  }

  /** A positive purchase on top of a position satisfying the invariant
      yields a position satisfying it. */
  lemma BuyKeepsConsistent(pos: Position, pos': Position, price: real, buyValue: real)
    requires price > 0.0 && buyValue > 0.0
    requires pos'.shares == pos.shares + buyValue / price
    requires pos'.shares > 0.0 ==> pos'.avgCost == (pos.avgCost * pos.shares + buyValue) / pos'.shares
    requires pos'.highestPrice == Max(pos.highestPrice, price)
    requires pos'.trailingStop == pos'.highestPrice * (1.0 - TRAILING_STOP_PCT)
    ensures Consistent(pos) ==> Consistent(pos')
  {
    if Consistent(pos) {
      assert buyValue / price > 0.0;
      assert pos.avgCost * pos.shares >= 0.0 by {
        if pos.shares > 0.0 {
          assert pos.avgCost > 0.0;
        }
      }
      assert pos'.avgCost > 0.0;
    }
  }

  /** What a purchase does: it happens exactly when the tranche and the cash
      are both positive; it then spends the smaller of the two, so cash ends
      non-negative; the shares grow by the amount spent over the price; the
      new average cost weighs the old cost by the old shares and the amount
      spent by the new ones; and the highest price is the larger of the old
      one and the price. */
  lemma BuyTrancheEffect(b: Books, t: Ticker, price: real, trancheValue: real, date: Date)
    requires t in b.positions && price > 0.0 && Consistent(b.positions[t])
    ensures var pos := b.positions[t];
            var r := AfterBuyTranche(b, t, price, trancheValue, date);
            var spent := b.cash - r.books.cash;
            var after := r.books.positions[t];
            && (r.events != [] <==> trancheValue > 0.0 && b.cash > 0.0)
            && (r.events == [] ==> r.books == b)
            && (r.events != [] ==>
                  && spent == Min(trancheValue, b.cash) && spent > 0.0 && r.books.cash >= 0.0
                  && after.shares == pos.shares + spent / price
                  && after.avgCost * after.shares == pos.avgCost * pos.shares + spent
                  && after.highestPrice == Max(pos.highestPrice, price))
  {
    var pos := b.positions[t];
    if trancheValue > 0.0 && b.cash > 0.0 {
      var spent := Min(trancheValue, b.cash);
      assert spent / price > 0.0;
      var newTotal := pos.shares + spent / price;
      assert newTotal > 0.0;
      var avg := (pos.avgCost * pos.shares + spent) / newTotal;
      assert avg * newTotal == pos.avgCost * pos.shares + spent;
    }
  }

  /** A purchase at the ticker's book price turns cash into shares of equal
      worth: for a ticker listed once, equity is unchanged. */
  lemma BuyConservesEquity(ts: seq<Ticker>, b: Books, prices: map<Ticker, Option<real>>,
                           t: Ticker, price: real, trancheValue: real, date: Date)
    requires Listed(ts, b.positions.Keys) && t in b.positions && price > 0.0
    requires PriceOf(prices, t) == Some(price) && Occurrences(ts, t) == 1 && Consistent(b.positions[t])
    ensures var r := AfterBuyTranche(b, t, price, trancheValue, date);
            Listed(ts, r.books.positions.Keys) && Equity(ts, r.books, prices) == Equity(ts, b, prices)
  {
    var r := AfterBuyTranche(b, t, price, trancheValue, date);
    if r.events != [] {
      var pos, after := b.positions[t], r.books.positions[t];
      var spent := b.cash - r.books.cash;
      BuyTrancheEffect(b, t, price, trancheValue, date);
      EquityAfterUpdate(ts, b, prices, t, after, r.books.cash);
      PurchaseWorth(pos, after, spent, price);
    }
  }

  // ---------------------------------------------------------------------------
  // One ticker on one day

  /** The position after the start of a ticker's day: the price is recorded
      as the last price seen and the position is marked to it. */
  function MarkedToday(pos: Position, price: real): (m: Position)
    ensures m.lastPrice == Some(price) && m.shares == pos.shares && m.avgCost == pos.avgCost
    ensures m.highestPrice >= pos.highestPrice
    ensures Consistent(pos) ==> Consistent(m)
  {
    Marked(pos.(lastPrice := Some(price)), price)
  }

  /** Marking a position leaves its worth at any price unchanged. */
  lemma MarkedKeepsWorth(pos: Position, price: real, q: Option<real>)
    ensures MarkedToday(pos, price).Value(q) == pos.Value(q)
  {
  }

  /** Whether the loss cutoff or the trailing stop closes the position. */
  predicate ExitToday(pos: Position, price: real, totalEquity: real)
    ensures ExitToday(pos, price, totalEquity) ==> pos.shares > 0.0
  {
    LossCutoffHit(MarkedToday(pos, price), price, totalEquity) || TrailingStopHit(MarkedToday(pos, price), price)
  }

  /** The decisions of the day loop for ticker `t`, which has a row today at
      `price`: the position is marked to the price; the loss cutoff or the
      trailing stop sells everything and ends the ticker's day; otherwise a
      held position is cut by a tranche on a down day, and on an up day in
      an uptrend a tranche capped by the allocation room is bought. The
      running `total_equity` is re-read after every order. */
  function AfterTickerDay(ts: seq<Ticker>, b: Books, prices: map<Ticker, Option<real>>, t: Ticker,
                          price: real, uptrend: bool, totalEquity: real, date: Date): (r: Step)
    requires Listed(ts, b.positions.Keys) && t in b.positions && price > 0.0
    ensures OnlyTicker(b.positions, r.books.positions, t) && AllOn(r.events, t)
    ensures Consistent(b.positions[t]) ==> Consistent(r.books.positions[t])
    ensures r.books.positions[t].lastPrice == Some(price)
    ensures r.books.cash >= Min(b.cash, 0.0)
  {
    var prev := b.positions[t].lastPrice;
    var marked := MarkedToday(b.positions[t], price);
    var b1 := Books(b.positions[t := marked], b.cash);
    if ExitToday(b.positions[t], price, totalEquity) then
      var x := AfterSellAll(ts, b1, prices, t, price, date);
      Step(x.books, x.events, Equity(ts, x.books, prices))
    else
      var s := AfterDownDay(ts, b1, prices, t, price, Decreasing(prev, price), totalEquity, date);
      AfterUpDay(ts, s, prices, t, price, Increasing(prev, price) && uptrend, date)
  }

  /** The sell step of a ticker's day: on a down day a held position is cut
      by a tranche of the equity. */
  function AfterDownDay(ts: seq<Ticker>, b: Books, prices: map<Ticker, Option<real>>, t: Ticker,
                        price: real, sellDay: bool, totalEquity: real, date: Date): (r: Step)
    requires Listed(ts, b.positions.Keys) && t in b.positions && price > 0.0
    ensures OnlyTicker(b.positions, r.books.positions, t) && AllOn(r.events, t)
    ensures r.books.positions[t].lastPrice == b.positions[t].lastPrice
    ensures Consistent(b.positions[t]) ==> Consistent(r.books.positions[t])
    ensures r.books.cash >= b.cash
  {
    if sellDay && b.positions[t].shares > 0.0 then
      var x := AfterSellTranche(ts, b, prices, t, price, totalEquity * TRANCHE_FRACTION, date);
      Step(x.books, x.events, Equity(ts, x.books, prices))
    else Step(b, [], totalEquity)
  }

  /** The buy step of a ticker's day: on a buy day, the tranche capped by the
      room left under the allocation cap, if positive, is bought. */
  function AfterUpDay(ts: seq<Ticker>, s: Step, prices: map<Ticker, Option<real>>, t: Ticker,
                      price: real, buyDay: bool, date: Date): (r: Step)
    requires Listed(ts, s.books.positions.Keys) && t in s.books.positions && price > 0.0
    ensures OnlyTicker(s.books.positions, r.books.positions, t)
    ensures r.books.positions[t].lastPrice == s.books.positions[t].lastPrice
    ensures Consistent(s.books.positions[t]) ==> Consistent(r.books.positions[t])
    ensures r.books.cash == s.books.cash || r.books.cash >= 0.0
    ensures AllOn(s.events, t) ==> AllOn(r.events, t)
  {
    if !buyDay then s
    else
      var buy := BuySize(s.equity, s.books.positions[t].Value(Some(price)));
      if buy <= 0.0 then s
      else
        var x := AfterBuyTranche(s.books, t, price, buy, date);
        Step(x.books, s.events + x.events, Equity(ts, x.books, prices))
  }

  /** Marking a position to a price leaves every holding's worth unchanged. */
  lemma MarkKeepsEquity(ts: seq<Ticker>, b: Books, prices: map<Ticker, Option<real>>, t: Ticker, price: real)
    requires Listed(ts, b.positions.Keys) && t in b.positions
    ensures Listed(ts, b.positions[t := MarkedToday(b.positions[t], price)].Keys)
    ensures Equity(ts, Books(b.positions[t := MarkedToday(b.positions[t], price)], b.cash), prices)
            == Equity(ts, b, prices)
  {
    SumValuesOfListed(ts, b.positions[t := MarkedToday(b.positions[t], price)], b.positions, prices);
  }

  /** The loss cutoff and the trailing stop close the position: everything
      marked is sold at the price, one EXIT is logged, and the ticker's day
      ends there. */
  lemma TickerDayExit(ts: seq<Ticker>, b: Books, prices: map<Ticker, Option<real>>, t: Ticker,
                      price: real, uptrend: bool, totalEquity: real, date: Date)
    requires Listed(ts, b.positions.Keys) && t in b.positions && price > 0.0
    requires ExitToday(b.positions[t], price, totalEquity)
    ensures var r := AfterTickerDay(ts, b, prices, t, price, uptrend, totalEquity, date);
            && b.positions[t].shares > 0.0
            && r.books.positions[t].shares == 0.0
            && r.books.cash == b.cash + b.positions[t].shares * price
            && |r.events| == 1 && r.events[0].action == Exit
  {
  }

  /** Without an exit, a ticker's day trades at most once: a tranche sale
      only on a strictly lower price while shares are held, a purchase only
      on a first or strictly higher price in an uptrend; an unchanged price
      trades nothing. */
  lemma TickerDayTrades(ts: seq<Ticker>, b: Books, prices: map<Ticker, Option<real>>, t: Ticker,
                        price: real, uptrend: bool, totalEquity: real, date: Date)
    requires Listed(ts, b.positions.Keys) && t in b.positions && price > 0.0
    requires !ExitToday(b.positions[t], price, totalEquity)
    ensures var r := AfterTickerDay(ts, b, prices, t, price, uptrend, totalEquity, date);
            var prev := b.positions[t].lastPrice;
            && |r.events| <= 1
            && (r.events != [] && r.events[0].action == Sell ==> Decreasing(prev, price) && b.positions[t].shares > 0.0)
            && (r.events != [] && r.events[0].action == Buy ==> Increasing(prev, price) && uptrend)
            && (r.events != [] ==> r.events[0].action != Exit)
            && (prev == Some(price) ==> r.events == [])
  {
    var prev := b.positions[t].lastPrice;
    DirectionsExclusive(prev, price);
  }

  /** A falling price sells: without an exit, a held position whose price is
      strictly lower than the last one sells exactly one tranche of the
      equity, or the whole holding's worth if that is less. */
  lemma TickerDaySells(ts: seq<Ticker>, b: Books, prices: map<Ticker, Option<real>>, t: Ticker,
                       price: real, uptrend: bool, totalEquity: real, date: Date)
    requires Listed(ts, b.positions.Keys) && t in b.positions && price > 0.0
    requires !ExitToday(b.positions[t], price, totalEquity)
    requires Decreasing(b.positions[t].lastPrice, price) && b.positions[t].shares > 0.0
    requires totalEquity * TRANCHE_FRACTION > 0.0
    ensures |AfterTickerDay(ts, b, prices, t, price, uptrend, totalEquity, date).events| == 1
    ensures AfterTickerDay(ts, b, prices, t, price, uptrend, totalEquity, date).events[0].action == Sell
    ensures AfterTickerDay(ts, b, prices, t, price, uptrend, totalEquity, date).books.cash
            == b.cash + Min(totalEquity * TRANCHE_FRACTION, b.positions[t].Value(Some(price)))
  {
    var b1 := Books(b.positions[t := MarkedToday(b.positions[t], price)], b.cash);
    DownDayIsTheDay(ts, b, prices, t, price, uptrend, totalEquity, date);
    DownDaySells(ts, b1, prices, t, price, totalEquity, date);
    MarkedKeepsWorth(b.positions[t], price, Some(price));
  }

  /** Without an exit, a down day is the sell step alone. */
  lemma DownDayIsTheDay(ts: seq<Ticker>, b: Books, prices: map<Ticker, Option<real>>, t: Ticker,
                        price: real, uptrend: bool, totalEquity: real, date: Date)
    requires Listed(ts, b.positions.Keys) && t in b.positions && price > 0.0
    requires !ExitToday(b.positions[t], price, totalEquity)
    requires Decreasing(b.positions[t].lastPrice, price)
    ensures AfterTickerDay(ts, b, prices, t, price, uptrend, totalEquity, date).events
            == AfterDownDay(ts, Books(b.positions[t := MarkedToday(b.positions[t], price)], b.cash),
                            prices, t, price, true, totalEquity, date).events
    ensures AfterTickerDay(ts, b, prices, t, price, uptrend, totalEquity, date).books.cash
            == AfterDownDay(ts, Books(b.positions[t := MarkedToday(b.positions[t], price)], b.cash),
                            prices, t, price, true, totalEquity, date).books.cash
  {
    NoExitDay(ts, b, prices, t, price, uptrend, totalEquity, date);
  }

  /** Without an exit, a ticker's day is its sell step followed by its buy
      step, from the marked position. */
  lemma NoExitDay(ts: seq<Ticker>, b: Books, prices: map<Ticker, Option<real>>, t: Ticker,
                  price: real, uptrend: bool, totalEquity: real, date: Date)
    requires Listed(ts, b.positions.Keys) && t in b.positions && price > 0.0
    requires !ExitToday(b.positions[t], price, totalEquity)
    ensures var prev := b.positions[t].lastPrice;
            var b1 := Books(b.positions[t := MarkedToday(b.positions[t], price)], b.cash);
            AfterTickerDay(ts, b, prices, t, price, uptrend, totalEquity, date)
            == AfterUpDay(ts, AfterDownDay(ts, b1, prices, t, price, Decreasing(prev, price), totalEquity, date),
                          prices, t, price, Increasing(prev, price) && uptrend, date)
  {
  }

  /** The sell step on a down day sells one tranche of a held position. */
  lemma DownDaySells(ts: seq<Ticker>, b: Books, prices: map<Ticker, Option<real>>, t: Ticker,
                     price: real, totalEquity: real, date: Date)
    requires Listed(ts, b.positions.Keys) && t in b.positions && price > 0.0
    requires b.positions[t].shares > 0.0 && totalEquity * TRANCHE_FRACTION > 0.0
    ensures |AfterDownDay(ts, b, prices, t, price, true, totalEquity, date).events| == 1
    ensures AfterDownDay(ts, b, prices, t, price, true, totalEquity, date).events[0].action == Sell
    ensures AfterDownDay(ts, b, prices, t, price, true, totalEquity, date).books.cash
            == b.cash + Min(totalEquity * TRANCHE_FRACTION, b.positions[t].Value(Some(price)))
  {
    TrancheSaleEffect(ts, b, prices, t, price, totalEquity * TRANCHE_FRACTION, date);
  }

  /** A rising price in an uptrend buys: without an exit, on a first or
      strictly higher price in an uptrend, with room under the allocation cap
      and cash left, exactly one purchase of the capped tranche, or of all the
      cash if that is less, is made. */
  lemma TickerDayBuys(ts: seq<Ticker>, b: Books, prices: map<Ticker, Option<real>>, t: Ticker,
                      price: real, totalEquity: real, date: Date)
    requires Listed(ts, b.positions.Keys) && t in b.positions && price > 0.0
    requires !ExitToday(b.positions[t], price, totalEquity)
    requires Increasing(b.positions[t].lastPrice, price)
    requires BuySize(totalEquity, b.positions[t].Value(Some(price))) > 0.0 && b.cash > 0.0
    ensures |AfterTickerDay(ts, b, prices, t, price, true, totalEquity, date).events| == 1
    ensures AfterTickerDay(ts, b, prices, t, price, true, totalEquity, date).events[0].action == Buy
    ensures AfterTickerDay(ts, b, prices, t, price, true, totalEquity, date).books.cash
            == b.cash - Min(BuySize(totalEquity, b.positions[t].Value(Some(price))), b.cash)
  {
    var b1 := Books(b.positions[t := MarkedToday(b.positions[t], price)], b.cash);
    UpDayIsTheDay(ts, b, prices, t, price, totalEquity, date);
    MarkedKeepsWorth(b.positions[t], price, Some(price));
    UpDayBuys(ts, Step(b1, [], totalEquity), prices, t, price, date);
  }

  /** Without an exit, an up day is the buy step alone, from the marked
      position and the day's running equity. */
  lemma UpDayIsTheDay(ts: seq<Ticker>, b: Books, prices: map<Ticker, Option<real>>, t: Ticker,
                      price: real, totalEquity: real, date: Date)
    requires Listed(ts, b.positions.Keys) && t in b.positions && price > 0.0
    requires !ExitToday(b.positions[t], price, totalEquity)
    requires Increasing(b.positions[t].lastPrice, price)
    ensures AfterTickerDay(ts, b, prices, t, price, true, totalEquity, date)
            == AfterUpDay(ts, Step(Books(b.positions[t := MarkedToday(b.positions[t], price)], b.cash), [], totalEquity),
                          prices, t, price, true, date)
  {
    NoExitDay(ts, b, prices, t, price, true, totalEquity, date);
  }

  /** The buy step on a buy day, with room under the cap and cash left,
      buys once, spending the capped tranche or all the cash if that is
      less. */
  lemma UpDayBuys(ts: seq<Ticker>, s: Step, prices: map<Ticker, Option<real>>, t: Ticker, price: real, date: Date)
    requires Listed(ts, s.books.positions.Keys) && t in s.books.positions && price > 0.0
    requires BuySize(s.equity, s.books.positions[t].Value(Some(price))) > 0.0 && s.books.cash > 0.0
    ensures |AfterUpDay(ts, s, prices, t, price, true, date).events| == |s.events| + 1
    ensures AfterUpDay(ts, s, prices, t, price, true, date).events[|s.events|].action == Buy
    ensures AfterUpDay(ts, s, prices, t, price, true, date).books.cash
            == s.books.cash - Min(BuySize(s.equity, s.books.positions[t].Value(Some(price))), s.books.cash)
  {
  }

  /** A ticker trades at most once a day: an exit ends its day, and a
      down day and an up day exclude each other. */
  lemma TickerDayAtMostOneTrade(ts: seq<Ticker>, b: Books, prices: map<Ticker, Option<real>>, t: Ticker,
                                price: real, uptrend: bool, totalEquity: real, date: Date)
    requires Listed(ts, b.positions.Keys) && t in b.positions && price > 0.0
    ensures |AfterTickerDay(ts, b, prices, t, price, uptrend, totalEquity, date).events| <= 1
  {
    if !ExitToday(b.positions[t], price, totalEquity) {
      TickerDayTrades(ts, b, prices, t, price, uptrend, totalEquity, date);
    }
  }

  /** `total_equity` is always the equity of the current books: if it is on
      entry to a ticker's day, it is on exit. */
  lemma TickerDaySnapshot(ts: seq<Ticker>, b: Books, prices: map<Ticker, Option<real>>, t: Ticker,
                          price: real, uptrend: bool, totalEquity: real, date: Date)
    requires Listed(ts, b.positions.Keys) && t in b.positions && price > 0.0
    requires totalEquity == Equity(ts, b, prices)
    ensures var r := AfterTickerDay(ts, b, prices, t, price, uptrend, totalEquity, date);
            Listed(ts, r.books.positions.Keys) && r.equity == Equity(ts, r.books, prices)
  {
    MarkKeepsEquity(ts, b, prices, t, price);
  }

  /** For a ticker listed once, trading at its book price, a whole day of
      decisions conserves equity but for the dust a tranche sale may
      discard. */
  lemma TickerDayEquity(ts: seq<Ticker>, b: Books, prices: map<Ticker, Option<real>>, t: Ticker,
                        price: real, uptrend: bool, totalEquity: real, date: Date)
    requires Listed(ts, b.positions.Keys) && t in b.positions && price > 0.0
    requires PriceOf(prices, t) == Some(price) && Occurrences(ts, t) == 1 && Consistent(b.positions[t])
    ensures var r := AfterTickerDay(ts, b, prices, t, price, uptrend, totalEquity, date);
            Listed(ts, r.books.positions.Keys) &&
            0.0 <= Equity(ts, b, prices) - Equity(ts, r.books, prices) <= DUST_SHARES * price
  {
    var prev := b.positions[t].lastPrice;
    var marked := MarkedToday(b.positions[t], price);
    var b1 := Books(b.positions[t := marked], b.cash);
    MarkKeepsEquity(ts, b, prices, t, price);
    if ExitToday(b.positions[t], price, totalEquity) {
      SellAllConservesEquity(ts, b1, prices, t, price, date);
    } else {
      var s := AfterDownDay(ts, b1, prices, t, price, Decreasing(prev, price), totalEquity, date);
      if Decreasing(prev, price) && marked.shares > 0.0 {
        TrancheSaleEquity(ts, b1, prices, t, price, totalEquity * TRANCHE_FRACTION, date);
      }
      var buyDay := Increasing(prev, price) && uptrend;
      if buyDay {
        var buy := BuySize(s.equity, s.books.positions[t].Value(Some(price)));
        if buy > 0.0 {
          BuyConservesEquity(ts, s.books, prices, t, price, buy, date);
        }
      }
    }
  }

  /** The allocation cap: for a ticker listed once, a day that buys leaves
      the holding worth at most MAX_ALLOC_PER_TICKER of the equity. */
  lemma TickerDayAllocationCap(ts: seq<Ticker>, b: Books, prices: map<Ticker, Option<real>>, t: Ticker,
                               price: real, uptrend: bool, totalEquity: real, date: Date)
    requires Listed(ts, b.positions.Keys) && t in b.positions && price > 0.0
    requires PriceOf(prices, t) == Some(price) && Occurrences(ts, t) == 1 && Consistent(b.positions[t])
    requires totalEquity == Equity(ts, b, prices)
    ensures var r := AfterTickerDay(ts, b, prices, t, price, uptrend, totalEquity, date);
            (exists i :: 0 <= i < |r.events| && r.events[i].action == Buy) ==>
              r.books.positions[t].Value(Some(price)) <= MAX_ALLOC_PER_TICKER * r.equity
  {
    var r := AfterTickerDay(ts, b, prices, t, price, uptrend, totalEquity, date);
    var prev := b.positions[t].lastPrice;
    var marked := MarkedToday(b.positions[t], price);
    var b1 := Books(b.positions[t := marked], b.cash);
    MarkKeepsEquity(ts, b, prices, t, price);
    if !ExitToday(b.positions[t], price, totalEquity) && Increasing(prev, price) && uptrend {
      var s := AfterDownDay(ts, b1, prices, t, price, Decreasing(prev, price), totalEquity, date);
      DirectionsExclusive(prev, price);
      assert s == Step(b1, [], totalEquity);
      var current := marked.Value(Some(price));
      var buy := BuySize(totalEquity, current);
      if buy > 0.0 {
        BuyTrancheEffect(b1, t, price, buy, date);
        BuyConservesEquity(ts, b1, prices, t, price, buy, date);
        var x := AfterBuyTranche(b1, t, price, buy, date);
        if x.events != [] {
          PurchaseWorth(marked, x.books.positions[t], b1.cash - x.books.cash, price);
        }
      }
    }
  }

  /** While a position stays open through a day, its highest price never
      falls. */
  lemma TickerDayHighestNeverFalls(ts: seq<Ticker>, b: Books, prices: map<Ticker, Option<real>>, t: Ticker,
                                   price: real, uptrend: bool, totalEquity: real, date: Date)
    requires Listed(ts, b.positions.Keys) && t in b.positions && price > 0.0
    requires Consistent(b.positions[t]) && b.positions[t].shares > 0.0
    ensures var r := AfterTickerDay(ts, b, prices, t, price, uptrend, totalEquity, date);
            r.books.positions[t].shares > 0.0 ==> r.books.positions[t].highestPrice >= b.positions[t].highestPrice
  {
    var prev := b.positions[t].lastPrice;
    DirectionsExclusive(prev, price);
  }
}
