/** The single-ticker script backtest/Trader.py: a module whose globals hold
    the position (`isRetained`, `entryPrice`, `highest`), the running
    `balance` and the list of trade returns, and whose `movement` advances
    them one bar at a time from bar 200 on. */
module Trader {
  import opened Market

  /** The two signals `evaluateTrend` can give; no signal is `None`. */
  datatype Trend = Up | Exit

  /** What one call reads at a row: the bar and the 50/150/200-bar rolling
      means of the close (undefined, i.e. NaN, during warm-up). */
  datatype Row = Row(bar: Bar, sma50: Option<real>, sma150: Option<real>, sma200: Option<real>)

  /** The module globals. */
  datatype Globals = Globals(isRetained: bool, balance: real, entryPrice: real,
                             currentPrice: real, highest: real, tradingRecords: seq<real>)

  /** The globals as the script starts: flat, with a balance of 100. */
  const Start := Globals(false, 100.0, 0.0, 0.0, 0.0, [])

  /** The bar at `index` with its three moving averages. */
  function RowAt(bars: seq<Bar>, index: nat): (row: Row)
    requires index < |bars|
    ensures row.bar == bars[index]
    ensures row.sma50.Some? <==> 50 <= index + 1
    ensures row.sma150.Some? <==> 150 <= index + 1
    ensures row.sma200.Some? <==> 200 <= index + 1
  {
    var closes := Closes(bars);
    Row(bars[index], RollingMean(closes, 50, index), RollingMean(closes, 150, index),
        RollingMean(closes, 200, index))
  }

  /** The history with its rolling-mean columns, one row per bar. */
  function Rows(bars: seq<Bar>): (rows: seq<Row>)
    ensures |rows| == |bars|
    ensures forall i :: 0 <= i < |bars| ==> rows[i] == RowAt(bars, i)
  {
    seq(|bars|, i requires 0 <= i < |bars| => RowAt(bars, i))
  }

  function Midpoint(bar: Bar): real
  {
    (bar.open + bar.close) / 2.0
  }

  /** The price `evaluateTrend` decides on: the 50-bar mean when it lies
      between the open and the close, ends included, else the midpoint. */
  function DecisionPrice(bar: Bar, sma50: Option<real>): (p: real)
    ensures bar.open <= p <= bar.close || bar.close <= p <= bar.open
    ensures (sma50.Some? && (bar.open <= sma50.value <= bar.close || bar.close <= sma50.value <= bar.open)) ==>
              p == sma50.value
    ensures sma50.None? ==> p == Midpoint(bar)
  {
    if (AtMost(Some(bar.open), sma50) && AtMost(sma50, Some(bar.close))) ||
       (AtMost(Some(bar.close), sma50) && AtMost(sma50, Some(bar.open)))
    then sma50.value
    else Midpoint(bar)
  }

  /** The price `movement` trades at: the 50-bar mean only when it lies
      strictly between the open and the close, else the midpoint. */
  function TradingPrice(bar: Bar, sma50: Option<real>): (p: real)
    ensures bar.open <= p <= bar.close || bar.close <= p <= bar.open
    ensures (sma50.Some? && (bar.open < sma50.value < bar.close || bar.close < sma50.value < bar.open)) ==>
              p == sma50.value
    ensures !(sma50.Some? && (bar.open < sma50.value < bar.close || bar.close < sma50.value < bar.open)) ==>
              p == Midpoint(bar)
  {
    if (Less(Some(bar.open), sma50) && Less(sma50, Some(bar.close))) ||
       (Less(Some(bar.close), sma50) && Less(sma50, Some(bar.open)))
    then sma50.value
    else Midpoint(bar)
  }

  /** When the 50-bar mean sits exactly on the open of a bar that moved, the
      two prices differ: the decision is taken at the open, the trade at the
      midpoint. */
  lemma PricesDisagreeOnTheBoundary(bar: Bar, sma50: Option<real>)
    requires sma50 == Some(bar.open) && bar.open != bar.close
    ensures DecisionPrice(bar, sma50) == bar.open
    ensures TradingPrice(bar, sma50) == Midpoint(bar) != bar.open
  {
  }

  /** Away from the open and the close the two prices are the same. */
  lemma PricesAgreeOffTheBoundary(bar: Bar, sma50: Option<real>)
    requires sma50.None? || (sma50.value != bar.open && sma50.value != bar.close)
    ensures DecisionPrice(bar, sma50) == TradingPrice(bar, sma50)
  {
  }

  /** The return `movement` computes before it decides: 0 while there is no
      entry price, else the return in percent of the trading price over it. */
  function ProfitRatio(price: real, entryPrice: real): (r: real)
    ensures entryPrice == 0.0 ==> r == 0.0
    ensures entryPrice != 0.0 ==> 1.0 + r / 100.0 == price / entryPrice
  {
    if entryPrice == 0.0 then 0.0 else ReturnPercent(price, entryPrice)
  }

  /** `evaluateTrend`: while holding, EXIT on a decision price more than 2%
      under a known entry price, more than 20% under the highest price or
      under the 50-bar mean, checked in that order; otherwise UP when the
      price and the three means are stacked in decreasing order; otherwise
      no signal. */
  function EvaluateTrend(isRetained: bool, entryPrice: real, highest: real, row: Row): (t: Option<Trend>)
    ensures var p := DecisionPrice(row.bar, row.sma50);
      t == Some(Exit) <==>
        isRetained && ((entryPrice != 0.0 && p < entryPrice * 0.98) || p < highest * 0.8 ||
                       (row.sma50.Some? && p < row.sma50.value))
    ensures var p := DecisionPrice(row.bar, row.sma50);
      t == Some(Up) <==>
        t != Some(Exit) && row.sma50.Some? && row.sma150.Some? && row.sma200.Some? &&
        p > row.sma50.value > row.sma150.value > row.sma200.value
    ensures t == Some(Up) ==> row.sma200.Some?
  {
    var p := DecisionPrice(row.bar, row.sma50);
    if isRetained && entryPrice != 0.0 && p < entryPrice * 0.98 then Some(Exit)
    else if isRetained && p < highest * 0.8 then Some(Exit)
    else if isRetained && Less(Some(p), row.sma50) then Some(Exit)
    else if Less(row.sma50, Some(p)) && Less(row.sma150, row.sma50) && Less(row.sma200, row.sma150)
    then Some(Up)
    else None
  }

  /** One `movement` call: the globals after the bar `row`. */
  function AfterMovement(g: Globals, row: Row): (r: Globals)
    ensures r.currentPrice == TradingPrice(row.bar, row.sma50)
    // the highest price only rises while holding, and only to the trading price
    ensures !g.isRetained ==> r.highest == g.highest
    ensures g.isRetained && r.isRetained ==>
              g.highest <= r.highest && TradingPrice(row.bar, row.sma50) <= r.highest &&
              (r.highest != g.highest ==> r.highest == TradingPrice(row.bar, row.sma50))
    // entering: UP while flat
    ensures !g.isRetained && r.isRetained ==>
              r.entryPrice == TradingPrice(row.bar, row.sma50) && r.balance == g.balance &&
              r.tradingRecords == g.tradingRecords
    // exiting: EXIT while holding records one return and compounds the balance
    ensures g.isRetained && !r.isRetained && g.entryPrice != 0.0 ==>
              r.balance == TradingPrice(row.bar, row.sma50) / g.entryPrice * g.balance &&
              r.tradingRecords == g.tradingRecords + [ProfitRatio(TradingPrice(row.bar, row.sma50), g.entryPrice)] &&
              r.entryPrice == 0.0 && r.highest == 0.0
    // every other bar leaves the position, the balance and the records alone
    ensures g.isRetained == r.isRetained ==>
              r.entryPrice == g.entryPrice && r.balance == g.balance && r.tradingRecords == g.tradingRecords
    // the records only ever grow, by at most one return
    ensures g.tradingRecords <= r.tradingRecords && |r.tradingRecords| <= |g.tradingRecords| + 1
    ensures r.isRetained != g.isRetained <==>
              (!g.isRetained && EvaluateTrend(false, g.entryPrice, g.highest, row) == Some(Up)) ||
              (g.isRetained && EvaluateTrend(true, g.entryPrice, RaisedHighest(g, row), row) == Some(Exit))
  {
    var price := TradingPrice(row.bar, row.sma50);
    var highest := RaisedHighest(g, row);
    var trend := EvaluateTrend(g.isRetained, g.entryPrice, highest, row);
    if trend == Some(Up) && !g.isRetained then
      g.(isRetained := true, entryPrice := price, currentPrice := price, highest := highest)
    else if trend == Some(Exit) && g.isRetained then
      if g.entryPrice == 0.0 then
        g.(isRetained := false, currentPrice := price, highest := highest)
      else
        g.(isRetained := false, balance := price / g.entryPrice * g.balance,
           tradingRecords := g.tradingRecords + [ProfitRatio(price, g.entryPrice)],
           entryPrice := 0.0, currentPrice := price, highest := 0.0)
    else
      g.(currentPrice := price, highest := highest)
  }

  /** The highest price after the bar's first update: raised to the trading
      price when holding and that price is higher. */
  function RaisedHighest(g: Globals, row: Row): (h: real)
    ensures h >= g.highest
    ensures g.isRetained ==> h >= TradingPrice(row.bar, row.sma50)
    ensures h != g.highest ==> g.isRetained && h == TradingPrice(row.bar, row.sma50)
  {
    var price := TradingPrice(row.bar, row.sma50);
    if g.isRetained && g.highest < price then price else g.highest
  }

  predicate PositiveBar(bar: Bar)
  {
    bar.open > 0.0 && bar.close > 0.0
  }

  predicate PositiveBars(bars: seq<Bar>)
  {
    forall i :: 0 <= i < |bars| ==> PositiveBar(bars[i])
  }

  predicate PositiveRows(rows: seq<Row>)
  {
    forall i :: 0 <= i < |rows| ==> PositiveBar(rows[i].bar)
  }

  /** What the globals keep between bars when prices are positive: a flat
      script has no entry and no highest price, a holding one a positive
      entry price, and the balance is 100 compounded by every recorded
      return. */
  predicate Coherent(g: Globals)
  {
    (!g.isRetained ==> g.entryPrice == 0.0 && g.highest == 0.0) &&
    (g.isRetained ==> g.entryPrice > 0.0) &&
    g.balance > 0.0 &&
    g.balance == 100.0 * Growth(g.tradingRecords)
  }

  /** Closing a trade at `price` compounds a balance that is 100 times the
      growth of the records into 100 times the growth with that trade's
      return appended. */
  lemma ExitCompounds(balance: real, records: seq<real>, price: real, entry: real)
    requires entry > 0.0 && price > 0.0 && balance > 0.0
    requires balance == 100.0 * Growth(records)
    ensures price / entry * balance > 0.0
    ensures price / entry * balance == 100.0 * Growth(records + [ProfitRatio(price, entry)])
  {
    var ratio := price / entry;
    PositiveRatio(price, entry);
    GrowthAppend(records, price, entry);
    Rescale(ratio, balance, Growth(records));
  }

  lemma PositiveRatio(price: real, entry: real)
    requires entry > 0.0 && price > 0.0
    ensures price / entry > 0.0
  {
    assert price / entry * entry == price;
  }

  lemma Rescale(ratio: real, balance: real, growth: real)
    requires ratio > 0.0 && balance > 0.0 && balance == 100.0 * growth
    ensures ratio * balance > 0.0
    ensures ratio * balance == 100.0 * (growth * ratio)
  {
  }

  /** `movement` keeps the globals coherent; in particular the `entryPrice
      == 0` exit path is never taken. */
  lemma MovementKeepsCoherent(g: Globals, row: Row)
    requires Coherent(g) && PositiveBar(row.bar)
    ensures Coherent(AfterMovement(g, row))
  {
    var price := TradingPrice(row.bar, row.sma50);
    assert price > 0.0;
    var trend := EvaluateTrend(g.isRetained, g.entryPrice, RaisedHighest(g, row), row);
    if trend == Some(Exit) && g.isRetained {
      ExitCompounds(g.balance, g.tradingRecords, price, g.entryPrice);
    }
  }

  /** The globals after `movement` has run on rows 200 .. 200 + count - 1. */
  function Replay(g: Globals, rows: seq<Row>, count: nat): (r: Globals)
    requires count <= Days(|rows|)
    ensures g.tradingRecords <= r.tradingRecords && |r.tradingRecords| <= |g.tradingRecords| + count
  {
    if count == 0 then g else AfterMovement(Replay(g, rows, count - 1), rows[200 + count - 1])
  }

  lemma {:induction false} ReplayKeepsCoherent(g: Globals, rows: seq<Row>, count: nat)
    requires count <= Days(|rows|)
    requires Coherent(g) && PositiveRows(rows)
    ensures Coherent(Replay(g, rows, count))
  {
    if count > 0 {
      ReplayKeepsCoherent(g, rows, count - 1);
      MovementKeepsCoherent(Replay(g, rows, count - 1), rows[200 + count - 1]);
    }
  }

  /** The end of `backtest`: a position still held is marked at the last
      trading price, recording the ratio times 100 (not a return: the 100 is
      not subtracted) and compounding the balance by the ratio. */
  function MarkToMarket(g: Globals): (r: Globals)
    requires g.isRetained ==> g.entryPrice != 0.0
    ensures !g.isRetained ==> r == g
    ensures r.isRetained == g.isRetained && r.entryPrice == g.entryPrice &&
            r.currentPrice == g.currentPrice && r.highest == g.highest
    ensures g.isRetained ==>
              r.balance == g.currentPrice / g.entryPrice * g.balance &&
              r.tradingRecords == g.tradingRecords + [g.currentPrice / g.entryPrice * 100.0]
  {
    if g.isRetained then
      g.(tradingRecords := g.tradingRecords + [g.currentPrice / g.entryPrice * 100.0],
         balance := g.currentPrice / g.entryPrice * g.balance)
    else g
  }

  /** Marking a coherent state multiplies 100 times the growth of the
      closed trades by the open trade's ratio, if there is one. */
  lemma MarkedBalance(g: Globals)
    requires Coherent(g)
    ensures MarkToMarket(g).balance ==
              100.0 * Growth(g.tradingRecords) * (if g.isRetained then g.currentPrice / g.entryPrice else 1.0)
  {
    if g.isRetained {
      ScaleGrowth(g.balance, Growth(g.tradingRecords), g.currentPrice / g.entryPrice);
    }
  }

  lemma ScaleGrowth(balance: real, growth: real, ratio: real)
    requires balance == 100.0 * growth
    ensures ratio * balance == 100.0 * growth * ratio
  {
  }

  /** The script's globals over one price history. */
  class Script {
    const rows: seq<Row>
    var isRetained: bool
    var balance: real
    var entryPrice: real
    var currentPrice: real
    var highest: real
    var tradingRecords: seq<real>

    function State(): Globals
      reads this
    {
      Globals(isRetained, balance, entryPrice, currentPrice, highest, tradingRecords)
    }

    ghost predicate Valid()
      reads this
    {
      PositiveRows(rows) && Coherent(State())
    }

    constructor (bars: seq<Bar>)
      requires PositiveBars(bars)
      ensures rows == Rows(bars) && State() == Start && Valid()
    {
      rows := Rows(bars);
      isRetained := false;
      balance := 100.0;
      entryPrice := 0.0;
      currentPrice := 0.0;
      highest := 0.0;
      tradingRecords := [];
    }

    /** One bar: the highest price is raised while holding, then the trend
        signal enters or exits the position. */
    method Movement(index: nat)
      requires Valid() && index < |rows|
      modifies this
      ensures Valid()
      ensures State() == AfterMovement(old(State()), rows[index])
    {
      ghost var before := State();
      var row := rows[index];
      var tradingPrice := TradingPrice(row.bar, row.sma50);
      currentPrice := tradingPrice;
      if isRetained && highest < tradingPrice {
        highest := tradingPrice;
      }
      var trend := EvaluateTrend(isRetained, entryPrice, highest, row);
      if trend == Some(Up) && !isRetained {
        isRetained := true;
        entryPrice := tradingPrice;
      } else if trend == Some(Exit) && isRetained {
        isRetained := false;
        if entryPrice != 0.0 {
          balance := tradingPrice / entryPrice * balance;
          tradingRecords := tradingRecords + [ProfitRatio(tradingPrice, entryPrice)];
          entryPrice := 0.0;
          highest := 0.0;
        }
      }
      assert State() == AfterMovement(before, row);
      MovementKeepsCoherent(before, row);
    }

    /** The loop of `backtest`: `movement` on every bar from 200 on. */
    method MoveAll()
      requires Valid()
      modifies this
      ensures Valid()
      ensures State() == Replay(old(State()), rows, Days(|rows|))
    {
      ghost var start := State();
      for index := 0 to Days(|rows|)
        invariant Valid()
        invariant State() == Replay(start, rows, index)
      {
        Movement(index + 200);
      }
    }

    /** `backtest`: the loop, then the open position marked. */
    method Backtest()
      requires Valid()
      modifies this
      ensures Coherent(Replay(old(State()), rows, Days(|rows|))) &&
              State() == MarkToMarket(Replay(old(State()), rows, Days(|rows|)))
    {
      MoveAll();
      assert Coherent(State());
      MarkOpenPosition();
    }

    /** The end of `backtest`: a position still held is marked at the last
        trading price. */
    method MarkOpenPosition()
      requires isRetained ==> entryPrice != 0.0
      modifies this
      ensures State() == MarkToMarket(old(State()))
    {
      if isRetained {
        tradingRecords := tradingRecords + [currentPrice / entryPrice * 100.0];
        balance := currentPrice / entryPrice * balance;
      }
    }
  }
}
