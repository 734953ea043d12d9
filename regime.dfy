/** The regime script backtest/main.py: it enters at the open of the first
    bar of an uptrend (the 200-, 150- and 50-bar means of the close stacked
    under the low), exits at the close of the first bar that is not in one,
    and compounds the balance by every closed trade. */
module Regime {
  import opened Market
  import Strategy

  /** The two tags `actionRouter` returns; returning nothing is `None`. */
  datatype Action = Enter | Exit

  /** The locals of `backtest`. */
  datatype Book = Book(enteredPrice: real, highestPrice: real, balance: real, recordsOfRate: seq<real>)

  /** The locals as `backtest` starts: no entry and a balance of 100. */
  const Opening := Book(0.0, 0.0, 100.0, [])

  /** The row `iloc[index]` selects: a negative index counts from the end. */
  function RowOf(n: nat, index: int): (k: nat)
    requires -(n as int) <= index < n
    ensures k < n
    ensures 0 <= index ==> k == index
    ensures index < 0 ==> k == n + index
  {
    if index < 0 then n + index else index
  }

  /** `isOnUpTrend`: the 200-, 150- and 50-bar means of the close and the low
      of the selected row are strictly increasing; an undefined mean makes
      the test false, so no row before the 200th is ever in an uptrend. */
  function IsOnUpTrend(bars: seq<Bar>, index: int): (up: bool)
    requires -|bars| <= index < |bars|
    ensures up ==> 199 <= RowOf(|bars|, index)
    ensures up <==>
              var k := RowOf(|bars|, index);
              var s50 := RollingMean(Closes(bars), 50, k);
              var s150 := RollingMean(Closes(bars), 150, k);
              var s200 := RollingMean(Closes(bars), 200, k);
              s50.Some? && s150.Some? && s200.Some? &&
              s200.value < s150.value < s50.value < bars[k].low
  {
    var k := RowOf(|bars|, index);
    var closes := Closes(bars);
    Strategy.IsOnUpTrend(bars[k].low, RollingMean(closes, 50, k), RollingMean(closes, 150, k),
                         RollingMean(closes, 200, k))
  }

  /** `actionRouter`: ENTER when the bar starts an uptrend, EXIT when it is
      not in one, nothing while the uptrend lasts. The bar before bar 0 is
      the last bar of the history. */
  function ActionRouter(bars: seq<Bar>, index: nat): (a: Option<Action>)
    requires index < |bars|
    ensures a == Some(Enter) <==> !IsOnUpTrend(bars, index - 1) && IsOnUpTrend(bars, index)
    ensures a == Some(Exit) <==> !IsOnUpTrend(bars, index)
    ensures a == None <==> IsOnUpTrend(bars, index - 1) && IsOnUpTrend(bars, index)
  {
    if !IsOnUpTrend(bars, index - 1) && IsOnUpTrend(bars, index) then Some(Enter)
    else if !IsOnUpTrend(bars, index) then Some(Exit)
    else None
  }

  /** On bar 0 the router compares with the last bar of the history. */
  lemma FirstBarLooksAtLastBar(bars: seq<Bar>)
    requires 0 < |bars|
    ensures ActionRouter(bars, 0) == Some(Enter) <==>
              !IsOnUpTrend(bars, |bars| - 1) && IsOnUpTrend(bars, 0)
  {
    assert RowOf(|bars|, -1) == RowOf(|bars|, |bars| - 1);
  }

  /** Before the 200-bar mean exists every bar is an EXIT. */
  lemma WarmupBarsExit(bars: seq<Bar>, index: nat)
    requires index < |bars| && index < 199
    ensures ActionRouter(bars, index) == Some(Exit)
  {
  }

  /** One pass of the loop of `backtest` on a bar and the router's action
      for it: a flat book enters at the open on ENTER, remembering the high;
      a held one exits at the close on EXIT, recording the return and
      compounding the balance; anything else leaves the book as it is. */
  function Visit(b: Book, bar: Bar, action: Option<Action>): (r: Book)
    ensures |b.recordsOfRate| <= |r.recordsOfRate| <= |b.recordsOfRate| + 1
    ensures b.enteredPrice == 0.0 ==> r.balance == b.balance && r.recordsOfRate == b.recordsOfRate
    ensures b.enteredPrice == 0.0 && action == Some(Enter) ==>
              r == b.(enteredPrice := bar.open, highestPrice := bar.high)
    ensures b.enteredPrice == 0.0 && r != b ==>
              action == Some(Enter) && r.enteredPrice == bar.open && r.highestPrice == bar.high
    ensures b.enteredPrice != 0.0 ==> (|r.recordsOfRate| == |b.recordsOfRate| + 1 <==> action == Some(Exit))
    ensures b.enteredPrice != 0.0 && action == Some(Exit) ==>
              r.recordsOfRate == b.recordsOfRate + [ReturnPercent(bar.close, b.enteredPrice)] &&
              r.balance == b.balance * (bar.close / b.enteredPrice) &&
              r.enteredPrice == 0.0 && r.highestPrice == 0.0
    ensures b.enteredPrice != 0.0 && action != Some(Exit) ==> r == b
  {
    if b.enteredPrice == 0.0 && action == Some(Enter) then
      b.(enteredPrice := bar.open, highestPrice := bar.high)
    else if b.enteredPrice != 0.0 && action == Some(Exit) then
      Book(0.0, 0.0, b.balance * (bar.close / b.enteredPrice),
           b.recordsOfRate + [ReturnPercent(bar.close, b.enteredPrice)])
    else b
  }

  /** The locals after the loop has visited bars 0 .. count - 1. */
  function Replay(bars: seq<Bar>, count: nat): (r: Book)
    requires count <= Days(|bars|)
    ensures |r.recordsOfRate| <= count
  {
    if count == 0 then Opening
    else Visit(Replay(bars, count - 1), bars[count - 1], ActionRouter(bars, count - 1))
  }

  /** Each pass keeps the balance at 100 compounded by every recorded
      return. */
  lemma VisitCompounds(b: Book, bar: Bar, action: Option<Action>)
    requires b.balance == 100.0 * Growth(b.recordsOfRate)
    ensures Visit(b, bar, action).balance == 100.0 * Growth(Visit(b, bar, action).recordsOfRate)
  {
    if b.enteredPrice != 0.0 && action == Some(Exit) {
      GrowthAppend(b.recordsOfRate, bar.close, b.enteredPrice);
      Compound(b.balance, Growth(b.recordsOfRate), bar.close / b.enteredPrice);
    }
  }

  lemma Compound(balance: real, growth: real, ratio: real)
    requires balance == 100.0 * growth
    ensures balance * ratio == 100.0 * (growth * ratio)
  {
  }

  /** Whatever the prices, the balance of `backtest` is 100 compounded by
      every return it records. */
  lemma {:induction false} ReplayCompounds(bars: seq<Bar>, count: nat)
    requires count <= Days(|bars|)
    ensures Replay(bars, count).balance == 100.0 * Growth(Replay(bars, count).recordsOfRate)
  {
    if count > 0 {
      ReplayCompounds(bars, count - 1);
      VisitCompounds(Replay(bars, count - 1), bars[count - 1], ActionRouter(bars, count - 1));
    }
  }

  /** No trade is opened before the 200-bar mean exists: the first 199
      passes leave the book as it started. */
  lemma {:induction false} WarmupLeavesBookUntouched(bars: seq<Bar>, count: nat)
    requires count <= Days(|bars|) && count <= 199
    ensures Replay(bars, count) == Opening
  {
    if count > 0 {
      WarmupLeavesBookUntouched(bars, count - 1);
      WarmupBarsExit(bars, count - 1);
    }
  }

  /** One pass of the loop of `backtest`: the router's action for the bar at
      `index`, then the entry or the exit it calls for. */
  method Pass(bars: seq<Bar>, index: nat, book: Book) returns (next: Book)
    requires index < |bars|
    ensures next == Visit(book, bars[index], ActionRouter(bars, index))
  {
    var enteredPrice, highestPrice := book.enteredPrice, book.highestPrice;
    var balance, recordsOfRate := book.balance, book.recordsOfRate;
    var action := ActionRouter(bars, index);
    if enteredPrice == 0.0 && action == Some(Enter) {
      enteredPrice := bars[index].open;
      highestPrice := bars[index].high;
    } else if enteredPrice != 0.0 && action == Some(Exit) {
      var interestRate := ReturnPercent(bars[index].close, enteredPrice);
      recordsOfRate := recordsOfRate + [interestRate];
      balance := balance * (bars[index].close / enteredPrice);
      enteredPrice := 0.0;
      highestPrice := 0.0;
    }
    next := Book(enteredPrice, highestPrice, balance, recordsOfRate);
  }

  /** `backtest`: every bar but the last 200 visited in order; returns the
      final balance and the recorded returns it prints. */
  method Backtest(bars: seq<Bar>) returns (balance: real, recordsOfRate: seq<real>)
    ensures balance == Replay(bars, Days(|bars|)).balance
    ensures recordsOfRate == Replay(bars, Days(|bars|)).recordsOfRate
    ensures balance == 100.0 * Growth(recordsOfRate)
  {
    var book := Opening;
    for index := 0 to Days(|bars|)
      invariant book == Replay(bars, index)
    {
      book := Pass(bars, index, book);
    }
    ReplayCompounds(bars, Days(|bars|));
    balance, recordsOfRate := book.balance, book.recordsOfRate;
  }
}
