/** The trend rules shared by the backtests (backtest/strategy.py): the
    moving-average columns, the uptrend test and the 200-day regime rule. */
module Strategy {
  import opened Market

  /** The tag returned by the regime rule. */
  datatype Signal = Enter | Exit | Hold

  /** A price history with its close column and the derived indicator
      columns, which `AddMovingAverages` extends in place. */
  class PriceFrame {
    const close: seq<real>
    var indicators: map<string, seq<Option<real>>>

    constructor (close: seq<real>, indicators: map<string, seq<Option<real>>>)
      ensures this.close == close && this.indicators == indicators
    {
      this.close := close;
      this.indicators := indicators;
    }

    /** Adds each missing sma20/sma50/sma150/sma200 column; a column that is
        already there is left as it is. */
    method AddMovingAverages()
      modifies this
      ensures indicators == WithMovingAverages(old(indicators), close)
    {
      if "sma20" !in indicators {
        indicators := indicators["sma20" := RollingMeans(close, 20)];
      }
      if "sma50" !in indicators {
        indicators := indicators["sma50" := RollingMeans(close, 50)];
      }
      if "sma150" !in indicators {
        indicators := indicators["sma150" := RollingMeans(close, 150)];
      }
      if "sma200" !in indicators {
        indicators := indicators["sma200" := RollingMeans(close, 200)];
      }
    }
  }

  /** The column `AddMovingAverages` would add under a name, if it is absent. */
  function AddIfMissing(cols: map<string, seq<Option<real>>>, name: string, close: seq<real>, window: nat)
    : map<string, seq<Option<real>>>
    requires 0 < window
  {
    if name in cols then cols else cols[name := RollingMeans(close, window)]
  }

  /** The columns after `AddMovingAverages`: the four moving averages are all
      present, every column that was present keeps its values, a missing one
      is the rolling mean of the close over its window, and nothing else is
      added. */
  function WithMovingAverages(cols: map<string, seq<Option<real>>>, close: seq<real>)
    : (r: map<string, seq<Option<real>>>)
    ensures "sma20" in r && "sma50" in r && "sma150" in r && "sma200" in r
    ensures forall name :: name in cols ==> name in r && r[name] == cols[name]
    ensures forall name :: name in r ==>
              name in cols || name in {"sma20", "sma50", "sma150", "sma200"}
    ensures "sma20" !in cols ==> r["sma20"] == RollingMeans(close, 20)
    ensures "sma50" !in cols ==> r["sma50"] == RollingMeans(close, 50)
    ensures "sma150" !in cols ==> r["sma150"] == RollingMeans(close, 150)
    ensures "sma200" !in cols ==> r["sma200"] == RollingMeans(close, 200)
  {
    var c20 := AddIfMissing(cols, "sma20", close, 20);
    var c50 := AddIfMissing(c20, "sma50", close, 50);
    var c150 := AddIfMissing(c50, "sma150", close, 150);
    AddIfMissing(c150, "sma200", close, 200)
  }

  /** Adding the moving averages a second time changes nothing. */
  lemma AddMovingAveragesIdempotent(cols: map<string, seq<Option<real>>>, close: seq<real>)
    ensures WithMovingAverages(WithMovingAverages(cols, close), close) == WithMovingAverages(cols, close)
  {
    var once := WithMovingAverages(cols, close);
    var twice := WithMovingAverages(once, close);
    assert twice.Keys == once.Keys;
  }

  /** `sma200 < sma150 < sma50 < Low` at one index, where an undefined (NaN)
      average makes every comparison false. */
  function IsOnUpTrend(low: real, sma50: Option<real>, sma150: Option<real>, sma200: Option<real>): (up: bool)
    ensures up <==> sma50.Some? && sma150.Some? && sma200.Some? &&
                    sma200.value < sma150.value < sma50.value < low
  {
    Less(sma200, sma150) && Less(sma150, sma50) && Less(sma50, Some(low))
  }

  /** The 200-day regime rule: while flat, ENTER on a close more than 1% above
      the 200-day average; while holding a position with a known entry price,
      EXIT on a close below the average or more than 15% below the highest
      price; HOLD otherwise. */
  function EvaluateTrend(close: real, sma200: Option<real>, isRetained: bool, entryPrice: real, highestPrice: real)
    : (s: Signal)
    ensures !isRetained ==> s != Exit
    ensures !isRetained ==> (s == Enter <==> sma200.Some? && close > sma200.value * 1.01)
    ensures isRetained ==> s != Enter
    ensures isRetained && entryPrice == 0.0 ==> s == Hold
    ensures isRetained && entryPrice != 0.0 ==>
              (s == Exit <==> (sma200.Some? && close < sma200.value) ||
                              (highestPrice != 0.0 && close < highestPrice * 0.85))
  {
    if !isRetained then
      if sma200.Some? && close > sma200.value * 1.01 then Enter else Hold
    else if entryPrice != 0.0 && Less(Some(close), sma200) then Exit
    else if entryPrice != 0.0 && highestPrice != 0.0 && close < highestPrice * 0.85 then Exit
    else Hold
  }
}
