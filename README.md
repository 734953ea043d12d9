# Trend-following backtests, modelled in Dafny

The `backtest` package replays daily price bars through trend rules.

- **Multi-asset portfolio backtest.** `backtest/portfolio.py` runs several tickers together. They share one cash balance, and each has a `Position`. A price book holds every ticker's last close. Each date of the union calendar does the same things. First the prices are refreshed. Then each ticker is marked to its price. A position is closed when its unrealised loss reaches 1% of equity, or when the price falls to its trailing stop, 15% under the highest price. Otherwise a down day sells a tranche of 5% of equity. An up day in an uptrend buys a tranche, capped so that no ticker holds more than 20% of equity. Every order is counted and written to a capped log of recent trades.
- **Single-ticker scripts.**
  - `backtest/Trader.py` trades at a bar's 50-day mean or midpoint. Its exit rule looks at the entry price, the highest price and the 50-day mean.
  - `backtest/main.py` enters at the open of the first bar of an uptrend and exits at the close of the first bar that leaves it.
- **Strategy rules.** `backtest/strategy.py` holds the moving-average columns, the uptrend test and a 200-day regime rule. `portfolio.py` imports the first two (line 8), and the runners import the regime rule. `Trader.py` and `main.py` do not import it: each defines its own versions of these rules.

## Model files

| file | content |
|---|---|
| `market.dfy` | Bars and optional values (a pandas NaN is `None`). NaN-aware comparisons, the rolling mean, the percent return and the growth of a run of returns. |
| `strategy.dfy` | `strategy.py`. `PriceFrame` is a class whose indicator columns `AddMovingAverages` extends in place. |
| `ledger.dfy` | The constants and the `Position` record of `portfolio.py`. Also the valuation of positions, the decision conditions of the day loop, and the trade log (`log_trade`) as the class `TradeJournal`. |
| `orders.dfy` | The orders `sell_all`, `sell_tranche` and `buy_tranche`, and one ticker's day. Each is a function from books to books, with its equity, allocation and invariant lemmas. |
| `calendar.dfy` | The uptrend column of `_prepare_history` (warm-up rule), `_union_dates`, the ticker iteration order and the price-book refresh. |
| `portfolio.dfy` | The day loop as functions, and the class `Engine`. `Engine` holds the positions, cash, price book and journal of `run_portfolio_backtest`. Its methods follow the source's calls: `DecideTicker` marks the position, then calls `SellAll`, or `SellStep` (which calls `SellTranche`) and `BuyStep` (which calls `BuyTranche`). Each method's contract ties the new books and log to the matching function. |
| `trader.dfy` | `Trader.py`. The class `Script` holds the module globals, and `Movement` updates them bar by bar. |
| `regime.dfy` | `main.py`. `Backtest` is a loop over the bars, specified by a replay function. |

## Model

| member | source | states |
|---|---|---|
| Market.RollingMean | backtest/strategy.py:14-21 | `rolling(window).mean()` at a position is undefined exactly while fewer than `window` values exist. After that, the mean times the window is the sum of the last `window` values. |
| Market.RollingMeans | backtest/strategy.py:14-21 | The rolling-mean column has one entry per close, and each entry is the rolling mean at its position. |
| Market.RollingMeanOfFlatWindow | backtest/strategy.py:14-21 | Over a window of equal closes, the moving average is that close. |
| Market.ReturnPercent | backtest/main.py:55 | The recorded return `price / entry * 100 - 100` is the balance factor in percent: `1 + r/100 == price/entry`. It is positive exactly when the price beats a positive entry. |
| Market.GrowthAppend | backtest/main.py:55-60 | Recording one more return multiplies the compounded growth by that trade's price ratio. |
| Market.Days | backtest/Trader.py:92 | `len(range(n - 200))`: no steps for fewer than 200 bars, otherwise `n - 200` steps. |
| Strategy.PriceFrame.AddMovingAverages | backtest/strategy.py:4-22 | The frame's columns become `WithMovingAverages` of the old columns. |
| Strategy.WithMovingAverages | backtest/strategy.py:13-21 | All four sma columns are present afterwards. An existing column keeps its values, a missing one is the rolling mean of the close over its window, and no other column appears. |
| Strategy.AddMovingAveragesIdempotent | backtest/strategy.py:14-21 | Adding the moving averages twice gives the same columns as adding them once. |
| Strategy.IsOnUpTrend | backtest/strategy.py:25-34 | Up exactly when all three averages are defined and `sma200 < sma150 < sma50 < low`. |
| Strategy.EvaluateTrend | backtest/strategy.py:62-73 | While flat, never EXIT, and ENTER exactly when the close is more than 1% over a defined 200-day mean. While holding, never ENTER, and HOLD when the entry price is 0. With an entry price, EXIT exactly when the close is under the mean, or more than 15% under a nonzero highest price. |
| Ledger.Position.Value | backtest/portfolio.py:25-26 | An unknown price values a holding at 0. |
| Ledger.Position.Reset | backtest/portfolio.py:28-32 | A reset position holds nothing, satisfies the position invariant, keeps its last price and is worth 0 at any price. |
| Ledger.Consistent | backtest/portfolio.py:17-32 | The position invariant (no negative shares, every field reset when flat, a positive cost and highest price and a stop 15% under the highest while held) puts a held position's stop strictly between 0 and the highest price. |
| Ledger.SumValuesOfFlatBook | backtest/portfolio.py:76-77 | Tickers holding no shares add nothing to the summed holdings, so a flat book's equity is its cash. |
| Ledger.SumValuesNonNegative | backtest/portfolio.py:76-77 | Positions satisfying the invariant at positive prices sum to a worth of at least 0, so equity is at least the cash. |
| Ledger.SumValuesAfterUpdate | backtest/portfolio.py:76-77 | Replacing one ticker's position changes the summed holdings by that holding's change in worth, once per listing of the ticker. |
| Ledger.SumValuesOfListed | backtest/portfolio.py:76-77 | The summed holdings depend only on the share counts of the listed tickers. |
| Ledger.Marked | backtest/portfolio.py:244-246 | Marking keeps shares, cost and last price. The highest price never falls, a held position's highest reaches at least the price, and only a held position's highest changes, to the price. The position invariant is kept. |
| Ledger.LossCutoffHit | backtest/portfolio.py:248-249 | The cutoff only fires on a held position. With positive equity, it fires exactly when the held position's loss `avg_cost * shares - shares * price` reaches 1% of equity. |
| Ledger.TrailingStopHit | backtest/portfolio.py:254 | The stop only fires on a held position at or under its stop. For a position satisfying the invariant, it fires exactly when the position is held and the price is at or below 85% of the highest price. |
| Ledger.Increasing | backtest/portfolio.py:259 | An unchanged price is not an increase. |
| Ledger.Decreasing | backtest/portfolio.py:260 | A decreasing day is never an increasing one. |
| Ledger.DirectionsExclusive | backtest/portfolio.py:259-260 | A day is never both increasing and decreasing, and an unchanged price is neither. |
| Ledger.BuySize | backtest/portfolio.py:269-273 | The buy is at most a tranche, and it keeps the holding within the 20% allocation. It is one of the two bounds. |
| Ledger.ForTicker | backtest/portfolio.py:136 | A ticker's trade list holds exactly the log's trades of that ticker. |
| Ledger.CountsMatchTrades | backtest/portfolio.py:105-106 | Each trade of a ticker is counted under exactly one action. |
| Ledger.CountsOf | backtest/portfolio.py:105-106 | The three counters of a ticker together never exceed the number of trades. |
| Ledger.Recent | backtest/portfolio.py:131-134 | The recent view holds `min(limit, all)` trades. |
| Ledger.RecentAppend | backtest/portfolio.py:131-134 | Dropping the oldest entry of a full view and appending keeps the view equal to the last `limit` trades. |
| Ledger.LogTrade | backtest/portfolio.py:93-136 | The keys of the counts and the per-ticker logs stay. The trade's ticker gets its action counted and every other ticker's counts stay. With logging off, nothing else changes. With logging on, the trade is appended to the full log and is the newest entry of the recent view, which stays within its capacity. |
| Ledger.Replay | backtest/portfolio.py:93-136 | The recent view never exceeds its capacity. |
| Ledger.ReplayKeys | backtest/portfolio.py:81-85 | The counts and the per-ticker logs have exactly the run's tickers as keys. |
| Ledger.CountsStep | backtest/portfolio.py:105-106 | Counting a trade keeps every ticker's counts equal to its trades. |
| Ledger.PerTickerStep | backtest/portfolio.py:136 | Appending to a ticker's log keeps each list equal to that ticker's trades. |
| Ledger.LogTradeStep | backtest/portfolio.py:93-136 | One `log_trade` call keeps the journal invariant. The recent view is the last `cap` entries of the full log, and the skipped count is the rest. The full log is every trade while logging is on, and empty otherwise. Per-ticker logs and counts match the trades. |
| Ledger.ReplayInvariant | backtest/portfolio.py:93-136 | After any trades, the log satisfies the journal invariant. |
| Ledger.TradeJournal.constructor | backtest/portfolio.py:79-85 | The log starts empty, with zero counts per ticker. |
| Ledger.TradeJournal.Record | backtest/portfolio.py:93-136 | `log_trade` appends the trade to the events, and the new log is `LogTrade` of the old one. The journal stays the replay of every trade, and the recent view never exceeds its capacity. |
| Ledger.TradeJournal.Append | backtest/portfolio.py:107-136 | With logging on, a full recent view drops its oldest entry and counts it as skipped. The trade is then appended to the recent view, the full log and its ticker's list. The counts and the events are untouched. |
| Orders.EquityAfterUpdate | backtest/portfolio.py:76-77 | For a ticker listed once, changing its position and the cash moves equity by the cash moved plus the holding's change in worth. |
| Orders.EquityAtPrice | backtest/portfolio.py:76-77 | For a ticker listed once, books that differ only in that ticker have equities that differ by the cash moved plus the change in shares times the ticker's book price. |
| Orders.PurchaseWorth | backtest/portfolio.py:192-195 | Shares bought for an amount at a positive price are worth that amount. |
| Orders.SaleWorth | backtest/portfolio.py:168-173 | Shares sold for an amount at a positive price were worth that amount. |
| Orders.AfterSellAll | backtest/portfolio.py:138-159 | Only the ticker changes, and the invariant and last price are kept. A flat position is untouched. A held one goes to 0 shares, credits `shares * price` to cash and logs one EXIT. |
| Orders.SellAllConservesEquity | backtest/portfolio.py:138-159 | For a ticker listed once, selling everything at its book price leaves equity unchanged. |
| Orders.AfterSellTranche | backtest/portfolio.py:161-186 | Only the ticker changes, and the invariant and last price are kept. Cash never decreases, and at most one SELL is logged. |
| Orders.TrancheSaleEffect | backtest/portfolio.py:161-186 | A sale happens exactly when shares are held and the tranche is positive. It credits `min(tranche, worth)`, which is positive and never more than the holding is worth. The position is reset exactly when at most 1e-9 shares would remain. Otherwise the shares drop by the value over the price and the average cost is kept. No sale leaves the books unchanged. |
| Orders.TrancheSaleEquity | backtest/portfolio.py:161-186 | For a ticker listed once, equity never rises, falls by at most 1e-9 shares at the price (the discarded dust), and is unchanged while shares remain. |
| Orders.TrancheSaleWorth | backtest/portfolio.py:161-186 | A tranche sale loses nothing of the holding's worth beyond the cash it brings in while shares remain. On a reset, the loss is the dust, worth between 0 and 1e-9 shares at the price. |
| Orders.TrancheLoss | backtest/portfolio.py:167-182 | Selling an amount of a holding at a price leaves the holding minus the amount over the price. If that remainder is kept, nothing is lost. If it is reset as dust, the loss is between 0 and 1e-9 shares at the price. |
| Orders.AfterBuyTranche | backtest/portfolio.py:188-211 | Only the ticker changes, and the invariant and last price are kept. Cash ends non-negative or unchanged, and at most one BUY is logged. |
| Orders.BuyKeepsConsistent | backtest/portfolio.py:196-202 | A positive purchase keeps the position invariant. |
| Orders.BuyTrancheEffect | backtest/portfolio.py:188-211 | A purchase happens exactly when the tranche and the cash are positive. It spends `min(tranche, cash)` and adds that over the price in shares. The cost basis grows by the amount spent, and the highest price becomes the larger of the old highest and the price. |
| Orders.BuyConservesEquity | backtest/portfolio.py:188-211 | For a ticker listed once, buying at its book price leaves equity unchanged. |
| Orders.AfterTickerDay | backtest/portfolio.py:241-276 | One ticker's day changes only that ticker, keeps the invariant, records the price as the last price and never drives cash below `min(cash, 0)`. |
| Orders.AfterDownDay | backtest/portfolio.py:262-265 | The sell step changes only the ticker, keeps the invariant and never lowers cash. |
| Orders.AfterUpDay | backtest/portfolio.py:267-276 | The buy step changes only the ticker, keeps the invariant and leaves cash unchanged or non-negative. |
| Orders.MarkedToday | backtest/portfolio.py:241-246 | The position records the price as its last price and keeps its shares and cost. Its highest price never falls, and the invariant is kept. |
| Orders.MarkedKeepsWorth | backtest/portfolio.py:241-246 | Marking a position leaves its worth at any price unchanged. |
| Orders.ExitToday | backtest/portfolio.py:248-257 | The loss cutoff or the trailing stop can only close a held position. |
| Orders.MarkKeepsEquity | backtest/portfolio.py:241-246 | Marking a position leaves equity unchanged. |
| Orders.TickerDayExit | backtest/portfolio.py:248-257 | When the loss cutoff or the trailing stop fires, the whole holding is sold at the price and exactly one EXIT is logged. |
| Orders.TickerDayTrades | backtest/portfolio.py:259-276 | Without an exit, at most one trade. A SELL only on a strictly lower price with shares held, a BUY only on a first or higher price in an uptrend, never an EXIT, and nothing on an unchanged price. |
| Orders.NoExitDay | backtest/portfolio.py:241-276 | Without an exit, a ticker's day is the sell step followed by the buy step, from the marked position. |
| Orders.TickerDaySells | backtest/portfolio.py:259-265 | Without an exit, a strictly lower price on a held position with a positive tranche gives exactly one trade, a SELL, crediting `min(tranche, worth)` of the holding at the price. |
| Orders.DownDayIsTheDay | backtest/portfolio.py:259-276 | Without an exit, a down day logs the trades and moves the cash of the sell step alone. |
| Orders.DownDaySells | backtest/portfolio.py:262-265 | The sell step of a held position with a positive tranche logs exactly one SELL and credits `min(tranche, worth)`. |
| Orders.TickerDayBuys | backtest/portfolio.py:259-276 | Without an exit, a first or strictly higher price in an uptrend, with a positive capped tranche and positive cash, gives exactly one trade, a BUY, spending `min(capped tranche, cash)`. |
| Orders.UpDayIsTheDay | backtest/portfolio.py:259-276 | Without an exit, an up day in an uptrend is the buy step alone, from the marked position. |
| Orders.UpDayBuys | backtest/portfolio.py:267-276 | The buy step with a positive capped tranche and positive cash appends exactly one BUY and spends `min(capped tranche, cash)`. |
| Orders.TickerDayAtMostOneTrade | backtest/portfolio.py:248-276 | A ticker trades at most once a day. |
| Orders.TickerDaySnapshot | backtest/portfolio.py:251-276 | If `total_equity` is the equity of the books before a ticker's day, it is the equity of the books after it. |
| Orders.TickerDayEquity | backtest/portfolio.py:241-276 | For a ticker listed once, a whole day of decisions conserves equity, except for tranche dust of at most 1e-9 shares at the price. |
| Orders.TickerDayAllocationCap | backtest/portfolio.py:267-276 | A day that buys leaves the holding worth at most 20% of the equity. |
| Orders.TickerDayHighestNeverFalls | backtest/portfolio.py:244-246 | While a position stays open through a day, its highest price never falls. |
| Calendar.UptrendFlags | backtest/portfolio.py:38-44 | Flags are false throughout the warm-up and equal the uptrend test after it. |
| Calendar.InsertSorted | backtest/portfolio.py:52 | Inserting a new date keeps the list strictly increasing, with exactly one more element and the same dates plus the new one. |
| Calendar.UnionDates | backtest/portfolio.py:48-52 | The calendar is strictly increasing and holds exactly the dates on which some ticker has a row. |
| Calendar.FirstIndex | backtest/portfolio.py:68-70 | The first listing of a ticker: it holds the ticker, and no earlier entry does. |
| Calendar.Dedup | backtest/portfolio.py:68-70 | The dict's tickers are the listed tickers, each once. |
| Calendar.DedupKeepsFirstListing | backtest/portfolio.py:68-70 | The dict's keys come in the order of their first listing. |
| Calendar.LastKnownIsLastRowSeen | backtest/portfolio.py:215-224 | The price last seen is the close of the last calendar date with a row for the ticker, and the starting price while no date has one. |
| Calendar.LastKnownIsLatestRow | backtest/portfolio.py:215-224 | Over a calendar covering a ticker's rows, the last price seen is the close of its latest row, and a ticker without rows keeps its starting price. |
| Calendar.Refreshed | backtest/portfolio.py:216-224 | A ticker with a row on the date takes its close, and every other entry keeps its price. Keys and positivity are kept. |
| Calendar.RefreshExtendsLastKnown | backtest/portfolio.py:215-224 | Refreshing the book of a replayed calendar with the next date gives the book of the longer calendar. |
| Portfolio.AfterTickers | backtest/portfolio.py:228-276 | The ticker loop keeps the tickers, the position invariant and the cash floor. |
| Portfolio.AfterVisit | backtest/portfolio.py:228-276 | A ticker with a row and a price gets that day's decisions (`AfterTickerDay`), whose trades follow the day's earlier ones. A ticker without either is skipped, and nothing changes. Visiting keeps the tickers, the invariant and the cash floor. |
| Portfolio.OpeningPositions | backtest/portfolio.py:73 | Every ticker starts with an empty position, which satisfies the invariant. |
| Portfolio.UnknownPrices | backtest/portfolio.py:213 | Every ticker's price starts unknown. |
| Portfolio.AfterDate | backtest/portfolio.py:215-276 | One date keeps the tickers, the price-book keys, the invariant and the cash floor. |
| Portfolio.AfterDates | backtest/portfolio.py:215-276 | The whole day loop keeps the tickers, the price-book keys, the invariant and the cash floor. |
| Portfolio.NoRowNoDecision | backtest/portfolio.py:230-231 | A ticker without a row on the date keeps its position through that date's decisions. |
| Portfolio.SnapshotIsEquity | backtest/portfolio.py:226-276 | The running `total_equity` is always the equity of the current books at the day's prices. |
| Portfolio.PricesAreLastKnown | backtest/portfolio.py:215-224 | After the day loop, every ticker's price is the one it was last seen at. |
| Portfolio.FinalPricesAreLatestCloses | backtest/portfolio.py:215-224 | Over the union calendar, each ticker ends at the close of its latest row. |
| Portfolio.Engine.constructor | backtest/portfolio.py:67-85 | The engine starts with empty positions, the starting cash, unknown prices, an empty log and the dict order of the tickers. |
| Portfolio.Engine.SellAll | backtest/portfolio.py:138-159 | The books become those of `AfterSellAll`, and its trade is logged. The engine invariant is kept. |
| Portfolio.Engine.SellTranche | backtest/portfolio.py:161-186 | The books become those of `AfterSellTranche`, and its trade is logged. The engine invariant is kept. |
| Portfolio.Engine.BuyTranche | backtest/portfolio.py:188-211 | The books become those of `AfterBuyTranche`, and its trade is logged. The engine invariant is kept. |
| Portfolio.Engine.DecideTicker | backtest/portfolio.py:241-276 | The books, the log and the returned `total_equity` are those of `AfterTickerDay`. |
| Portfolio.Engine.SellStep | backtest/portfolio.py:262-265 | The books, the log and the running equity become those of `AfterDownDay`. |
| Portfolio.Engine.BuyStep | backtest/portfolio.py:267-276 | The books, the log and the running equity become those of `AfterUpDay`. |
| Portfolio.Engine.RefreshPrices | backtest/portfolio.py:216-224 | The price book becomes `Refreshed` of the old one. |
| Portfolio.Engine.RunDay | backtest/portfolio.py:215-276 | Books, prices and log become those of `AfterDate`. |
| Portfolio.Engine.VisitAll | backtest/portfolio.py:228-276 | Books and log become those of `AfterTickers` from the day's equity. |
| Portfolio.Engine.Visit | backtest/portfolio.py:228-239 | Books, log and running equity become those of `AfterVisit`. |
| Portfolio.Engine.Run | backtest/portfolio.py:215-278 | The calendar is the sorted union of dates. Books, prices and log become those of `AfterDates`, and the final equity is the equity at the last prices. |
| Trader.RowAt | backtest/Trader.py:50-52 | A row's means are defined exactly once their windows are full. |
| Trader.Rows | backtest/Trader.py:50-52 | One row per bar. |
| Trader.DecisionPrice | backtest/Trader.py:25-27 | The decision price lies between open and close. It is the 50-day mean when the mean lies between them, ends included, and otherwise the midpoint. |
| Trader.TradingPrice | backtest/Trader.py:54-56 | The trading price lies between open and close. It is the 50-day mean exactly when the mean lies strictly between them, and otherwise the midpoint. |
| Trader.PricesDisagreeOnTheBoundary | backtest/Trader.py:25-56 | A mean exactly on the open of a moving bar makes the decision price and the trading price differ. |
| Trader.PricesAgreeOffTheBoundary | backtest/Trader.py:25-56 | Off the open and the close, the two prices agree. |
| Trader.ProfitRatio | backtest/Trader.py:57-60 | 0 without an entry price, otherwise the percent return of the trading price. |
| Trader.EvaluateTrend | backtest/Trader.py:29-40 | EXIT exactly when holding and the decision price is under 98% of a nonzero entry, under 80% of the highest, or under the 50-day mean. UP exactly when not EXIT and the price and the three means are stacked in decreasing order. |
| Trader.AfterMovement | backtest/Trader.py:43-85 | The current price becomes the trading price. The highest price only rises while holding, and only to the trading price. While holding on, it reaches at least the trading price. The records only grow, by at most one return. An entry sets the entry price and keeps the balance and records. An exit multiplies the balance by the price ratio, appends the return and resets the entry and highest prices. Otherwise the balance and records are unchanged. The position flips exactly on UP while flat or EXIT while holding. |
| Trader.MovementKeepsCoherent | backtest/Trader.py:43-85 | With positive prices, one `movement` keeps the globals coherent: balance = 100 × compounded returns, and a held position has a positive entry. |
| Trader.ExitCompounds | backtest/Trader.py:77-81 | Closing a trade turns 100 × growth into 100 × growth with the trade's return appended. |
| Trader.ReplayKeepsCoherent | backtest/Trader.py:92-93 | Any number of `movement` steps keep the globals coherent. |
| Trader.RaisedHighest | backtest/Trader.py:61-63 | The highest price never falls. While holding, it reaches at least the trading price. It only changes while holding, to the trading price. |
| Trader.Replay | backtest/Trader.py:92-93 | Replaying `count` bars only appends to the records, at most one return per bar. |
| Trader.MarkToMarket | backtest/Trader.py:96-98 | A held position multiplies the balance by the ratio and records ratio × 100. The position, entry, current and highest prices stay. A flat one is unchanged. |
| Trader.MarkedBalance | backtest/Trader.py:96-98 | The final balance is 100 × compounded closed returns × the open trade's ratio. |
| Trader.Script.constructor | backtest/Trader.py:6-11 | The globals start flat with a balance of 100. |
| Trader.Script.Movement | backtest/Trader.py:43-85 | The new globals are `AfterMovement` of the old ones, and coherence is kept. |
| Trader.Script.MoveAll | backtest/Trader.py:92-93 | The globals become the replay of `movement` over bars 200 onward. |
| Trader.Script.Backtest | backtest/Trader.py:90-98 | The replay is coherent, and the final globals are its mark to market. |
| Trader.Script.MarkOpenPosition | backtest/Trader.py:96-98 | The globals become `MarkToMarket` of the old ones. |
| Regime.RowOf | backtest/main.py:7-10 | `iloc` with a negative index counts from the end. |
| Regime.IsOnUpTrend | backtest/main.py:6-15 | Up exactly when the three means at the selected row are defined and `sma200 < sma150 < sma50 < low`. That needs at least 200 bars up to the row. |
| Regime.ActionRouter | backtest/main.py:17-30 | ENTER exactly when the previous bar is not in an uptrend and this one is. EXIT exactly when this one is not. Nothing exactly while the uptrend continues. |
| Regime.FirstBarLooksAtLastBar | backtest/main.py:27 | On bar 0, the previous bar is the last bar of the history. |
| Regime.WarmupBarsExit | backtest/main.py:27-30 | Every bar before the 200-bar mean exists is an EXIT. |
| Regime.Visit | backtest/main.py:50-62 | A flat book changes exactly on ENTER, taking the bar's open and high and keeping its balance and records. A held one changes only on EXIT: it records the return of the close and multiplies the balance by the close over the entry. At most one record is added. |
| Regime.Replay | backtest/main.py:39-62 | After `count` passes, at most `count` returns are recorded. |
| Regime.VisitCompounds | backtest/main.py:54-60 | Each pass keeps balance = 100 × compounded returns. |
| Regime.ReplayCompounds | backtest/main.py:39-62 | After any number of passes, balance = 100 × compounded returns. |
| Regime.WarmupLeavesBookUntouched | backtest/main.py:39-62 | The first 199 passes leave the book as it started. |
| Regime.Pass | backtest/main.py:49-62 | One loop pass yields `Visit` of the book under the router's action. |
| Regime.Backtest | backtest/main.py:33-67 | The returned balance and returns are the replay's, and balance = 100 × compounded returns. |

## Left out

- **Positions as values.** Positions are modelled as values in a map that the engine reassigns. The Python code mutates the `Position` objects in place, and the engine's orders set the position to the result of the matching `Orders` function. This does not capture aliasing of positions. `RefreshPrices` builds the new price book in a local map before assigning it.
- **Output.**
  - Printing, string formatting, the Korean labels and the log and report files are not modelled: the rendered trade entries, `out`, the per-ticker files and the summary after line 278.
  - Trade entries are modelled as `TradeEvent` records, not strings.
  - The `reason` strings are dropped.
- **Pandas and data loading.**
  - Pandas mechanics are not modelled. Duplicate dates in an index are not modelled: each history is a map from date to row.
  - Data loading (`backtest/data.py`, yfinance), the runners and `trade.py` are not part of this model. Histories and bars are parameters.
- **Arithmetic.** Floating point is modelled as exact reals, and NaN as `None`.
- **Positive prices.** All prices are assumed positive. The engine requires `PositivePrices`, and `Trader.Script.constructor` requires positive opens and closes. The source divides by the price without a guard.
- **Uptrend flags.** The engine reads each history's `uptrend` field as given. `Calendar.UptrendFlags` computes that column from the closes, but the model does not require the histories to hold its output.
- **Duplicate tickers.** Tickers listed twice are counted once per listing in the equity, as the source's `sum` does. The equity-conservation lemmas require each ticker to be listed once.
- Ledger.TradeJournal.Record: requires a ticker of the run. The source raises `KeyError` for any other ticker.
- **The portfolio's final report is left out.** `Portfolio.Engine.Run` returns the final equity, but the per-ticker allocation lines of the final report are not modelled.
- **`Trader.py` extras left out.** `natureProfit` and the WIN/LOSE verdict are output only. `profitRatio` on entry is only printed, and `recentIndex` is never used.
- **`Trader.py` final mark.** The final mark records `ratio × 100` rather than a percent return, as written. The model keeps that, so `Trader.MarkedBalance` states the balance without reading the last record as a return.
- **`main.py` quirks kept as written.**
  - `highestPrice` is set but never read.
  - The loop visits the first `n - 200` bars rather than the last ones, and the model keeps that.
  - The loop body is factored into `Regime.Pass`.
- **Precomputed rolling means in `Trader.py`.** The rolling means are computed once into rows. The source recomputes them per call, which gives the same values.
