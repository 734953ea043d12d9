/** Shared vocabulary of the backtests: daily bars, optional values (a pandas
    NaN is `None`) and the simple moving average pandas computes with
    `rolling(window).mean()`. */
module Market {

  datatype Option<+T> = None | Some(value: T)

  /** One daily price bar. */
  datatype Bar = Bar(open: real, high: real, low: real, close: real)

  /** Python's `<` when either side may be NaN: a comparison with NaN is false. */
  predicate Less(a: Option<real>, b: Option<real>)
  {
    a.Some? && b.Some? && a.value < b.value
  }

  /** Python's `<=` when either side may be NaN. */
  predicate AtMost(a: Option<real>, b: Option<real>)
  {
    a.Some? && b.Some? && a.value <= b.value
  }

  function Sum(xs: seq<real>): real
  {
    if xs == [] then 0.0 else Sum(xs[..|xs| - 1]) + xs[|xs| - 1]
  }

  /** The close column of a bar sequence. */
  function Closes(bars: seq<Bar>): (cs: seq<real>)
    ensures |cs| == |bars|
    ensures forall i :: 0 <= i < |bars| ==> cs[i] == bars[i].close
  {
    seq(|bars|, i requires 0 <= i < |bars| => bars[i].close)
  }

  /** `xs.rolling(window).mean()` at position i: undefined (NaN) until a full
      window of values is available, then the mean of the last `window`
      values up to and including position i. */
  function RollingMean(xs: seq<real>, window: nat, i: nat): (m: Option<real>)
    requires 0 < window && i < |xs|
    ensures m.Some? <==> window <= i + 1
    ensures m.Some? ==> m.value * window as real == Sum(xs[i + 1 - window..i + 1])
  {
    if i + 1 < window then None
    else Some(Sum(xs[i + 1 - window..i + 1]) / window as real)
  }

  /** The whole rolling-mean column. */
  function RollingMeans(xs: seq<real>, window: nat): (col: seq<Option<real>>)
    requires 0 < window
    ensures |col| == |xs|
    ensures forall i :: 0 <= i < |xs| ==> col[i] == RollingMean(xs, window, i)
  {
    seq(|xs|, i requires 0 <= i < |xs| => RollingMean(xs, window, i))
  }

  /** A flat series has a flat moving average. */
  lemma {:induction false} SumOfConstant(xs: seq<real>, c: real)
    requires forall k :: 0 <= k < |xs| ==> xs[k] == c
    ensures Sum(xs) == |xs| as real * c
  {
    if xs != [] {
      SumOfConstant(xs[..|xs| - 1], c);
    }
  }

  lemma RollingMeanOfFlatWindow(xs: seq<real>, window: nat, i: nat, c: real)
    requires 0 < window && window <= i + 1 && i < |xs|
    requires forall k :: i + 1 - window <= k <= i ==> xs[k] == c
    ensures RollingMean(xs, window, i) == Some(c)
  {
    var w := xs[i + 1 - window..i + 1];
    SumOfConstant(w, c);
    assert RollingMean(xs, window, i).value * window as real == window as real * c;
  }
  /** A trade's return in percent, `price / entry * 100 - 100`: one plus a
      hundredth of it is the factor the trade multiplies the balance by. */
  function ReturnPercent(price: real, entry: real): (r: real)
    requires entry != 0.0
    ensures 1.0 + r / 100.0 == price / entry
    ensures entry > 0.0 ==> (r > 0.0 <==> price > entry)
  {
    price / entry * 100.0 - 100.0
  }

  /** The factor a run of trades, each recorded as a return in percent,
      multiplies the starting balance by. */
  function Growth(records: seq<real>): real
  {
    if records == [] then 1.0
    else Growth(records[..|records| - 1]) * (1.0 + records[|records| - 1] / 100.0)
  }

  /** Recording one more trade multiplies the growth by that trade's factor. */
  lemma GrowthAppend(records: seq<real>, price: real, entry: real)
    requires entry != 0.0
    ensures Growth(records + [ReturnPercent(price, entry)]) == Growth(records) * (price / entry)
  {
    assert (records + [ReturnPercent(price, entry)])[..|records|] == records;
  }

  /** `len(range(n - 200))`: how many bars both scripts step through once
      the 200-bar warm-up is set aside. */
  function Days(n: nat): (d: nat)
    ensures n < 200 ==> d == 0
    ensures 200 <= n ==> d + 200 == n
  {
    if n >= 200 then n - 200 else 0
  }
}
