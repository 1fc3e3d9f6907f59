/** The rolling fair market value of Predict_this.user.js: one value per
    trade, each the window rule applied to that trade and the (up to) 14
    trades after it in list order, pushed in order and then reversed so that
    the series lines up with the reversed price series of the chart. */
module Rolling {

  import opened Slices
  import opened Estimator
  import opened Trades
  import Fmv

  /** The prices of `trades.slice(i, windowEnd)`, with
      `windowEnd = Math.min(trades.length, i + 15)`. */
  function Window(p: seq<real>, i: nat): (w: seq<real>)
    requires i < |p|
    ensures 1 <= |w| <= WindowSize && i + |w| <= |p|
    ensures w == p[i..i + |w|]
    ensures |w| == WindowSize || i + |w| == |p|
  {
    p[i..Min(|p|, i + WindowSize)]
  }

  /** The values in the order the loop pushes them. */
  function ForwardFmvs(p: seq<real>, k: real): (r: seq<real>)
    ensures |r| == |p|
    ensures forall i :: 0 <= i < |p| ==> MinOf(Window(p, i)) <= r[i] <= MaxOf(Window(p, i))
    ensures |p| > 0 ==> r[|p| - 1] == p[|p| - 1]
  {
    LastWindowSingle(p, k);
    seq(|p|, i requires 0 <= i < |p| => WindowFmv(Window(p, i), k))
  }

  /** The window of the last trade holds that trade alone. */
  lemma LastWindowSingle(p: seq<real>, k: real)
    ensures |p| > 0 ==> WindowFmv(Window(p, |p| - 1), k) == p[|p| - 1]
  {
    if |p| > 0 {
      assert Window(p, |p| - 1) == [p[|p| - 1]];
      WindowFmvSingle(p[|p| - 1], k);
    }
  }

  /** What `calculateRollingFMV` returns: the pushed values, reversed, so
      that position j holds the value of the window that starts at the
      trade n-1-j. */
  function RollingSpec(p: seq<real>, k: real): (r: seq<real>)
    ensures |r| == |p|
    ensures forall j :: 0 <= j < |p| ==> r[j] == WindowFmv(Window(p, |p| - 1 - j), k)
    ensures forall j :: 0 <= j < |p| ==>
      MinOf(Window(p, |p| - 1 - j)) <= r[j] <= MaxOf(Window(p, |p| - 1 - j))
  {
    Reverse(ForwardFmvs(p, k))
  }

  /** `reverse()`: swaps the two ends of the array pair by pair. */
  method ReverseInPlace<T>(a: array<T>)
    modifies a
    ensures a[..] == Reverse(old(a[..]))
  {
    ghost var s := a[..];
    var n := a.Length;
    var i := 0;
    while i < n / 2
      invariant 0 <= i <= n / 2
      invariant forall m :: 0 <= m < i ==> a[m] == s[n - 1 - m] && a[n - 1 - m] == s[m]
      invariant forall m :: i <= m < n - i ==> a[m] == s[m]
    {
      a[i], a[n - 1 - i] := a[n - 1 - i], a[i];
      i := i + 1;
    }
    assert forall m :: 0 <= m < n ==> a[m] == s[n - 1 - m] by {
      forall m | 0 <= m < n ensures a[m] == s[n - 1 - m] {
        if m >= n - i {
          assert a[n - 1 - (n - 1 - m)] == s[n - 1 - m];
        }
      }
    }
  }

  /** `calculateRollingFMV(trades, threshold)`: fills one slot per trade
      (the pushes), then reverses the array. */
  method RollingFmv(trades: seq<Trade>, k: real) returns (fmvs: seq<real>)
    ensures fmvs == RollingSpec(Prices(trades), k)
  {
    var p := Prices(trades);
    var n := |trades|;
    var rollingFmvs := new real[n];
    var i := 0;
    while i < n
      invariant 0 <= i <= n
      invariant forall m :: 0 <= m < i ==> rollingFmvs[m] == WindowFmv(Window(p, m), k)
    {
      var windowEnd := Min(n, i + WindowSize);
      var recentTrades := p[i..windowEnd];
      assert recentTrades == Window(p, i);
      rollingFmvs[i] := WindowFmv(recentTrades, k);
      i := i + 1;
    }
    FilledIsForward(rollingFmvs[..], p, k);
    ReverseInPlace(rollingFmvs);
    fmvs := rollingFmvs[..];
  }

  /** A list holding the value of window i at every position i is the
      list of pushed values. */
  lemma FilledIsForward(a: seq<real>, p: seq<real>, k: real)
    requires |a| == |p|
    requires forall m :: 0 <= m < |a| ==> a[m] == WindowFmv(Window(p, m), k)
    ensures a == ForwardFmvs(p, k)
  {
  }

  /** The first value is the price of the last trade in the list, which the
      reversal plots first: the loop's last window holds that trade alone. */
  lemma RollingFirstIsLastPrice(p: seq<real>, k: real)
    requires |p| > 0
    ensures RollingSpec(p, k)[0] == p[|p| - 1]
  {
    assert Window(p, |p| - 1) == [p[|p| - 1]];
    WindowFmvSingle(p[|p| - 1], k);
  }

  /** Bounds on the prices are bounds on every rolling value. */
  lemma RollingBounds(p: seq<real>, k: real, lo: real, hi: real)
    requires forall i :: 0 <= i < |p| ==> lo <= p[i] <= hi
    ensures forall j :: 0 <= j < |p| ==> lo <= RollingSpec(p, k)[j] <= hi
  {
    forall j | 0 <= j < |p| ensures lo <= RollingSpec(p, k)[j] <= hi {
      WindowFmvBounds(Window(p, |p| - 1 - j), k, lo, hi);
    }
  }

  /** A constant price series has that constant as every rolling value. */
  lemma RollingConstant(p: seq<real>, k: real, c: real)
    requires forall i :: 0 <= i < |p| ==> p[i] == c
    ensures forall j :: 0 <= j < |p| ==> RollingSpec(p, k)[j] == c
  {
    forall j | 0 <= j < |p| ensures RollingSpec(p, k)[j] == c {
      WindowFmvConstant(Window(p, |p| - 1 - j), k, c);
    }
  }

  /** On the chart, whose prices are the reversed column, the value at
      position j is computed from the plotted price at j and the (up to) 14
      plotted prices to its left. */
  lemma RollingAligned(p: seq<real>, j: nat)
    requires j < |p|
    ensures var w := Window(p, |p| - 1 - j);
      var shown := Reverse(p);
      && |w| == Min(WindowSize, j + 1)
      && w == Reverse(shown[j + 1 - |w|..j + 1])
      && w[0] == shown[j]
  {
    var n := |p|;
    var w := Window(p, n - 1 - j);
    ReverseSlice(p, j + 1 - |w|, j + 1);
    assert p[n - 1 - j..n - 1 - j + |w|] == w;
    ReverseInvolution(w);
  }

  /** The last plotted value comes from the first 15 trades of the list;
      when there are at most 15 trades it equals the single value of
      FMV.user.js with the same threshold. */
  lemma RollingLastWindow(trades: seq<Trade>, k: real)
    requires |trades| > 0
    ensures var p := Prices(trades);
      RollingSpec(p, k)[|p| - 1] == WindowFmv(p[..Min(|p|, WindowSize)], k)
    ensures |trades| <= WindowSize ==>
      RollingSpec(Prices(trades), k)[|trades| - 1] == Fmv.FairMarketValue(trades, k)
  {
    var p := Prices(trades);
    assert Window(p, 0) == p[..Min(|p|, WindowSize)];
    if |trades| <= WindowSize {
      assert LastN(trades, WindowSize) == trades;
      assert p[..Min(|p|, WindowSize)] == p;
    }
  }

  /** The data Predict_this.user.js's `replaceChart` plots. */
  datatype RollingChart = RollingChart(prices: seq<real>, labels: seq<string>, fmvs: seq<real>)

  /** `replaceChart(data, tradeLimit)`: the shown trades, their prices and
      labels reversed, and the rolling values with the default threshold. */
  method ReplaceChart(raw: seq<RawTrade>, parse: string -> real, dateLabel: int -> string,
                      tradeLimit: int) returns (chart: RollingChart)
    ensures var tradeData := ChartTrades(raw, parse, tradeLimit);
      && chart.prices == Reverse(Prices(tradeData))
      && chart.labels == Reverse(Labels(tradeData, dateLabel))
      && chart.fmvs == RollingSpec(Prices(tradeData), DefaultThreshold)
      && |chart.fmvs| == |chart.prices| == |chart.labels| == |tradeData|
  {
    var tradeData := ChartTrades(raw, parse, tradeLimit);
    var prices := Reverse(Prices(tradeData));
    var labels := Reverse(Labels(tradeData, dateLabel));
    var rollingFmvs := RollingFmv(tradeData, DefaultThreshold);
    chart := RollingChart(prices, labels, rollingFmvs);
  }
}
