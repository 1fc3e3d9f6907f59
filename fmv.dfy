/** The single-value fair market value of FMV.user.js and the data its
    `replaceChart` hands to the chart: the price series and a flat FMV line
    between the first and the last label. */
module Fmv {

  import opened Wrappers
  import opened Slices
  import opened Estimator
  import opened Trades

  /** `calculateFairMarketValue`: the window rule on the last 15 trades of
      the list; 0 for an empty list. */
  function FairMarketValue(trades: seq<Trade>, k: real): (fmv: real)
    ensures trades == [] ==> fmv == 0.0
    ensures trades != [] ==> var w := Prices(LastN(trades, WindowSize));
      |w| > 0 && MinOf(w) <= fmv <= MaxOf(w)
  {
    var validPrices := Prices(LastN(trades, WindowSize));
    if |validPrices| == 0 then 0.0 else WindowFmv(validPrices, k)
  }

  /** Only the last 15 trades matter: trades before them change nothing. */
  lemma OnlyLastWindowMatters(older: seq<Trade>, trades: seq<Trade>, k: real)
    requires |trades| >= WindowSize
    ensures FairMarketValue(older + trades, k) == FairMarketValue(trades, k)
  {
    var all := older + trades;
    assert LastN(all, WindowSize) == LastN(trades, WindowSize) by {
      assert all[|all| - WindowSize..] == trades[|trades| - WindowSize..];
    }
  }

  /** If every price is c, the value is c (0 included, through the fallback). */
  lemma FairMarketValueConstant(trades: seq<Trade>, k: real, c: real)
    requires |trades| > 0
    requires forall i :: 0 <= i < |trades| ==> trades[i].price == c
    ensures FairMarketValue(trades, k) == c
  {
    var tail := LastN(trades, WindowSize);
    forall i | 0 <= i < |tail| ensures tail[i].price == c {
      assert tail[i] == trades[|trades| - |tail| + i];
    }
    WindowFmvConstant(Prices(tail), k, c);
  }

  /** A threshold of at least sqrt(15) filters nothing: the value is the
      plain mean of the last 15 prices. */
  lemma FairMarketValueLargeThreshold(trades: seq<Trade>, k: real)
    requires |trades| > 0 && k >= 0.0 && Sq(k) >= WindowSize as real
    ensures FairMarketValue(trades, k) == Mean(Prices(LastN(trades, WindowSize)))
  {
    WindowFmvLargeThreshold(Prices(LastN(trades, WindowSize)), k);
  }

  /** A point of the FMV line; `x` is None where the label is `undefined`. */
  datatype Point = Point(x: Option<string>, y: real)

  datatype FmvChart = FmvChart(prices: seq<real>, labels: seq<string>, start: Point, end: Point)

  function FirstLabel(labels: seq<string>): Option<string> {
    if labels == [] then None else Some(labels[0])
  }

  function LastLabel(labels: seq<string>): Option<string> {
    if labels == [] then None else Some(labels[|labels| - 1])
  }

  /** The chart `replaceChart` draws for the trades `tradeData`: the
      prices and labels reversed, and the FMV line between the first and the
      last label. */
  function ChartOf(tradeData: seq<Trade>, dateLabel: int -> string, k: real): (chart: FmvChart)
    ensures |chart.prices| == |chart.labels| == |tradeData|
    ensures chart.start.y == chart.end.y
  {
    var prices := Reverse(Prices(tradeData));
    var labels := Reverse(Labels(tradeData, dateLabel));
    var fmv := FairMarketValue(tradeData, k);
    FmvChart(prices, labels, Point(FirstLabel(labels), fmv), Point(LastLabel(labels), fmv))
  }

  /** `replaceChart(data, tradeLimit, threshold)`: the chart of the shown
      trades, never more than there are TRADE elements, nor more than a
      non-negative `tradeLimit`. */
  function ReplaceChart(raw: seq<RawTrade>, parse: string -> real, dateLabel: int -> string,
                        tradeLimit: int, k: real): (chart: FmvChart)
    ensures |chart.prices| == |chart.labels| <= |raw|
    ensures tradeLimit >= 0 ==> |chart.prices| <= tradeLimit
  {
    ChartOf(ChartTrades(raw, parse, tradeLimit), dateLabel, k)
  }

  /** The chart plots the prices of its trades in reverse order, with one
      label each. */
  lemma {:induction false} ChartShape(tradeData: seq<Trade>, dateLabel: int -> string, k: real)
    ensures var chart := ChartOf(tradeData, dateLabel, k);
      && |chart.prices| == |chart.labels| == |tradeData|
      && (forall j :: 0 <= j < |tradeData| ==>
            chart.prices[j] == tradeData[|tradeData| - 1 - j].price
            && chart.labels[j] == dateLabel(tradeData[|tradeData| - 1 - j].millis))
  {
    var chart := ChartOf(tradeData, dateLabel, k);
    assert chart.prices == Reverse(Prices(tradeData));
    assert chart.labels == Reverse(Labels(tradeData, dateLabel));
    ReversedColumns(tradeData, dateLabel);
  }

  lemma ReversedColumns(tradeData: seq<Trade>, dateLabel: int -> string)
    ensures var n := |tradeData|;
      forall j :: 0 <= j < n ==>
        Reverse(Prices(tradeData))[j] == tradeData[n - 1 - j].price
        && Reverse(Labels(tradeData, dateLabel))[j] == dateLabel(tradeData[n - 1 - j].millis)
  {
  }

  /** The FMV line is flat at the FMV of exactly the chart's trades and
      runs from the first label to the last; with no trade both ends are
      `undefined`. */
  lemma ChartLine(tradeData: seq<Trade>, dateLabel: int -> string, k: real)
    ensures var chart := ChartOf(tradeData, dateLabel, k);
      && chart.start.y == chart.end.y == FairMarketValue(tradeData, k)
      && (chart.start.x.Some? <==> tradeData != []) && (chart.end.x.Some? <==> tradeData != [])
      && (tradeData != [] ==> chart.start.x == Some(chart.labels[0])
                              && chart.end.x == Some(chart.labels[|tradeData| - 1]))
  {
    var labels := Reverse(Labels(tradeData, dateLabel));
    assert ChartOf(tradeData, dateLabel, k).labels == labels && |labels| == |tradeData|;
  }

  /** The last m prices, listed oldest-last, are the first m of the
      reversed column read backwards. */
  lemma LastPricesReversed(trades: seq<Trade>, m: nat)
    requires m <= |trades|
    ensures Reverse(Reverse(Prices(trades))[..m]) == Prices(trades[|trades| - m..])
  {
    var n := |trades|;
    var p := Prices(trades);
    ReverseSlice(p, 0, m);
    assert Reverse(p)[..m] == Reverse(p)[0..m];
    ReverseInvolution(p[n - m..n]);
    assert p[n - m..n] == Prices(trades[n - m..]);
  }

  /** The FMV line is computed from the last 15 of the chart's trades,
      which the reversal puts at the left end of the chart: it is the window
      rule on the first (up to) 15 plotted prices, read right to left. */
  lemma ChartLineFromLeftEnd(tradeData: seq<Trade>, dateLabel: int -> string, k: real)
    requires tradeData != []
    ensures var chart := ChartOf(tradeData, dateLabel, k);
      var m := Min(WindowSize, |chart.prices|);
      chart.start.y == WindowFmv(Reverse(chart.prices[..m]), k)
  {
    assert ChartOf(tradeData, dateLabel, k).prices == Reverse(Prices(tradeData));
    var m := Min(WindowSize, |tradeData|);
    LastPricesReversed(tradeData, m);
    assert LastN(tradeData, WindowSize) == tradeData[|tradeData| - m..];
  }
}
