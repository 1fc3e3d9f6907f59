/** `processTrades`: turn the TRADE records of the card-trades document into
    (price, time) pairs, dropping gift trades, whose PRICE text is empty.

    The document itself is not modelled: a record is the text of its PRICE
    element and the number its TIMESTAMP element denotes. The conversion of
    the trimmed price text to a number (`parseFloat`) is a parameter. */
module Trades {

  import opened Wrappers
  import opened Text
  import opened Slices

  /** One TRADE element: the PRICE text and the TIMESTAMP in seconds. */
  datatype RawTrade = RawTrade(priceText: string, seconds: int)

  /** A priced trade: `{ price, timestamp }`, the timestamp in milliseconds
      as `new Date(seconds * 1000)` holds it. */
  datatype Trade = Trade(price: real, millis: int)

  /** A gift: its trimmed price text is empty, so `price` becomes null. */
  predicate IsGift(t: RawTrade) {
    Trim(t.priceText) == []
  }

  /** The object the `map` step builds: `price` is null (None) for a gift. */
  datatype Record = Record(price: Option<real>, millis: int)

  function ToRecord(t: RawTrade, parse: string -> real): (r: Record)
    ensures r.price.None? <==> IsGift(t)
    ensures r.price.Some? ==> r.price.value == parse(Trim(t.priceText))
    ensures r.millis == t.seconds * 1000
  {
    var text := Trim(t.priceText);
    Record(if text != [] then Some(parse(text)) else None, t.seconds * 1000)
  }

  function ToRecords(raw: seq<RawTrade>, parse: string -> real): (r: seq<Record>)
    ensures |r| == |raw|
    ensures forall i :: 0 <= i < |raw| ==> r[i] == ToRecord(raw[i], parse)
  {
    seq(|raw|, i requires 0 <= i < |raw| => ToRecord(raw[i], parse))
  }

  /** The `filter` step, over the records from position `from` on. */
  function KeepPriced(recs: seq<Record>, from: nat): (r: seq<Trade>)
    requires from <= |recs|
    ensures |r| <= |recs| - from
    decreases |recs| - from
  {
    if from == |recs| then []
    else
      var rest := KeepPriced(recs, from + 1);
      match recs[from].price
      case None => rest
      case Some(p) => [Trade(p, recs[from].millis)] + rest
  }

  /** `processTrades`: map every TRADE to a record, then drop the null prices. */
  function ProcessTrades(raw: seq<RawTrade>, parse: string -> real): (r: seq<Trade>)
    ensures |r| <= |raw|
  {
    KeepPriced(ToRecords(raw, parse), 0)
  }

  /** The positions, from `from` on, of the records that have a price. */
  function PricedFrom(recs: seq<Record>, from: nat): seq<nat>
    requires from <= |recs|
    decreases |recs| - from
  {
    if from == |recs| then []
    else (if recs[from].price.Some? then [from] else []) + PricedFrom(recs, from + 1)
  }

  /** The positions of the records that are not gifts, in order. */
  function PricedPositions(raw: seq<RawTrade>, parse: string -> real): seq<nat> {
    PricedFrom(ToRecords(raw, parse), 0)
  }

  lemma {:induction false} KeepPricedAt(recs: seq<Record>, from: nat)
    requires from <= |recs|
    ensures |PricedFrom(recs, from)| == |KeepPriced(recs, from)|
    ensures forall j :: 0 <= j < |PricedFrom(recs, from)| ==>
      from <= PricedFrom(recs, from)[j] < |recs| && recs[PricedFrom(recs, from)[j]].price.Some?
      && KeepPriced(recs, from)[j]
         == Trade(recs[PricedFrom(recs, from)[j]].price.value, recs[PricedFrom(recs, from)[j]].millis)
    decreases |recs| - from
  {
    if from < |recs| {
      KeepPricedAt(recs, from + 1);
      var idx, out := PricedFrom(recs, from + 1), KeepPriced(recs, from + 1);
      if recs[from].price.Some? {
        var t := Trade(recs[from].price.value, recs[from].millis);
        assert PricedFrom(recs, from) == [from] + idx;
        assert KeepPriced(recs, from) == [t] + out;
        forall j | 1 <= j < |idx| + 1
          ensures PricedFrom(recs, from)[j] == idx[j - 1]
          ensures KeepPriced(recs, from)[j] == out[j - 1]
        {
        }
      } else {
        assert PricedFrom(recs, from) == idx;
        assert KeepPriced(recs, from) == out;
      }
    }
  }

  lemma {:induction false} PricedFromIncreasing(recs: seq<Record>, from: nat)
    requires from <= |recs|
    ensures forall j :: 0 <= j < |PricedFrom(recs, from)| ==>
      from <= PricedFrom(recs, from)[j] < |recs|
    ensures forall j1, j2 :: 0 <= j1 < j2 < |PricedFrom(recs, from)| ==>
      PricedFrom(recs, from)[j1] < PricedFrom(recs, from)[j2]
    decreases |recs| - from
  {
    if from < |recs| {
      PricedFromIncreasing(recs, from + 1);
      var rest := PricedFrom(recs, from + 1);
      var head: seq<nat> := if recs[from].price.Some? then [from] else [];
      assert PricedFrom(recs, from) == head + rest;
    }
  }

  lemma {:induction false} PricedFromComplete(recs: seq<Record>, from: nat)
    requires from <= |recs|
    ensures forall i :: from <= i < |recs| && recs[i].price.Some? ==> i in PricedFrom(recs, from)
    decreases |recs| - from
  {
    if from < |recs| {
      PricedFromComplete(recs, from + 1);
    }
  }

  /** `out` consists of the conversions of the records at the strictly
      increasing positions `idx`, which are exactly the non-gift records. */
  ghost predicate IsSelection(raw: seq<RawTrade>, parse: string -> real,
                              out: seq<Trade>, idx: seq<nat>)
  {
    && |idx| == |out|
    && (forall j :: 0 <= j < |idx| ==>
          idx[j] < |raw| && !IsGift(raw[idx[j]]) && out[j] == Convert(raw[idx[j]], parse))
    && (forall j1, j2 :: 0 <= j1 < j2 < |idx| ==> idx[j1] < idx[j2])
    && (forall i :: 0 <= i < |raw| && !IsGift(raw[i]) ==> i in idx)
  }

  /** A priced trade as `processTrades` builds it from a non-gift record. */
  function Convert(t: RawTrade, parse: string -> real): Trade {
    Trade(parse(Trim(t.priceText)), t.seconds * 1000)
  }

  /** `processTrades` keeps exactly the records whose trimmed price text is
      non-empty, converted, in their original order. */
  lemma ProcessTradesSelects(raw: seq<RawTrade>, parse: string -> real)
    ensures IsSelection(raw, parse, ProcessTrades(raw, parse), PricedPositions(raw, parse))
  {
    var recs := ToRecords(raw, parse);
    KeepPricedAt(recs, 0);
    PricedFromIncreasing(recs, 0);
    PricedFromComplete(recs, 0);
  }

  /** Nothing is dropped exactly when there is no gift. */
  lemma {:induction false} KeepPricedAll(recs: seq<Record>, from: nat)
    requires from <= |recs|
    ensures |KeepPriced(recs, from)| == |recs| - from
            <==> forall i :: from <= i < |recs| ==> recs[i].price.Some?
    decreases |recs| - from
  {
    if from < |recs| {
      KeepPricedAll(recs, from + 1);
    }
  }

  lemma ProcessTradesKeepsAll(raw: seq<RawTrade>, parse: string -> real)
    ensures |ProcessTrades(raw, parse)| == |raw| <==> forall i :: 0 <= i < |raw| ==> !IsGift(raw[i])
  {
    KeepPricedAll(ToRecords(raw, parse), 0);
  }

  /** The price column of a trade list (`trades.map(t => t.price)`). */
  function Prices(trades: seq<Trade>): seq<real> {
    seq(|trades|, i requires 0 <= i < |trades| => trades[i].price)
  }

  /** The x-axis labels of a trade list: `toLocaleDateString()` of each
      timestamp, with the formatting given as `dateLabel`. */
  function Labels(trades: seq<Trade>, dateLabel: int -> string): seq<string> {
    seq(|trades|, i requires 0 <= i < |trades| => dateLabel(trades[i].millis))
  }

  /** The trades a chart shows: `processTrades(data).slice(0, tradeLimit)`,
      always from the front of the processed trades; at most `tradeLimit`
      of them for a limit >= 0, while a negative limit drops that many from
      the end (all of them when there are fewer). */
  function ChartTrades(raw: seq<RawTrade>, parse: string -> real, tradeLimit: int): (shown: seq<Trade>)
    ensures var all := ProcessTrades(raw, parse);
      && |shown| <= |all| && shown == all[..|shown|]
      && (tradeLimit >= 0 ==> |shown| == Min(tradeLimit, |all|))
      && (tradeLimit < 0 ==> |shown| == Max(0, |all| + tradeLimit))
  {
    SliceTo(ProcessTrades(raw, parse), tradeLimit)
  }
}
