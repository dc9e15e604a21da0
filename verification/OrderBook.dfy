/**
 Order-book snapshots and the analyzer that walks them: fill simulation, depth within a
 price band, and effective spread. Decimal amounts are exact reals.

 The functions `Taken`, `Cost` and `Fills` give the walk over one list of levels. Facts are
 proved for lists sorted ascending and carried to the (descending) bid side by `Mirror`,
 which negates every price.
 */
module OrderBook {
  import opened Options
  import opened RealArith
  import opened Sorting

  const BPS_SCALE: real := 10000.0

  datatype Level = Level(price: real, qty: real)

  datatype Snapshot = Snapshot(
    bids: seq<Level>,
    asks: seq<Level>,
    bestBid: Option<Level>,
    bestAsk: Option<Level>,
    midPrice: Option<real>,
    spreadBps: Option<real>)

  datatype FillLevel = FillLevel(price: real, qty: real, cost: real)

  datatype WalkResult = WalkResult(
    avgPrice: real,
    totalCost: real,
    slippageBps: real,
    levelsConsumed: nat,
    fullyFilled: bool,
    fills: seq<FillLevel>)

  datatype Error = OrderRejected(side: string) | DecimalParse

  datatype Side = Buy | Sell

  function Min(x: real, y: real): real {
    if x <= y then x else y
  }

  function Max(x: real, y: real): real {
    if x >= y then x else y
  }

  // ----- Levels ------------------------------------------------------------

  predicate NonNegative(levels: seq<Level>) {
    forall i :: 0 <= i < |levels| ==> levels[i].qty >= 0.0
  }

  predicate Positive(levels: seq<Level>) {
    forall i :: 0 <= i < |levels| ==> levels[i].price > 0.0
  }

  predicate Ascending(levels: seq<Level>) {
    forall i, j :: 0 <= i < j < |levels| ==> levels[i].price <= levels[j].price
  }

  predicate Descending(levels: seq<Level>) {
    forall i, j :: 0 <= i < j < |levels| ==> levels[i].price >= levels[j].price
  }

  /** The total quantity on offer. */
  function Depth(levels: seq<Level>): real {
    if levels == [] then 0.0 else levels[0].qty + Depth(levels[1..])
  }

  /** The same sizes at negated prices. */
  function Mirror(levels: seq<Level>): (r: seq<Level>)
    ensures |r| == |levels|
    ensures forall i :: 0 <= i < |r| ==> r[i] == Level(-levels[i].price, levels[i].qty)
  {
    seq(|levels|, i requires 0 <= i < |levels| => Level(-levels[i].price, levels[i].qty))
  }

  // ----- The walk over one list of levels -----------------------------------

  /** The quantity that a walk for `q` takes out of the levels. */
  function Taken(levels: seq<Level>, q: real): real {
    if levels == [] || q <= 0.0 then 0.0
    else
      var f := Min(q, levels[0].qty);
      f + Taken(levels[1..], q - f)
  }

  /** What a walk for `q` pays (or earns). */
  function Cost(levels: seq<Level>, q: real): real {
    if levels == [] || q <= 0.0 then 0.0
    else
      var f := Min(q, levels[0].qty);
      Times(f, levels[0].price) + Cost(levels[1..], q - f)
  }

  function Fills(levels: seq<Level>, q: real): seq<FillLevel> {
    if levels == [] || q <= 0.0 then []
    else
      var f := Min(q, levels[0].qty);
      [FillLevel(levels[0].price, f, Times(f, levels[0].price))] + Fills(levels[1..], q - f)
  }

  function AvgPrice(levels: seq<Level>, q: real): real {
    if Taken(levels, q) > 0.0 then Cost(levels, q) / Taken(levels, q) else 0.0
  }

  function LevelsFor(book: Snapshot, side: Side): seq<Level> {
    if side == Buy then book.asks else book.bids
  }

  function BestFor(book: Snapshot, side: Side): Option<Level> {
    if side == Buy then book.bestAsk else book.bestBid
  }

  /** How far `price` is on the worse side of `best`. */
  function Worse(side: Side, best: real, price: real): real {
    if side == Buy then price - best else best - price
  }

  function SlippageBps(side: Side, best: Option<Level>, avg: real): real {
    if best.Some? && best.value.price > 0.0
    then Max(Worse(side, best.value.price, avg) / best.value.price * BPS_SCALE, 0.0)
    else 0.0
  }

  /** The result of simulating `qty` on one side of the book. */
  function Walk(book: Snapshot, side: Side, qty: real): WalkResult {
    var levels := LevelsFor(book, side);
    var fills := Fills(levels, qty);
    var avg := AvgPrice(levels, qty);
    WalkResult(avg, Cost(levels, qty), SlippageBps(side, BestFor(book, side), avg),
               |fills|, qty - Taken(levels, qty) <= 0.0, fills)
  }

  /** The fill loop of the walk: consumes levels in order until nothing remains. */
  method FillFromLevels(levels: seq<Level>, qty: real)
    returns (fills: seq<FillLevel>, totalCost: real, totalQty: real, levelsConsumed: nat, remaining: real)
    ensures fills == Fills(levels, qty)
    ensures totalCost == Cost(levels, qty)
    ensures totalQty == Taken(levels, qty)
    ensures levelsConsumed == |fills|
    ensures remaining == qty - totalQty
  {
    remaining, totalCost, totalQty, fills, levelsConsumed := qty, 0.0, 0.0, [], 0;
    var i := 0;
    while i < |levels|
      invariant 0 <= i <= |levels|
      invariant remaining == qty - totalQty
      invariant totalQty + Taken(levels[i..], remaining) == Taken(levels, qty)
      invariant totalCost + Cost(levels[i..], remaining) == Cost(levels, qty)
      invariant fills + Fills(levels[i..], remaining) == Fills(levels, qty)
      invariant levelsConsumed == |fills|
    {
      if remaining <= 0.0 {
        break;
      }
      levelsConsumed := levelsConsumed + 1;
      var price, available := levels[i].price, levels[i].qty;
      var fillQty := Min(remaining, available);
      var cost := fillQty * price;
      assert levels[i..][1..] == levels[i + 1..];
      fills := fills + [FillLevel(price, fillQty, cost)];
      totalCost := totalCost + cost;
      totalQty := totalQty + fillQty;
      remaining := remaining - fillQty;
      i := i + 1;
    }
  }

  method WalkTheBook(book: Snapshot, side: string, qty: real) returns (r: Result<WalkResult, Error>)
    ensures side == "buy" ==> r == Ok(Walk(book, Buy, qty))
    ensures side == "sell" ==> r == Ok(Walk(book, Sell, qty))
    ensures side != "buy" && side != "sell" ==> r == Err(OrderRejected(side))
    ensures side == "buy" && (book.bestAsk.None? || book.bestAsk.value.price <= 0.0) ==> r.value.slippageBps == 0.0
    ensures side == "sell" && (book.bestBid.None? || book.bestBid.value.price <= 0.0) ==> r.value.slippageBps == 0.0
  {
    if side != "buy" && side != "sell" {
      return Err(OrderRejected(side));
    }
    var levels := if side == "buy" then book.asks else book.bids;
    var bestPrice := if side == "buy" then book.bestAsk else book.bestBid;
    var fills, totalCost, totalQty, levelsConsumed, remaining := FillFromLevels(levels, qty);
    var fullyFilled := remaining <= 0.0;
    var avgPrice := if totalQty > 0.0 then totalCost / totalQty else 0.0;
    var slippage := 0.0;
    if bestPrice.Some? && bestPrice.value.price > 0.0 {
      var bp := bestPrice.value.price;
      slippage := (if side == "buy" then avgPrice - bp else bp - avgPrice) / bp * BPS_SCALE;
    }
    r := Ok(WalkResult(avgPrice, totalCost, Max(slippage, 0.0), levelsConsumed, fullyFilled, fills));
  }

  // ----- Depth within a price band --------------------------------------------

  /** The quantity on every level at most `threshold` worse than `best`. */
  function DepthWithin(levels: seq<Level>, side: Side, best: real, threshold: real): real {
    if levels == [] then 0.0
    else
      (if Worse(side, best, levels[0].price) <= threshold then levels[0].qty else 0.0)
      + DepthWithin(levels[1..], side, best, threshold)
  }

  /** The same, stopping at the first level that is too far away. */
  function DepthUntil(levels: seq<Level>, side: Side, best: real, threshold: real): real {
    if levels == [] || Worse(side, best, levels[0].price) > threshold then 0.0
    else levels[0].qty + DepthUntil(levels[1..], side, best, threshold)
  }

  function Threshold(best: real, bps: real): real {
    best * bps / BPS_SCALE
  }

  /** What the depth query answers, as a sum with an early stop. */
  function DepthAt(book: Snapshot, side: Side, bps: real): real {
    var best := BestFor(book, side);
    if best.None? || best.value.price <= 0.0 then 0.0
    else DepthUntil(LevelsFor(book, side), side, best.value.price, Threshold(best.value.price, bps))
  }

  method DepthAtBps(book: Snapshot, side: string, bps: real) returns (r: Result<real, Error>)
    ensures side == "bid" ==> r == Ok(DepthAt(book, Sell, bps))
    ensures side == "ask" ==> r == Ok(DepthAt(book, Buy, bps))
    ensures side != "bid" && side != "ask" ==> r == Err(OrderRejected(side))
    ensures side == "bid" && (book.bestBid.None? || book.bestBid.value.price <= 0.0) ==> r == Ok(0.0)
    ensures side == "ask" && (book.bestAsk.None? || book.bestAsk.value.price <= 0.0) ==> r == Ok(0.0)
  {
    if side != "bid" && side != "ask" {
      return Err(OrderRejected(side));
    }
    var levels := if side == "bid" then book.bids else book.asks;
    var best := if side == "bid" then book.bestBid else book.bestAsk;
    if best.None? || best.value.price <= 0.0 {
      return Ok(0.0);
    }
    var bestPrice := best.value.price;
    var threshold := Threshold(bestPrice, bps);
    ghost var parsed := if side == "bid" then Sell else Buy;

    var totalQty := 0.0;
    var i := 0;
    while i < |levels|
      invariant 0 <= i <= |levels|
      invariant totalQty + DepthUntil(levels[i..], parsed, bestPrice, threshold)
             == DepthUntil(levels, parsed, bestPrice, threshold)
    {
      var diff := if side == "bid" then bestPrice - levels[i].price else levels[i].price - bestPrice;
      if diff <= threshold {
        assert levels[i..][1..] == levels[i + 1..];
        totalQty := totalQty + levels[i].qty;
      } else {
        break;
      }
      i := i + 1;
    }
    assert totalQty == DepthUntil(levels, parsed, bestPrice, threshold);
    r := Ok(totalQty);
  }

  // ----- Effective spread -------------------------------------------------------

  /** The effective spread in basis points for walking `qty` on both sides. */
  function SpreadAt(book: Snapshot, qty: real): real {
    var avgAsk := Walk(book, Buy, qty).avgPrice;
    var avgBid := Walk(book, Sell, qty).avgPrice;
    if book.midPrice.Some? && book.midPrice.value > 0.0 && avgAsk > 0.0 && avgBid > 0.0
    then (avgAsk - avgBid) / book.midPrice.value * BPS_SCALE
    else 0.0
  }

  method EffectiveSpread(book: Snapshot, qty: real) returns (r: Result<real, Error>)
    ensures r == Ok(SpreadAt(book, qty))
    ensures qty <= 0.0 || book.midPrice.None? || book.midPrice.value <= 0.0 ==> r == Ok(0.0)
  {
    var buyWalk := WalkTheBook(book, "buy", qty);
    var sellWalk := WalkTheBook(book, "sell", qty);
    var avgAsk, avgBid := buyWalk.value.avgPrice, sellWalk.value.avgPrice;
    if book.midPrice.Some? && book.midPrice.value > 0.0 && avgAsk > 0.0 && avgBid > 0.0 {
      r := Ok((avgAsk - avgBid) / book.midPrice.value * BPS_SCALE);
    } else {
      r := Ok(0.0);
    }
  }

  // ----- Building a snapshot ----------------------------------------------------

  function AskKey(l: Level): real {
    l.price
  }

  function BidKey(l: Level): real {
    -l.price
  }

  function First(levels: seq<Level>): Option<Level> {
    if levels == [] then None else Some(levels[0])
  }

  function Mid(bestBid: Option<Level>, bestAsk: Option<Level>): Option<real> {
    if bestBid.Some? && bestAsk.Some? then Some((bestBid.value.price + bestAsk.value.price) / 2.0) else None
  }

  function QuotedSpread(bestBid: Option<Level>, bestAsk: Option<Level>): Option<real> {
    if bestBid.Some? && bestAsk.Some? && Mid(bestBid, bestAsk).value != 0.0
    then Some((bestAsk.value.price - bestBid.value.price) / Mid(bestBid, bestAsk).value * BPS_SCALE)
    else None
  }

  /** What a snapshot built from a well-behaved feed satisfies. */
  predicate Valid(book: Snapshot) {
    && NonNegative(book.bids) && Positive(book.bids) && Descending(book.bids)
    && NonNegative(book.asks) && Positive(book.asks) && Ascending(book.asks)
    && book.bestBid == First(book.bids)
    && book.bestAsk == First(book.asks)
    && book.midPrice == Mid(book.bestBid, book.bestAsk)
    && book.spreadBps == QuotedSpread(book.bestBid, book.bestAsk)
  }

  /** The mid lies halfway between the best prices, and the quoted spread is their distance over it. */
  lemma QuotesAreExact(bid: Level, ask: Level)
    ensures Mid(Some(bid), Some(ask)).Some? && 2.0 * Mid(Some(bid), Some(ask)).value == bid.price + ask.price
    ensures match QuotedSpread(Some(bid), Some(ask))
            case None => bid.price + ask.price == 0.0
            case Some(spread) => spread * (bid.price + ask.price) == 20000.0 * (ask.price - bid.price)
    ensures forall l: Option<Level> ::
      Mid(l, None) == Mid(None, l) == None && QuotedSpread(l, None) == QuotedSpread(None, l) == None
  {
  }

  predicate AllParse(raw: seq<Option<Level>>) {
    forall i :: 0 <= i < |raw| ==> raw[i].Some?
  }

  function Values(raw: seq<Option<Level>>): seq<Level>
    requires AllParse(raw)
  {
    seq(|raw|, i requires 0 <= i < |raw| => raw[i].value)
  }

  method ParseLevels(raw: seq<Option<Level>>) returns (r: Option<seq<Level>>)
    ensures r == if AllParse(raw) then Some(Values(raw)) else None
  {
    var levels := [];
    for i := 0 to |raw|
      invariant AllParse(raw[..i])
      invariant |levels| == i && forall k :: 0 <= k < i ==> levels[k] == raw[k].value
    {
      if raw[i].None? {
        return None;
      }
      levels := levels + [raw[i].value];
    }
    assert AllParse(raw) && levels == Values(raw);
    r := Some(levels);
  }

  method SortBids(levels: seq<Level>) returns (bids: seq<Level>)
    ensures bids == Sort(levels, BidKey)
    ensures Descending(bids) && multiset(bids) == multiset(levels)
    ensures NonNegative(levels) ==> NonNegative(bids)
    ensures Positive(levels) ==> Positive(bids)
  {
    bids := Sort(levels, BidKey);
    SortedSide(levels, BidKey);
    forall i, j | 0 <= i < j < |bids|
      ensures bids[i].price >= bids[j].price
    {
      assert BidKey(bids[i]) <= BidKey(bids[j]);
    }
  }

  method SortAsks(levels: seq<Level>) returns (asks: seq<Level>)
    ensures asks == Sort(levels, AskKey)
    ensures Ascending(asks) && multiset(asks) == multiset(levels)
    ensures NonNegative(levels) ==> NonNegative(asks)
    ensures Positive(levels) ==> Positive(asks)
  {
    asks := Sort(levels, AskKey);
    SortedSide(levels, AskKey);
    forall i, j | 0 <= i < j < |asks|
      ensures asks[i].price <= asks[j].price
    {
      assert AskKey(asks[i]) <= AskKey(asks[j]);
    }
  }

  lemma SortedSide(levels: seq<Level>, key: Level -> real)
    ensures SortedBy(Sort(levels, key), key)
    ensures multiset(Sort(levels, key)) == multiset(levels)
    ensures NonNegative(levels) ==> NonNegative(Sort(levels, key))
    ensures Positive(levels) ==> Positive(Sort(levels, key))
  {
    hide Sort;
    SortCorrect(levels, key);
    var s := Sort(levels, key);
    forall i | 0 <= i < |s|
      ensures s[i] in levels
    {
      assert s[i] in multiset(s);
      assert s[i] in multiset(levels);
    }
  }

  /**
   Builds a snapshot from the raw levels of a depth response, where an entry that does not
   parse is `None`. Both sides come out sorted, with equal prices in feed order and no level
   lost; a feed of positive prices and non-negative sizes gives a `Valid` book.
   */
  method FetchOrderBook(rawBids: seq<Option<Level>>, rawAsks: seq<Option<Level>>) returns (r: Result<Snapshot, Error>)
    ensures r.Ok? <==> AllParse(rawBids) && AllParse(rawAsks)
    ensures r.Err? ==> r.error == DecimalParse
    ensures r.Ok? ==>
      var bids, asks := Values(rawBids), Values(rawAsks);
      && r.value.bids == Sort(bids, BidKey) && Descending(r.value.bids) && multiset(r.value.bids) == multiset(bids)
      && r.value.asks == Sort(asks, AskKey) && Ascending(r.value.asks) && multiset(r.value.asks) == multiset(asks)
      && r.value.bestBid == First(r.value.bids) && r.value.bestAsk == First(r.value.asks)
      && r.value.midPrice == Mid(r.value.bestBid, r.value.bestAsk)
      && r.value.spreadBps == QuotedSpread(r.value.bestBid, r.value.bestAsk)
      && (NonNegative(bids) && Positive(bids) && NonNegative(asks) && Positive(asks) ==> Valid(r.value))
  {
    hide Sort, NonNegative, Positive, Ascending, Descending, Values, AllParse;
    var parsedBids := ParseLevels(rawBids);
    if parsedBids.None? {
      return Err(DecimalParse);
    }
    var parsedAsks := ParseLevels(rawAsks);
    if parsedAsks.None? {
      return Err(DecimalParse);
    }
    var bids := SortBids(parsedBids.value);
    var asks := SortAsks(parsedAsks.value);
    var bestBid, bestAsk := First(bids), First(asks);
    var midPrice, spreadBps := None, None;
    if bestBid.Some? && bestAsk.Some? {
      var mid := (bestBid.value.price + bestAsk.value.price) / 2.0;
      var spread := bestAsk.value.price - bestBid.value.price;
      midPrice := Some(mid);
      spreadBps := if mid == 0.0 then None else Some(spread / mid * BPS_SCALE);
    }
    r := Ok(Snapshot(bids, asks, bestBid, bestAsk, midPrice, spreadBps));
  }
}
