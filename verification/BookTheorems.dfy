/** What the analyzer promises about a valid book, for every quantity and book length. */
module BookTheorems {
  import opened Options
  import opened OrderBook
  import opened LevelWalks
  import opened RealArith

  // ----- Bids as an ascending ladder --------------------------------------------

  function Signed(side: Side, x: real): real {
    if side == Buy then x else -x
  }

  /** One side of the book with the best price first and lowest: bids at negated prices. */
  function Ladder(book: Snapshot, side: Side): seq<Level> {
    if side == Buy then book.asks else Mirror(book.bids)
  }

  lemma {:induction false} MirrorWalks(levels: seq<Level>, q: real)
    ensures Taken(Mirror(levels), q) == Taken(levels, q)
    ensures Cost(Mirror(levels), q) == -Cost(levels, q)
    ensures Depth(Mirror(levels)) == Depth(levels)
  {
    hide Times;
    if levels != [] {
      var f := Min(q, levels[0].qty);
      assert Mirror(levels)[1..] == Mirror(levels[1..]);
      MirrorWalks(levels[1..], q - f);
      TimesNeg(f, levels[0].price);
    }
  }

  lemma {:induction false} MirrorAllocation(levels: seq<Level>, alloc: seq<real>)
    requires |alloc| == |levels|
    ensures AllocationCost(Mirror(levels), alloc) == -AllocationCost(levels, alloc)
  {
    hide Times;
    if levels != [] {
      assert Mirror(levels)[1..] == Mirror(levels[1..]);
      MirrorAllocation(levels[1..], alloc[1..]);
      TimesNeg(alloc[0], levels[0].price);
    }
  }

  lemma {:induction false} MirrorDepth(levels: seq<Level>, best: real, threshold: real)
    ensures DepthUntil(Mirror(levels), Buy, -best, threshold) == DepthUntil(levels, Sell, best, threshold)
    ensures DepthWithin(Mirror(levels), Buy, -best, threshold) == DepthWithin(levels, Sell, best, threshold)
  {
    if levels != [] {
      assert Mirror(levels)[1..] == Mirror(levels[1..]);
      MirrorDepth(levels[1..], best, threshold);
    }
  }

  lemma LadderShape(book: Snapshot, side: Side)
    requires Valid(book)
    ensures NonNegative(Ladder(book, side)) && Ascending(Ladder(book, side))
    ensures |Ladder(book, side)| == |LevelsFor(book, side)|
  {
  }

  lemma LadderWalks(book: Snapshot, side: Side, q: real)
    ensures Taken(Ladder(book, side), q) == Taken(LevelsFor(book, side), q)
    ensures Cost(Ladder(book, side), q) == Signed(side, Cost(LevelsFor(book, side), q))
    ensures Depth(Ladder(book, side)) == Depth(LevelsFor(book, side))
  {
    hide Times, Taken, Cost, Depth;
    if side == Sell {
      MirrorWalks(book.bids, q);
    }
  }

  // ----- Fills --------------------------------------------------------------------

  function FilledQty(fills: seq<FillLevel>): real {
    if fills == [] then 0.0 else fills[0].qty + FilledQty(fills[1..])
  }

  function FilledCost(fills: seq<FillLevel>): real {
    if fills == [] then 0.0 else fills[0].cost + FilledCost(fills[1..])
  }

  lemma {:induction false} FillsAddUp(levels: seq<Level>, q: real)
    ensures FilledQty(Fills(levels, q)) == Taken(levels, q)
    ensures FilledCost(Fills(levels, q)) == Cost(levels, q)
  {
    hide Times;
    if levels != [] && q > 0.0 {
      var f := Min(q, levels[0].qty);
      FillsAddUp(levels[1..], q - f);
      assert Fills(levels, q)[1..] == Fills(levels[1..], q - f);
    }
  }

  /** The fills sum to the smaller of the request and the depth, and to the reported cost. */
  lemma WalkFillsWhatItCan(book: Snapshot, side: Side, q: real)
    requires Valid(book)
    ensures var w := Walk(book, side, q);
      && FilledQty(w.fills) == Max(0.0, Min(q, Depth(LevelsFor(book, side))))
      && FilledCost(w.fills) == w.totalCost
      && (w.fullyFilled <==> q <= Depth(LevelsFor(book, side)))
      && w.levelsConsumed == |w.fills|
  {
    var levels := LevelsFor(book, side);
    TakenIsMin(levels, q);
    FillsAddUp(levels, q);
    DepthNonNegative(levels);
  }

  // ----- Optimality -----------------------------------------------------------------

  /** No allocation of the filled quantity is cheaper to buy, or earns more when sold. */
  lemma GreedyWalkIsOptimal(book: Snapshot, side: Side, q: real, alloc: seq<real>)
    requires Valid(book)
    requires Allocation(LevelsFor(book, side), alloc)
    requires Sum(alloc) == FilledQty(Walk(book, side, q).fills)
    ensures side == Buy ==> AllocationCost(book.asks, alloc) >= Walk(book, side, q).totalCost
    ensures side == Sell ==> AllocationCost(book.bids, alloc) <= Walk(book, side, q).totalCost
  {
    hide Times, Cost, Taken, Fills, AllocationCost;
    var levels, ladder := LevelsFor(book, side), Ladder(book, side);
    LadderShape(book, side);
    FillsAddUp(levels, q);
    CostCapped(levels, q);
    LadderWalks(book, side, Sum(alloc));
    assert Allocation(ladder, alloc);
    GreedyIsCheapest(ladder, alloc);
    if side == Sell {
      MirrorAllocation(book.bids, alloc);
    }
  }

  /** The walk is itself such an allocation, so the optimum is attained. */
  lemma GreedyWalkIsAttained(book: Snapshot, side: Side, q: real)
    requires Valid(book)
    ensures var levels, alloc := LevelsFor(book, side), WalkAllocation(LevelsFor(book, side), q);
      && Allocation(levels, alloc)
      && Sum(alloc) == FilledQty(Walk(book, side, q).fills)
      && AllocationCost(levels, alloc) == Walk(book, side, q).totalCost
  {
    hide Times, Cost, Taken, Fills;
    WalkAllocates(LevelsFor(book, side), q);
    FillsAddUp(LevelsFor(book, side), q);
  }

  // ----- Averages ---------------------------------------------------------------------

  /** On a ladder with depth, the average of any positive walk is a true quotient. */
  lemma AverageOnLadder(book: Snapshot, side: Side, q: real)
    requires Valid(book) && Depth(LevelsFor(book, side)) > 0.0 && q > 0.0
    ensures var ladder := Ladder(book, side);
      && 0.0 < Taken(ladder, q) == Min(q, Depth(ladder))
      && Signed(side, Walk(book, side, q).avgPrice) == Cost(ladder, Taken(ladder, q)) / Taken(ladder, q)
  {
    hide Times, Cost, Taken, Fills;
    var ladder := Ladder(book, side);
    LadderShape(book, side);
    LadderWalks(book, side, q);
    TakenIsMin(ladder, q);
    CostCapped(ladder, q);
    NegDiv(Cost(LevelsFor(book, side), q), Taken(ladder, q));
  }

  /** The average is what was paid over what was filled, and zero when nothing was. */
  lemma AverageIsExact(book: Snapshot, side: Side, q: real)
    requires Valid(book)
    ensures var w := Walk(book, side, q);
      && w.avgPrice * FilledQty(w.fills) == w.totalCost
      && (FilledQty(w.fills) == 0.0 ==> w.avgPrice == 0.0)
  {
    hide Times, Cost, Taken, Fills;
    var levels := LevelsFor(book, side);
    FillsAddUp(levels, q);
    TakenIsMin(levels, q);
    CostCapped(levels, q);
    CostOfNothing(levels);
    if Taken(levels, q) > 0.0 {
      DivMul(Cost(levels, q), Taken(levels, q));
    }
  }

  /** Larger walks never average better, on either side. */
  lemma AveragesWorsen(book: Snapshot, side: Side, x: real, y: real)
    requires Valid(book) && Depth(LevelsFor(book, side)) > 0.0 && 0.0 < x <= y
    ensures Signed(side, Walk(book, side, x).avgPrice) <= Signed(side, Walk(book, side, y).avgPrice)
  {
    hide Times, Cost, Taken, Fills, Walk;
    var ladder := Ladder(book, side);
    LadderShape(book, side);
    AverageOnLadder(book, side, x);
    AverageOnLadder(book, side, y);
    var a, b := Taken(ladder, x), Taken(ladder, y);
    CostRatio(ladder, a, b);
    CrossDivide(Cost(ladder, a), a, Cost(ladder, b), b);
  }

  /** No positive walk averages better than the best price. */
  lemma AverageNoBetterThanBest(book: Snapshot, side: Side, q: real)
    requires Valid(book) && Depth(LevelsFor(book, side)) > 0.0 && q > 0.0
    ensures BestFor(book, side).Some?
    ensures Worse(side, BestFor(book, side).value.price, Walk(book, side, q).avgPrice) >= 0.0
  {
    hide Times, Cost, Taken, Fills, Walk;
    var ladder := Ladder(book, side);
    LadderShape(book, side);
    AverageOnLadder(book, side, q);
    var t, best := Taken(ladder, q), ladder[0].price;
    AscendingTail(ladder);
    CostSlope(ladder, best, 0.0, t);
    CostOfNothing(ladder);
    TimesCommutes(t, best);
    DivGe(Cost(ladder, t), best, t);
  }

  lemma SlippageMono(side: Side, best: Option<Level>, a: real, b: real)
    requires Signed(side, a) <= Signed(side, b)
    ensures SlippageBps(side, best, a) <= SlippageBps(side, best, b)
  {
    if best.Some? && best.value.price > 0.0 {
      var bp := best.value.price;
      DivMono(Worse(side, bp, a), Worse(side, bp, b), bp);
    }
  }

  /**
   With depth, slippage is the share of the best price that was overpaid, or not earned, in basis
   points; without levels there is none.
   */
  lemma SlippageIsExact(book: Snapshot, side: Side, q: real)
    requires Valid(book)
    ensures var w, levels := Walk(book, side, q), if side == Buy then book.asks else book.bids;
      && (levels == [] ==> w.slippageBps == 0.0)
      && (Depth(levels) > 0.0 && q > 0.0 ==>
            var best, filled := levels[0].price, FilledQty(w.fills);
            w.slippageBps * best * filled ==
              10000.0 * (if side == Buy then w.totalCost - best * filled else best * filled - w.totalCost))
  {
    hide Times, Cost, Taken, Fills;
    var levels, w := LevelsFor(book, side), Walk(book, side, q);
    if levels != [] && Depth(levels) > 0.0 && q > 0.0 {
      var best, filled := levels[0].price, FilledQty(w.fills);
      AverageIsExact(book, side, q);
      AverageNoBetterThanBest(book, side, q);
      NonNegativeQuotient(Worse(side, best, w.avgPrice), best);
      SlippageTimes(side, best, w.avgPrice, filled);
    }
  }

  lemma SlippageTimes(side: Side, best: real, avg: real, filled: real)
    requires best > 0.0
    ensures var slippage := Worse(side, best, avg) / best * BPS_SCALE;
      slippage * best * filled ==
        10000.0 * (if side == Buy then avg * filled - best * filled else best * filled - avg * filled)
  {
    var d := Worse(side, best, avg);
    DivMul(d, best);
    calc {
      d / best * BPS_SCALE * best * filled;
      BPS_SCALE * (d / best * best) * filled;
      BPS_SCALE * d * filled;
      10000.0 * (d * filled);
    }
  }

  /** Slippage never shrinks with size. */
  lemma SlippageGrows(book: Snapshot, side: Side, x: real, y: real)
    requires Valid(book) && Depth(LevelsFor(book, side)) > 0.0 && 0.0 < x <= y
    ensures Walk(book, side, x).slippageBps <= Walk(book, side, y).slippageBps
  {
    hide Times, Cost, Taken, Fills, SlippageBps;
    AveragesWorsen(book, side, x, y);
    SlippageMono(side, BestFor(book, side), Walk(book, side, x).avgPrice, Walk(book, side, y).avgPrice);
  }

  /**
   A sell that fills nothing reports an average of zero and so a slippage of 10000 basis
   points; a buy that fills nothing reports none. The anomaly is exactly the sells of nothing
   and the sells into an empty side.
   */
  lemma EmptyWalkSlippage(book: Snapshot, q: real)
    requires Valid(book)
    ensures book.asks != [] && (q <= 0.0 || Depth(book.asks) == 0.0) ==> Walk(book, Buy, q).slippageBps == 0.0
    ensures book.bids != [] ==>
              (Walk(book, Sell, q).slippageBps < BPS_SCALE <==> q > 0.0 && Depth(book.bids) > 0.0)
  {
    hide Times, Cost, Taken, Fills, Depth;
    if book.asks != [] {
      NothingFilled(book.asks[0].price);
      TakenIsMin(book.asks, q);
    }
    if book.bids != [] {
      var bp := book.bids[0].price;
      NothingFilled(bp);
      DepthNonNegative(book.bids);
      TakenIsMin(book.bids, q);
      if Taken(book.bids, q) > 0.0 {
        SomethingEarned(book.bids, q);
        BelowFullSlippage(bp, Walk(book, Sell, q).avgPrice);
      }
    }
  }

  lemma NothingFilled(bp: real)
    requires bp > 0.0
    ensures (0.0 - bp) / bp * BPS_SCALE == -BPS_SCALE
    ensures (bp - 0.0) / bp * BPS_SCALE == BPS_SCALE
  {
  }

  lemma BelowFullSlippage(bp: real, avg: real)
    requires bp > 0.0 && avg > 0.0
    ensures (bp - avg) / bp * BPS_SCALE < BPS_SCALE
  {
  }

  /** Positive prices make every walk that fills something earn something. */
  lemma {:induction false} SomethingEarned(levels: seq<Level>, q: real)
    requires NonNegative(levels) && Positive(levels)
    ensures Cost(levels, q) >= 0.0
    ensures Taken(levels, q) > 0.0 ==> Cost(levels, q) > 0.0 && AvgPrice(levels, q) > 0.0
  {
    hide Times;
    if levels != [] && q > 0.0 {
      var f, p := Min(q, levels[0].qty), levels[0].price;
      SomethingEarned(levels[1..], q - f);
      TimesZero(p);
      if f > 0.0 {
        TimesStrict(0.0, f, p);
      }
    }
    if Taken(levels, q) > 0.0 {
      PositiveQuotient(Cost(levels, q), Taken(levels, q));
    }
  }

  // ----- Effective spread ---------------------------------------------------------------

  lemma BothAveragesPositive(book: Snapshot, q: real)
    requires Valid(book) && q > 0.0
    ensures forall side :: Walk(book, side, q).avgPrice > 0.0 <==> Depth(LevelsFor(book, side)) > 0.0
  {
    forall side: Side
      ensures Walk(book, side, q).avgPrice > 0.0 <==> Depth(LevelsFor(book, side)) > 0.0
    {
      var levels := LevelsFor(book, side);
      hide Times, Cost, Taken, Fills;
      DepthNonNegative(levels);
      TakenIsMin(levels, q);
      SomethingEarned(levels, q);
    }
  }

  /** With depth on both sides, the effective spread is the distance of the averages over the mid price. */
  lemma SpreadIsExact(book: Snapshot, q: real)
    requires Valid(book) && q > 0.0 && Depth(book.bids) > 0.0 && Depth(book.asks) > 0.0
    ensures book.bids != [] && book.asks != []
    ensures SpreadAt(book, q) * (book.asks[0].price + book.bids[0].price) ==
            20000.0 * (Walk(book, Buy, q).avgPrice - Walk(book, Sell, q).avgPrice)
  {
    hide Walk, Cost, Taken, Fills;
    BothAveragesPositive(book, q);
    assert LevelsFor(book, Sell) == book.bids && LevelsFor(book, Buy) == book.asks;
    QuotesAreExact(book.bids[0], book.asks[0]);
    var d, mid := Walk(book, Buy, q).avgPrice - Walk(book, Sell, q).avgPrice, book.midPrice.value;
    DivMul(d, mid);
    calc {
      SpreadAt(book, q) * (2.0 * mid);
      d / mid * BPS_SCALE * (2.0 * mid);
      BPS_SCALE * 2.0 * (d / mid * mid);
      20000.0 * d;
    }
  }

  lemma SpreadMono(lo: real, hi: real, mid: real)
    requires lo <= hi && mid > 0.0
    ensures lo / mid * BPS_SCALE <= hi / mid * BPS_SCALE
  {
  }

  /**
   With depth on both sides the effective spread is at least the quoted spread and never
   shrinks with size; with a side that holds nothing it is reported as zero.
   */
  lemma EffectiveSpreadGrows(book: Snapshot, x: real, y: real)
    requires Valid(book) && 0.0 < x <= y
    ensures Depth(book.bids) > 0.0 && Depth(book.asks) > 0.0 ==>
              book.spreadBps.Some? && book.spreadBps.value <= SpreadAt(book, x) <= SpreadAt(book, y)
    ensures Depth(book.bids) <= 0.0 || Depth(book.asks) <= 0.0 ==> SpreadAt(book, x) == 0.0
  {
    hide Times, Cost, Taken, Fills, Walk;
    BothAveragesPositive(book, x);
    BothAveragesPositive(book, y);
    assert LevelsFor(book, Sell) == book.bids && LevelsFor(book, Buy) == book.asks;
    if Depth(book.bids) > 0.0 && Depth(book.asks) > 0.0 {
      AveragesWorsen(book, Buy, x, y);
      AveragesWorsen(book, Sell, x, y);
      AverageNoBetterThanBest(book, Buy, x);
      AverageNoBetterThanBest(book, Sell, x);
      var mid := book.midPrice.value;
      var a1, b1 := Walk(book, Buy, x).avgPrice, Walk(book, Sell, x).avgPrice;
      var a2, b2 := Walk(book, Buy, y).avgPrice, Walk(book, Sell, y).avgPrice;
      SpreadMono(book.bestAsk.value.price - book.bestBid.value.price, a1 - b1, mid);
      SpreadMono(a1 - b1, a2 - b2, mid);
    }
  }

  // ----- Depth query ----------------------------------------------------------------------

  lemma DepthOnLadder(book: Snapshot, side: Side, threshold: real)
    requires Valid(book) && LevelsFor(book, side) != []
    ensures var levels, ladder, best := LevelsFor(book, side), Ladder(book, side), LevelsFor(book, side)[0].price;
      && DepthUntil(levels, side, best, threshold) == DepthUntil(ladder, Buy, Signed(side, best), threshold)
      && DepthWithin(levels, side, best, threshold) == DepthWithin(ladder, Buy, Signed(side, best), threshold)
  {
    if side == Sell {
      MirrorDepth(book.bids, book.bids[0].price, threshold);
    }
  }

  /** `price` is at most `bps` basis points of the best price worse than it. */
  predicate InBand(side: Side, best: real, price: real, bps: real) {
    10000.0 * (if side == Buy then price - best else best - price) <= best * bps
  }

  /** The quantity on all levels within the band. */
  function BandDepth(levels: seq<Level>, side: Side, best: real, bps: real): real {
    if levels == [] then 0.0
    else (if InBand(side, best, levels[0].price, bps) then levels[0].qty else 0.0)
         + BandDepth(levels[1..], side, best, bps)
  }

  lemma BandIsThreshold(side: Side, best: real, price: real, bps: real)
    ensures InBand(side, best, price, bps) <==> Worse(side, best, price) <= Threshold(best, bps)
  {
  }

  lemma {:induction false} BandDepthIsWithin(levels: seq<Level>, side: Side, best: real, bps: real)
    ensures BandDepth(levels, side, best, bps) == DepthWithin(levels, side, best, Threshold(best, bps))
  {
    hide InBand, Threshold;
    if levels != [] {
      BandIsThreshold(side, best, levels[0].price, bps);
      BandDepthIsWithin(levels[1..], side, best, bps);
    }
  }

  /** Stopping at the first level outside the band counts every level inside it. */
  lemma DepthCountsEveryLevel(book: Snapshot, side: Side, bps: real)
    requires Valid(book)
    ensures var levels := if side == Buy then book.asks else book.bids;
      DepthAt(book, side, bps) == if levels == [] then 0.0 else BandDepth(levels, side, levels[0].price, bps)
  {
    hide Threshold, DepthUntil, DepthWithin, BandDepth;
    if LevelsFor(book, side) != [] {
      BandDepthIsWithin(LevelsFor(book, side), side, LevelsFor(book, side)[0].price, bps);
      EarlyStopOnBook(book, side, bps);
    }
  }

  lemma EarlyStopOnBook(book: Snapshot, side: Side, bps: real)
    requires Valid(book) && LevelsFor(book, side) != []
    ensures var levels := LevelsFor(book, side);
      DepthAt(book, side, bps) == DepthWithin(levels, side, levels[0].price, Threshold(levels[0].price, bps))
  {
    hide Threshold, DepthUntil, DepthWithin;
    var best := LevelsFor(book, side)[0].price;
    var threshold := Threshold(best, bps);
    LadderShape(book, side);
    DepthOnLadder(book, side, threshold);
    EarlyStopIsExact(Ladder(book, side), Signed(side, best), threshold);
  }

  lemma SlippageWithin(side: Side, bp: real, avg: real, bps: real)
    requires bp > 0.0 && bps >= 0.0 && Worse(side, bp, avg) <= Threshold(bp, bps)
    ensures Worse(side, bp, avg) / bp * BPS_SCALE <= bps
  {
  }

  lemma ThresholdSign(bp: real, bps: real)
    requires bp > 0.0 && Threshold(bp, bps) >= 0.0
    ensures bps >= 0.0
  {
  }

  /** A quantity within the queried depth is fully filled, within the queried slippage. */
  lemma DepthBoundsSlippage(book: Snapshot, side: Side, bps: real, q: real)
    requires Valid(book) && 0.0 < q <= DepthAt(book, side, bps)
    ensures Walk(book, side, q).fullyFilled
    ensures Walk(book, side, q).slippageBps <= bps
  {
    hide Times, Cost, Taken, Fills, Threshold;
    var levels, ladder := LevelsFor(book, side), Ladder(book, side);
    var best := levels[0].price;
    var threshold := Threshold(best, bps);
    LadderShape(book, side);
    DepthOnLadder(book, side, threshold);
    CostWithinBand(ladder, Signed(side, best), threshold, q);
    LadderWalks(book, side, q);
    var edge := Signed(side, best) + threshold;
    TimesCommutes(q, edge);
    DivLe(Cost(ladder, q), edge, q);
    NegDiv(Cost(levels, q), q);
    ThresholdSign(best, bps);
    SlippageWithin(side, best, Walk(book, side, q).avgPrice, bps);
  }

  /** The queried depth is exactly the largest quantity all of whose units lie within the band. */
  lemma DepthIsTheWholeBand(book: Snapshot, side: Side, bps: real, q: real)
    requires Valid(book) && LevelsFor(book, side) != [] && 0.0 <= q <= Depth(LevelsFor(book, side))
    ensures var best := LevelsFor(book, side)[0].price; var fills := Walk(book, side, q).fills;
      q <= DepthAt(book, side, bps) <==>
      forall i :: 0 <= i < |fills| && fills[i].qty > 0.0 ==> InBand(side, best, fills[i].price, bps)
  {
    hide Times, Cost, Taken, Fills, Threshold, Depth, InBand;
    var levels, ladder := LevelsFor(book, side), Ladder(book, side);
    var best := levels[0].price;
    var threshold := Threshold(best, bps);
    LadderShape(book, side);
    LadderWalks(book, side, q);
    DepthOnLadder(book, side, threshold);
    BandIsTight(ladder, Signed(side, best), threshold, q);
    var fills := Walk(book, side, q).fills;
    forall i | 0 <= i < |fills|
      ensures InBand(side, best, fills[i].price, bps) <==> Worse(side, best, fills[i].price) <= threshold
    {
      BandIsThreshold(side, best, fills[i].price, bps);
    }
    if side == Sell {
      MirrorFills(book.bids, q);
    }
  }

  lemma {:induction false} MirrorFills(levels: seq<Level>, q: real)
    ensures |Fills(Mirror(levels), q)| == |Fills(levels, q)|
    ensures forall i :: 0 <= i < |Fills(levels, q)| ==>
              && Fills(Mirror(levels), q)[i].price == -Fills(levels, q)[i].price
              && Fills(Mirror(levels), q)[i].qty == Fills(levels, q)[i].qty
  {
    hide Times;
    if levels != [] && q > 0.0 {
      assert Mirror(levels)[1..] == Mirror(levels[1..]);
      MirrorFills(levels[1..], q - Min(q, levels[0].qty));
    }
  }

  // ----- Splitting an order --------------------------------------------------------------------

  /** The book after a walk for `a` on one side has been executed against it. */
  function AfterWalk(book: Snapshot, side: Side, a: real): Snapshot {
    if side == Buy then book.(asks := Residual(book.asks, a)) else book.(bids := Residual(book.bids, a))
  }

  /** Walking `a` and then `b` on the book left behind gives the same cost and quantity as `a + b`. */
  lemma SplittingComposes(book: Snapshot, side: Side, a: real, b: real)
    requires Valid(book) && 0.0 <= a && 0.0 <= b
    ensures var whole, first, second :=
              Walk(book, side, a + b), Walk(book, side, a), Walk(AfterWalk(book, side, a), side, b);
      && whole.totalCost == first.totalCost + second.totalCost
      && FilledQty(whole.fills) == FilledQty(first.fills) + FilledQty(second.fills)
  {
    hide Times, Cost, Taken, Fills, Residual;
    var levels := LevelsFor(book, side);
    WalkSplits(levels, a, b);
    FillsAddUp(levels, a + b);
    FillsAddUp(levels, a);
    FillsAddUp(Residual(levels, a), b);
  }

  /**
   One buy costs at least what two fresh ones do while the book holds both, and one sell earns
   at most what two fresh ones do, whatever the book holds.
   */
  lemma SplittingNeverHurts(book: Snapshot, side: Side, a: real, b: real)
    requires Valid(book) && 0.0 <= a && 0.0 <= b
    requires side == Buy ==> a + b <= Depth(book.asks)
    ensures Signed(side, Walk(book, side, a + b).totalCost)
         >= Signed(side, Walk(book, side, a).totalCost) + Signed(side, Walk(book, side, b).totalCost)
  {
    hide Times, Cost, Taken, Fills, Depth;
    var levels := LevelsFor(book, side);
    if a + b <= Depth(levels) {
      LadderShape(book, side);
      LadderWalks(book, side, a);
      LadderWalks(book, side, b);
      LadderWalks(book, side, a + b);
      CostSuperadditive(Ladder(book, side), a, b);
    } else {
      SellingBeyondDepth(book, a, b);
    }
  }

  /** Past the depth the large sell earns what the book holds, which two fresh ones share at least. */
  lemma SellingBeyondDepth(book: Snapshot, a: real, b: real)
    requires Valid(book) && 0.0 <= a && 0.0 <= b && a + b > Depth(book.bids)
    ensures Cost(book.bids, a + b) <= Cost(book.bids, a) + Cost(book.bids, b)
  {
    hide Times, Cost, Taken, Fills, Depth;
    var d := Depth(book.bids);
    DepthNonNegative(book.bids);
    TakenIsMin(book.bids, a + b);
    TakenIsMin(book.bids, a);
    TakenIsMin(book.bids, b);
    CostCapped(book.bids, a + b);
    CostCapped(book.bids, a);
    SomethingEarned(book.bids, a);
    SomethingEarned(book.bids, b);
    if a < d {
      LadderShape(book, Sell);
      LadderWalks(book, Sell, a);
      LadderWalks(book, Sell, d - a);
      LadderWalks(book, Sell, d);
      CostSuperadditive(Ladder(book, Sell), a, d - a);
      EarningsGrow(book.bids, d - a, b);
    }
  }

  /** At positive prices a larger walk never earns (or costs) less. */
  lemma EarningsGrow(levels: seq<Level>, x: real, y: real)
    requires NonNegative(levels) && Positive(levels) && 0.0 <= x <= y
    ensures Cost(levels, x) <= Cost(levels, y)
  {
    hide Times, Cost, Taken;
    WalkSplits(levels, x, y - x);
    ResidualPositive(levels, x);
    SomethingEarned(Residual(levels, x), y - x);
  }

  lemma {:induction false} ResidualPositive(levels: seq<Level>, a: real)
    requires Positive(levels)
    ensures Positive(Residual(levels, a))
  {
    if levels != [] && a > 0.0 && levels[0].qty <= a {
      ResidualPositive(levels[1..], a - levels[0].qty);
    }
  }

  /** A buy that already empties the book makes the comparison fail for every further quantity. */
  lemma BuyingBeyondDepth(book: Snapshot, a: real, b: real)
    requires Valid(book) && 0.0 < Depth(book.asks) <= a && 0.0 < b
    ensures Walk(book, Buy, a + b).totalCost < Walk(book, Buy, a).totalCost + Walk(book, Buy, b).totalCost
  {
    hide Times, Cost, Taken, Fills, Depth;
    TakenIsMin(book.asks, a);
    TakenIsMin(book.asks, b);
    TakenIsMin(book.asks, a + b);
    CostCapped(book.asks, a);
    CostCapped(book.asks, a + b);
    SomethingEarned(book.asks, b);
  }

  predicate OneBuyCostsMore(book: Snapshot, a: real, b: real) {
    Walk(book, Buy, a + b).totalCost >= Walk(book, Buy, a).totalCost + Walk(book, Buy, b).totalCost
  }

  /** The asks of a book with depth `d`, all at one price. */
  function FlatBook(d: real): Snapshot {
    Snapshot([], [Level(1.0, d)], None, Some(Level(1.0, d)), None, None)
  }

  /**
   Knowing only the depth, `a + b` within it is exactly when one buy is sure to cost at least
   what two fresh ones do.
   */
  lemma SplittingIsSureExactly(d: real, a: real, b: real)
    requires d > 0.0 && a > 0.0 && b > 0.0
    ensures a + b <= d <==>
            forall book :: Valid(book) && Depth(book.asks) == d ==> OneBuyCostsMore(book, a, b)
  {
    hide Times, Walk, Depth;
    if a + b <= d {
      forall book | Valid(book) && Depth(book.asks) == d
        ensures OneBuyCostsMore(book, a, b)
      {
        SplittingNeverHurts(book, Buy, a, b);
      }
    } else {
      FlatBookFails(d, a, b);
    }
  }

  lemma FlatBookFails(d: real, a: real, b: real)
    requires d > 0.0 && a > 0.0 && b > 0.0 && a + b > d
    ensures Valid(FlatBook(d)) && Depth(FlatBook(d).asks) == d && !OneBuyCostsMore(FlatBook(d), a, b)
  {
    hide Fills;
    var asks := FlatBook(d).asks;
    assert asks[1..] == [] && Depth(asks) == d + Depth([]);
    FlatCost(d, a);
    FlatCost(d, b);
    FlatCost(d, a + b);
  }

  lemma FlatCost(d: real, q: real)
    requires d > 0.0 && q > 0.0
    ensures Cost(FlatBook(d).asks, q) == Min(q, d)
  {
    var asks := FlatBook(d).asks;
    assert asks[1..] == [] && Cost([], q - Min(q, d)) == 0.0;
  }
}
