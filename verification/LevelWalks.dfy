/**
 Facts about walking one list of levels. Prices may have any sign here, so every fact about
 ascending lists also speaks of descending ones through `Mirror`.
 */
module LevelWalks {
  import opened OrderBook
  import opened RealArith

  // ----- Quantities ---------------------------------------------------------

  lemma {:induction false} DepthNonNegative(levels: seq<Level>)
    requires NonNegative(levels)
    ensures Depth(levels) >= 0.0
  {
    if levels != [] {
      DepthNonNegative(levels[1..]);
    }
  }

  /** A walk takes the requested quantity, or everything there is. */
  lemma {:induction false} TakenIsMin(levels: seq<Level>, q: real)
    requires NonNegative(levels)
    ensures Taken(levels, q) == Max(0.0, Min(q, Depth(levels)))
  {
    DepthNonNegative(levels);
    if levels != [] && q > 0.0 {
      var f := Min(q, levels[0].qty);
      DepthNonNegative(levels[1..]);
      TakenIsMin(levels[1..], q - f);
    }
  }

  /** Asking for more than the depth costs what the depth costs. */
  lemma {:induction false} CostCapped(levels: seq<Level>, q: real)
    requires NonNegative(levels)
    ensures Cost(levels, q) == Cost(levels, Taken(levels, q))
  {
    hide Times;
    if levels != [] && q > 0.0 {
      var l0, tail := levels[0].qty, levels[1..];
      var f := Min(q, l0);
      DepthNonNegative(tail);
      TakenIsMin(tail, q - f);
      CostCapped(tail, q - f);
      var t := Taken(levels, q);
      if f < l0 {
        assert q - f == 0.0 && t == f;
      } else if t > 0.0 {
        assert Min(t, l0) == l0 && t - l0 == Taken(tail, q - f);
      } else {
        assert l0 == 0.0 && Taken(tail, q - f) == 0.0;
        TimesZero(levels[0].price);
      }
    }
  }

  /** The fills are the first levels in order, at their prices, each taken whole except the last. */
  lemma {:induction false} FillsFollowLevels(levels: seq<Level>, q: real, i: nat)
    requires NonNegative(levels) && i < |Fills(levels, q)|
    ensures i < |levels|
    ensures var f := Fills(levels, q)[i];
      && f.price == levels[i].price && f.cost == f.qty * f.price && 0.0 <= f.qty <= levels[i].qty
      && (i < |Fills(levels, q)| - 1 ==> f.qty == levels[i].qty)
  {
    hide Times;
    var f, tail := Min(q, levels[0].qty), levels[1..];
    assert Fills(levels, q)[1..] == Fills(tail, q - f);
    if i > 0 {
      FillsFollowLevels(tail, q - f, i - 1);
    } else {
      TimesIsProduct(f, levels[0].price);
    }
  }

  /** A level is touched if and only if those before it do not hold the whole quantity. */
  lemma {:induction false} FillsStopWhenDone(levels: seq<Level>, q: real, i: nat)
    requires NonNegative(levels) && i < |levels|
    ensures i < |Fills(levels, q)| <==> q > Depth(levels[..i])
  {
    hide Times;
    var f, tail := Min(q, levels[0].qty), levels[1..];
    if i > 0 {
      assert levels[..i][0] == levels[0] && levels[..i][1..] == tail[..i - 1];
      DepthNonNegative(tail[..i - 1]);
      FillsStopWhenDone(tail, q - f, i - 1);
    }
  }

  // ----- Allocations --------------------------------------------------------

  function Sum(alloc: seq<real>): real {
    if alloc == [] then 0.0 else alloc[0] + Sum(alloc[1..])
  }

  /** `alloc` asks each level for at most what it offers. */
  predicate Allocation(levels: seq<Level>, alloc: seq<real>) {
    |alloc| == |levels| && forall i :: 0 <= i < |alloc| ==> 0.0 <= alloc[i] <= levels[i].qty
  }

  function AllocationCost(levels: seq<Level>, alloc: seq<real>): real
    requires |alloc| == |levels|
  {
    if levels == [] then 0.0
    else Times(alloc[0], levels[0].price) + AllocationCost(levels[1..], alloc[1..])
  }

  /** The allocation the walk makes: its fills, then nothing from the untouched levels. */
  function WalkAllocation(levels: seq<Level>, q: real): seq<real> {
    if levels == [] then []
    else
      var f := if q <= 0.0 then 0.0 else Min(q, levels[0].qty);
      [f] + WalkAllocation(levels[1..], q - f)
  }

  lemma {:induction false} WalkAllocates(levels: seq<Level>, q: real)
    requires NonNegative(levels)
    ensures Allocation(levels, WalkAllocation(levels, q))
    ensures Sum(WalkAllocation(levels, q)) == Taken(levels, q)
    ensures AllocationCost(levels, WalkAllocation(levels, q)) == Cost(levels, q)
  {
    hide Times;
    if levels != [] {
      var f := if q <= 0.0 then 0.0 else Min(q, levels[0].qty);
      TimesZero(levels[0].price);
      WalkAllocates(levels[1..], q - f);
      var a := WalkAllocation(levels, q);
      assert a[1..] == WalkAllocation(levels[1..], q - f);
    }
  }

  lemma {:induction false} AllocationBounds(levels: seq<Level>, alloc: seq<real>)
    requires Allocation(levels, alloc)
    ensures 0.0 <= Sum(alloc) <= Depth(levels)
  {
    if levels != [] {
      AllocationBounds(levels[1..], alloc[1..]);
    }
  }

  // ----- Costs grow at least at the cheapest price ---------------------------

  predicate AtLeast(levels: seq<Level>, p: real) {
    forall i :: 0 <= i < |levels| ==> p <= levels[i].price
  }

  lemma CostOfFirst(levels: seq<Level>, q: real)
    requires NonNegative(levels) && levels != [] && q >= levels[0].qty
    ensures Cost(levels, q) == Times(levels[0].qty, levels[0].price) + Cost(levels[1..], q - levels[0].qty)
  {
    hide Times;
    TimesZero(levels[0].price);
  }

  lemma CostWithinFirst(levels: seq<Level>, q: real)
    requires NonNegative(levels) && levels != [] && 0.0 <= q <= levels[0].qty
    ensures Cost(levels, q) == Times(q, levels[0].price)
  {
  }

  lemma CostOfNothing(levels: seq<Level>)
    ensures Cost(levels, 0.0) == 0.0
  {
  }

  lemma {:induction false} CostSlope(levels: seq<Level>, p: real, x: real, y: real)
    requires NonNegative(levels) && AtLeast(levels, p)
    requires 0.0 <= x <= y <= Depth(levels)
    ensures Cost(levels, y) - Cost(levels, x) >= Times(y - x, p)
  {
    hide Times, Cost;
    if levels == [] {
      TimesZero(p);
    } else {
      var l0, p0, tail := levels[0].qty, levels[0].price, levels[1..];
      assert p <= p0;
      if x >= l0 {
        CostOfFirst(levels, x);
        CostOfFirst(levels, y);
        CostSlope(tail, p, x - l0, y - l0);
      } else if y >= l0 {
        CostOfFirst(levels, y);
        CostWithinFirst(levels, x);
        CostOfNothing(tail);
        CostSlope(tail, p, 0.0, y - l0);
        TimesDiff(l0, x, p0);
        TimesMono(p, p0, l0 - x);
        TimesSum(l0 - x, y - l0, p);
      } else {
        CostWithinFirst(levels, x);
        CostWithinFirst(levels, y);
        TimesDiff(y, x, p0);
        TimesMono(p, p0, y - x);
      }
    }
  }

  // ----- Optimality ---------------------------------------------------------

  lemma AscendingTail(levels: seq<Level>)
    requires Ascending(levels) && levels != []
    ensures Ascending(levels[1..]) && AtLeast(levels[1..], levels[0].price) && AtLeast(levels, levels[0].price)
  {
  }

  /** Any way of taking a total out of ascending levels costs at least what the walk pays for it. */
  lemma {:induction false} GreedyIsCheapest(levels: seq<Level>, alloc: seq<real>)
    requires NonNegative(levels) && Ascending(levels) && Allocation(levels, alloc)
    ensures AllocationCost(levels, alloc) >= Cost(levels, Sum(alloc))
  {
    hide Times, Cost;
    if levels == [] {
      CostOfNothing(levels);
    } else {
      var l0, p0, tail := levels[0].qty, levels[0].price, levels[1..];
      var a0, rest, t := alloc[0], alloc[1..], Sum(alloc);
      AscendingTail(levels);
      AllocationBounds(tail, rest);
      GreedyIsCheapest(tail, rest);
      CostOfNothing(tail);
      if t <= l0 {
        CostWithinFirst(levels, t);
        CostSlope(tail, p0, 0.0, t - a0);
        TimesSum(a0, t - a0, p0);
      } else {
        CostOfFirst(levels, t);
        CostSlope(tail, p0, t - l0, t - a0);
        TimesDiff(l0, a0, p0);
      }
    }
  }

  // ----- Averages -----------------------------------------------------------

  /** The price of the last unit that a walk for `x` takes. */
  function MarginalPrice(levels: seq<Level>, x: real): real
    requires levels != []
  {
    if x <= levels[0].qty || |levels| == 1 then levels[0].price
    else MarginalPrice(levels[1..], x - levels[0].qty)
  }

  /** Units taken so far cost the marginal price at most; later units cost it at least. */
  lemma {:induction false} MarginalPriceBounds(levels: seq<Level>, x: real, y: real)
    requires NonNegative(levels) && Ascending(levels) && 0.0 < x <= y <= Depth(levels) && levels != []
    ensures levels[0].price <= MarginalPrice(levels, x)
    ensures Cost(levels, x) <= Times(x, MarginalPrice(levels, x))
    ensures Cost(levels, y) - Cost(levels, x) >= Times(y - x, MarginalPrice(levels, x))
  {
    hide Times, Cost;
    var l0, p0, tail := levels[0].qty, levels[0].price, levels[1..];
    AscendingTail(levels);
    if x <= l0 {
      CostWithinFirst(levels, x);
      CostSlope(levels, p0, x, y);
    } else {
      var m := MarginalPrice(levels, x);
      MarginalPriceBounds(tail, x - l0, y - l0);
      CostOfFirst(levels, x);
      CostOfFirst(levels, y);
      TimesMono(p0, m, l0);
      TimesSum(l0, x - l0, m);
    }
  }

  /** The average paid for `x` is at most the average paid for `y`, without dividing. */
  lemma CostRatio(levels: seq<Level>, x: real, y: real)
    requires NonNegative(levels) && Ascending(levels) && 0.0 < x <= y <= Depth(levels)
    ensures Times(Cost(levels, x), y) <= Times(Cost(levels, y), x)
  {
    hide Times, Cost;
    var m := MarginalPrice(levels, x);
    MarginalPriceBounds(levels, x, y);
    TimesCommutes(x, m);
    TimesCommutes(y - x, m);
    RatioGrows(Cost(levels, x), Cost(levels, y), m, x, y);
  }

  /** Costs are superadditive: one large walk costs at least two separate small ones. */
  lemma CostSuperadditive(levels: seq<Level>, a: real, b: real)
    requires NonNegative(levels) && Ascending(levels) && 0.0 <= a && 0.0 <= b && a + b <= Depth(levels)
    ensures Cost(levels, a + b) >= Cost(levels, a) + Cost(levels, b)
  {
    hide Times, Cost;
    CostOfNothing(levels);
    if a > 0.0 && b > 0.0 {
      var c := Cost(levels, a + b);
      CostRatio(levels, a, a + b);
      CostRatio(levels, b, a + b);
      TimesSum(a, b, c);
      TimesSum(Cost(levels, a), Cost(levels, b), a + b);
      if Cost(levels, a) + Cost(levels, b) > c {
        TimesStrict(c, Cost(levels, a) + Cost(levels, b), a + b);
      }
    }
  }

  // ----- What is left after a walk ----------------------------------------------

  function Residual(levels: seq<Level>, a: real): seq<Level> {
    if levels == [] || a <= 0.0 then levels
    else if levels[0].qty <= a then Residual(levels[1..], a - levels[0].qty)
    else [Level(levels[0].price, levels[0].qty - a)] + levels[1..]
  }

  /** Walking `a` and then `b` on what is left is walking `a + b`. */
  lemma {:induction false} WalkSplits(levels: seq<Level>, a: real, b: real)
    requires NonNegative(levels) && 0.0 <= a && 0.0 <= b
    ensures NonNegative(Residual(levels, a))
    ensures Taken(levels, a + b) == Taken(levels, a) + Taken(Residual(levels, a), b)
    ensures Cost(levels, a + b) == Cost(levels, a) + Cost(Residual(levels, a), b)
  {
    hide Times;
    if levels != [] && a > 0.0 {
      var l0, p0, tail := levels[0].qty, levels[0].price, levels[1..];
      TimesZero(p0);
      if l0 <= a {
        WalkSplits(tail, a - l0, b);
        assert a + b - l0 == a - l0 + b;
      } else {
        var g := Min(b, l0 - a);
        TimesSum(a, g, p0);
        var rest := Residual(levels, a);
        assert rest[1..] == tail;
        assert Min(a + b, l0) == a + g;
      }
    }
  }

  // ----- Depth within a band ------------------------------------------------------

  /** On ascending levels the early stop loses nothing. */
  lemma {:induction false} EarlyStopIsExact(levels: seq<Level>, best: real, threshold: real)
    requires Ascending(levels)
    ensures DepthUntil(levels, Buy, best, threshold) == DepthWithin(levels, Buy, best, threshold)
  {
    if levels != [] {
      AscendingTail(levels);
      EarlyStopIsExact(levels[1..], best, threshold);
    }
  }

  /** Up to the depth within the band, every unit costs at most the edge of the band. */
  lemma {:induction false} CostWithinBand(levels: seq<Level>, best: real, threshold: real, q: real)
    requires NonNegative(levels)
    requires 0.0 <= q <= DepthUntil(levels, Buy, best, threshold)
    ensures Taken(levels, q) == q
    ensures Cost(levels, q) <= Times(q, best + threshold)
  {
    hide Times, Cost;
    var edge := best + threshold;
    TimesZero(edge);
    CostOfNothing(levels);
    if levels != [] && q > 0.0 {
      var l0, p0, tail := levels[0].qty, levels[0].price, levels[1..];
      if q <= l0 {
        CostWithinFirst(levels, q);
        TimesMono(p0, edge, q);
      } else {
        CostOfFirst(levels, q);
        CostWithinBand(tail, best, threshold, q - l0);
        TimesMono(p0, edge, l0);
        TimesSum(l0, q - l0, edge);
      }
    }
  }

  /** Every unit that the fills take is priced within the band. */
  predicate FillsWithin(fills: seq<FillLevel>, edge: real) {
    forall i :: 0 <= i < |fills| && fills[i].qty > 0.0 ==> fills[i].price <= edge
  }

  /** The depth within the band is exactly the most that can be taken without leaving it. */
  lemma {:induction false} BandIsTight(levels: seq<Level>, best: real, threshold: real, q: real)
    requires NonNegative(levels) && Ascending(levels) && 0.0 <= q <= Depth(levels)
    ensures q <= DepthUntil(levels, Buy, best, threshold) <==> FillsWithin(Fills(levels, q), best + threshold)
  {
    hide Times;
    DepthUntilNonNegative(levels, best, threshold);
    if levels != [] && q > 0.0 {
      var l0, tail := levels[0].qty, levels[1..];
      var f := Min(q, l0);
      AscendingTail(levels);
      DepthNonNegative(tail);
      BandIsTight(tail, best, threshold, q - f);
      var fills, rest := Fills(levels, q), Fills(tail, q - f);
      assert fills[0].qty == f && fills[0].price == levels[0].price;
      assert forall i :: 0 <= i < |rest| ==> rest[i] == fills[i + 1];
      DepthUntilNonNegative(tail, best, threshold);
      assert FillsWithin(fills, best + threshold)
        <==> (f > 0.0 ==> levels[0].price <= best + threshold) && FillsWithin(rest, best + threshold);
      if levels[0].price > best + threshold && f <= 0.0 {
        assert DepthUntil(tail, Buy, best, threshold) == 0.0 by {
          if tail != [] {
            assert tail[0].price >= levels[0].price;
          }
        }
      }
    }
  }

  lemma {:induction false} DepthUntilNonNegative(levels: seq<Level>, best: real, threshold: real)
    requires NonNegative(levels)
    ensures 0.0 <= DepthUntil(levels, Buy, best, threshold) <= Depth(levels)
  {
    DepthNonNegative(levels);
    if levels != [] {
      DepthNonNegative(levels[1..]);
      DepthUntilNonNegative(levels[1..], best, threshold);
    }
  }
}
