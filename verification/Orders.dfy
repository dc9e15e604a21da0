/**
 Normalising a limit order to an exchange's filters: quantity and price are cut down to their
 grids and then checked. Decimals are exact reals; the conversions from floating point are
 inputs that may fail.
 */
module Orders {
  import opened Options
  import opened RealArith

  datatype Filters = Filters(
    stepSize: Option<real>,
    tickSize: Option<real>,
    minQty: Option<real>,
    maxQty: Option<real>,
    minPrice: Option<real>,
    maxPrice: Option<real>,
    minNotional: Option<real>)

  datatype Order = Order(quantity: real, price: real)

  datatype Rejection =
    | InvalidQuantity | InvalidPrice
    | ZeroQuantity | ZeroPrice
    | BelowMinQty | AboveMaxQty | BelowMinPrice | AboveMaxPrice
    | BelowMinNotional

  /** The integer part, towards zero. */
  function Trunc(x: real): int {
    if x >= 0.0 then x.Floor else -((-x).Floor)
  }

  function FloorToStep(value: real, step: real): real {
    if step <= 0.0 then value else Trunc(value / step) as real * step
  }

  function ToGrid(value: real, step: Option<real>): real {
    if step.Some? then FloorToStep(value, step.value) else value
  }

  predicate AtLeast(x: real, min: Option<real>) {
    min.Some? ==> x >= min.value
  }

  predicate AtMost(x: real, max: Option<real>) {
    max.Some? ==> x <= max.value
  }

  function NormalizeLimitOrder(amount: Option<real>, price: Option<real>, f: Filters): Result<Order, Rejection> {
    if amount.None? then Err(InvalidQuantity)
    else if price.None? then Err(InvalidPrice)
    else
      var q := ToGrid(amount.value, f.stepSize);
      var p := ToGrid(price.value, f.tickSize);
      if q <= 0.0 then Err(ZeroQuantity)
      else if p <= 0.0 then Err(ZeroPrice)
      else if !AtLeast(q, f.minQty) then Err(BelowMinQty)
      else if !AtMost(q, f.maxQty) then Err(AboveMaxQty)
      else if !AtLeast(p, f.minPrice) then Err(BelowMinPrice)
      else if !AtMost(p, f.maxPrice) then Err(AboveMaxPrice)
      else if !AtLeast(q * p, f.minNotional) then Err(BelowMinNotional)
      else Ok(Order(q, p))
  }

  // ----- Grids ------------------------------------------------------------------------------

  /** `x` is a whole number of steps; without a positive step every value is. */
  ghost predicate OnGrid(x: real, step: Option<real>) {
    step.None? || step.value <= 0.0 || exists k: int :: IsMultiple(x, k, step.value)
  }

  predicate IsMultiple(x: real, k: int, step: real) {
    x == k as real * step
  }

  /** Cutting a non-negative value to the grid gives the greatest grid value at or below it. */
  lemma FloorIsGreatest(value: real, step: Option<real>, x: real)
    requires value >= 0.0
    ensures OnGrid(ToGrid(value, step), step)
    ensures 0.0 <= ToGrid(value, step) <= value
    ensures OnGrid(x, step) && x <= value ==> x <= ToGrid(value, step)
  {
    if step.Some? && step.value > 0.0 {
      var s := step.value;
      var ratio := value / s;
      DivMul(value, s);
      NonNegativeQuotient(value, s);
      var k := ratio.Floor;
      assert IsMultiple(ToGrid(value, step), k, s);
      MulMono(k as real, ratio, s);
      MulMono(0.0, k as real, s);
      if OnGrid(x, step) && x <= value {
        var j: int :| IsMultiple(x, j, s);
        if j > k {
          assert j as real > ratio;
          MulStrict(ratio, j as real, s);
        }
        MulMono(j as real, k as real, s);
      }
    }
  }

  /** Values on the grid are left alone. */
  lemma GridIsFixed(x: real, step: Option<real>)
    requires x >= 0.0 && OnGrid(x, step)
    ensures ToGrid(x, step) == x
  {
  }

  // ----- Accepted orders -----------------------------------------------------------------------

  predicate MeetsFilters(o: Order, f: Filters) {
    && o.quantity > 0.0 && o.price > 0.0
    && AtLeast(o.quantity, f.minQty) && AtMost(o.quantity, f.maxQty)
    && AtLeast(o.price, f.minPrice) && AtMost(o.price, f.maxPrice)
    && AtLeast(o.quantity * o.price, f.minNotional)
  }

  /** An order on both grids, at or below the request. */
  ghost predicate Candidate(o: Order, amount: real, price: real, f: Filters) {
    && 0.0 <= o.quantity <= amount && OnGrid(o.quantity, f.stepSize)
    && 0.0 <= o.price <= price && OnGrid(o.price, f.tickSize)
  }

  /** For positive requests, an accepted order is the greatest candidate and meets every filter. */
  lemma AcceptedIsGreatest(amount: real, price: real, f: Filters, other: Order)
    requires amount > 0.0 && price > 0.0
    requires NormalizeLimitOrder(Some(amount), Some(price), f).Ok?
    ensures var o := NormalizeLimitOrder(Some(amount), Some(price), f).value;
      && Candidate(o, amount, price, f) && MeetsFilters(o, f)
      && (Candidate(other, amount, price, f) ==> other.quantity <= o.quantity && other.price <= o.price)
  {
    hide OnGrid, ToGrid;
    FloorIsGreatest(amount, f.stepSize, other.quantity);
    FloorIsGreatest(price, f.tickSize, other.price);
  }

  /** Normalising an accepted order again returns it unchanged. */
  lemma NormalizingTwice(amount: real, price: real, f: Filters)
    requires amount > 0.0 && price > 0.0
    requires NormalizeLimitOrder(Some(amount), Some(price), f).Ok?
    ensures var o := NormalizeLimitOrder(Some(amount), Some(price), f).value;
      NormalizeLimitOrder(Some(o.quantity), Some(o.price), f) == Ok(o)
  {
    hide OnGrid, ToGrid;
    var o := NormalizeLimitOrder(Some(amount), Some(price), f).value;
    AcceptedIsGreatest(amount, price, f, o);
    GridIsFixed(o.quantity, f.stepSize);
    GridIsFixed(o.price, f.tickSize);
  }

  predicate OverMaximum(amount: real, price: real, f: Filters) {
    !AtMost(ToGrid(amount, f.stepSize), f.maxQty) || !AtMost(ToGrid(price, f.tickSize), f.maxPrice)
  }

  lemma ProductMono(small: Order, large: Order)
    requires 0.0 <= small.quantity <= large.quantity && 0.0 <= small.price <= large.price
    ensures small.quantity * small.price <= large.quantity * large.price
  {
  }

  /** A candidate that meets the filters shows that the greatest one meets every minimum. */
  lemma GreatestMeetsMinimums(amount: real, price: real, f: Filters, o: Order)
    requires amount > 0.0 && price > 0.0 && Candidate(o, amount, price, f) && MeetsFilters(o, f)
    ensures var q, p := ToGrid(amount, f.stepSize), ToGrid(price, f.tickSize);
      q > 0.0 && p > 0.0 && AtLeast(q, f.minQty) && AtLeast(p, f.minPrice) && AtLeast(q * p, f.minNotional)
  {
    hide OnGrid, ToGrid;
    var q, p := ToGrid(amount, f.stepSize), ToGrid(price, f.tickSize);
    FloorIsGreatest(amount, f.stepSize, o.quantity);
    FloorIsGreatest(price, f.tickSize, o.price);
    ProductMono(o, Order(q, p));
  }

  /**
   A positive request is accepted exactly when some candidate meets every filter and the
   request, cut to its grids, does not exceed a maximum. So a rejection for a minimum means that
   nothing at or below the request would have done.
   */
  lemma AcceptedExactly(amount: real, price: real, f: Filters)
    requires amount > 0.0 && price > 0.0
    ensures NormalizeLimitOrder(Some(amount), Some(price), f).Ok? <==>
            !OverMaximum(amount, price, f) && exists o :: Candidate(o, amount, price, f) && MeetsFilters(o, f)
  {
    hide OnGrid, ToGrid;
    if NormalizeLimitOrder(Some(amount), Some(price), f).Ok? {
      var o := NormalizeLimitOrder(Some(amount), Some(price), f).value;
      AcceptedIsGreatest(amount, price, f, o);
      assert Candidate(o, amount, price, f) && MeetsFilters(o, f);
    }
    if o :| Candidate(o, amount, price, f) && MeetsFilters(o, f) {
      GreatestMeetsMinimums(amount, price, f, o);
    }
  }

  /** A rejection for a minimum means that no candidate meets that minimum, whatever the other filters. */
  lemma MinimumRejectionIsFinal(amount: real, price: real, f: Filters, o: Order)
    requires amount > 0.0 && price > 0.0 && Candidate(o, amount, price, f)
    ensures match NormalizeLimitOrder(Some(amount), Some(price), f)
            case Err(ZeroQuantity) => o.quantity <= 0.0
            case Err(ZeroPrice) => o.price <= 0.0
            case Err(BelowMinQty) => !AtLeast(o.quantity, f.minQty)
            case Err(BelowMinPrice) => !AtLeast(o.price, f.minPrice)
            case Err(BelowMinNotional) => !AtLeast(o.quantity * o.price, f.minNotional)
            case _ => true
  {
    hide OnGrid, ToGrid;
    var q, p := ToGrid(amount, f.stepSize), ToGrid(price, f.tickSize);
    FloorIsGreatest(amount, f.stepSize, o.quantity);
    FloorIsGreatest(price, f.tickSize, o.price);
    ProductMono(o, Order(q, p));
  }

  /**
   A rejection for a maximum is true: an on-grid value at or below the request exceeds it. And a
   value that did not convert is reported as such, the quantity first.
   */
  lemma RejectionIsTrue(amount: Option<real>, price: Option<real>, f: Filters)
    requires (amount.Some? ==> amount.value > 0.0) && (price.Some? ==> price.value > 0.0)
    ensures amount.None? <==> NormalizeLimitOrder(amount, price, f) == Err(InvalidQuantity)
    ensures amount.Some? && price.None? <==> NormalizeLimitOrder(amount, price, f) == Err(InvalidPrice)
    ensures match NormalizeLimitOrder(amount, price, f)
            case Err(AboveMaxQty) =>
              f.maxQty.Some? && exists x :: OnGrid(x, f.stepSize) && f.maxQty.value < x <= amount.value
            case Err(AboveMaxPrice) =>
              f.maxPrice.Some? && exists x :: OnGrid(x, f.tickSize) && f.maxPrice.value < x <= price.value
            case _ => true
  {
    hide OnGrid, ToGrid;
    if amount.Some? && price.Some? {
      FloorIsGreatest(amount.value, f.stepSize, 0.0);
      FloorIsGreatest(price.value, f.tickSize, 0.0);
    }
  }

  /** Requests that are not positive are refused whatever the filters. */
  lemma NonPositiveIsRefused(amount: real, price: real, f: Filters)
    requires amount <= 0.0 || price <= 0.0
    ensures NormalizeLimitOrder(Some(amount), Some(price), f).Err?
  {
  }

  // ----- Past a maximum --------------------------------------------------------------------------

  /** Cutting to the grid takes off less than one step. */
  lemma GridIsClose(value: real, step: real)
    requires value >= 0.0 && step > 0.0
    ensures ToGrid(value, Some(step)) > value - step
  {
    var ratio := value / step;
    DivMul(value, step);
    NonNegativeQuotient(value, step);
    assert ratio.Floor as real > ratio - 1.0;
    MulStrict(ratio - 1.0, ratio.Floor as real, step);
  }

  /** A quantity that is over the maximum even after it is cut to the grid. */
  function Oversized(f: Filters): real
    requires f.maxQty.Some?
  {
    f.maxQty.value + 1.0 + (if f.stepSize.Some? && f.stepSize.value > 0.0 then f.stepSize.value else 0.0)
  }

  /**
   A rejection for a maximum is not final: under any filters with a maximum that accept an order
   at all, some larger request is refused although that order is still a candidate for it.
   */
  lemma MaximumRejectionIsNotFinal(amount: real, price: real, f: Filters)
    requires amount > 0.0 && price > 0.0 && f.maxQty.Some?
    requires NormalizeLimitOrder(Some(amount), Some(price), f).Ok?
    ensures var o := NormalizeLimitOrder(Some(amount), Some(price), f).value;
      && NormalizeLimitOrder(Some(Oversized(f)), Some(price), f) == Err(AboveMaxQty)
      && Candidate(o, Oversized(f), price, f) && MeetsFilters(o, f)
  {
    hide OnGrid, ToGrid;
    AcceptedIsGreatest(amount, price, f, Order(0.0, 0.0));
    OversizedStaysOver(f);
  }

  lemma OversizedStaysOver(f: Filters)
    requires f.maxQty.Some? && f.maxQty.value > 0.0
    ensures ToGrid(Oversized(f), f.stepSize) > f.maxQty.value
  {
    if f.stepSize.Some? && f.stepSize.value > 0.0 {
      GridIsClose(Oversized(f), f.stepSize.value);
    }
  }

  /** The request, lowered to the maximum if there is one. */
  function Clamp(x: real, max: Option<real>): real {
    if max.Some? && max.value < x then max.value else x
  }

  /**
   Lowering a request to the maxima before normalising it loses nothing, for any request: it is
   accepted if and only if some candidate meets every filter, and then gives the greatest one.
   */
  lemma ClampedIsExact(amount: real, price: real, f: Filters)
    ensures match NormalizeLimitOrder(Some(Clamp(amount, f.maxQty)), Some(Clamp(price, f.maxPrice)), f)
            case Err(_) => forall o :: Candidate(o, amount, price, f) ==> !MeetsFilters(o, f)
            case Ok(best) =>
              && Candidate(best, amount, price, f) && MeetsFilters(best, f)
              && forall o :: Candidate(o, amount, price, f) && MeetsFilters(o, f) ==>
                   o.quantity <= best.quantity && o.price <= best.price
  {
    hide OnGrid, ToGrid, NormalizeLimitOrder;
    var a, p := Clamp(amount, f.maxQty), Clamp(price, f.maxPrice);
    if a <= 0.0 || p <= 0.0 {
      NonPositiveIsRefused(a, p, f);
    } else {
      AcceptedExactly(a, p, f);
      ClampedFits(a, p, f);
      forall o | Candidate(o, amount, price, f) && MeetsFilters(o, f)
        ensures Candidate(o, a, p, f) && NormalizeLimitOrder(Some(a), Some(p), f).Ok?
      {
      }
      if NormalizeLimitOrder(Some(a), Some(p), f).Ok? {
        forall o | Candidate(o, a, p, f)
          ensures var best := NormalizeLimitOrder(Some(a), Some(p), f).value;
            o.quantity <= best.quantity && o.price <= best.price
        {
          AcceptedIsGreatest(a, p, f, o);
        }
        AcceptedIsGreatest(a, p, f, Order(0.0, 0.0));
      }
    }
  }

  lemma ClampedFits(amount: real, price: real, f: Filters)
    requires amount > 0.0 && price > 0.0 && AtMost(amount, f.maxQty) && AtMost(price, f.maxPrice)
    ensures !OverMaximum(amount, price, f)
  {
    hide OnGrid, ToGrid;
    FloorIsGreatest(amount, f.stepSize, 0.0);
    FloorIsGreatest(price, f.tickSize, 0.0);
  }
}
