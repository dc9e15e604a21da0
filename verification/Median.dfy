/** Aggregating the prices of several sources: sort, then take the median. */
module Median {
  import opened Options
  import opened RealArith
  import opened Sorting

  datatype PriceSource = PriceSource(name: string, price: real)

  /** The estimated spread, as a fraction of the mid price. */
  const ESTIMATED_SPREAD: real := 0.0001

  datatype AggregatedPrice = AggregatedPrice(
    pair: string,
    sources: seq<PriceSource>,
    median: real,
    mean: real,
    bestBid: Option<real>,
    bestAsk: Option<real>,
    midPrice: real)

  /** The median of sorted prices; zero for none. */
  function ComputeMedian(sorted: seq<real>): real {
    if sorted == [] then 0.0
    else
      var n := |sorted|;
      if n % 2 == 1 then sorted[n / 2] else (sorted[n / 2 - 1] + sorted[n / 2]) / 2.0
  }

  function MedianOf(prices: seq<real>): real {
    ComputeMedian(Sort(prices, Self))
  }

  function Total(values: seq<real>): real {
    if values == [] then 0.0 else values[0] + Total(values[1..])
  }

  /** The arithmetic mean; zero for none. */
  function ComputeMean(values: seq<real>): real {
    if values == [] then 0.0 else Total(values) / |values| as real
  }

  function Prices(sources: seq<PriceSource>): seq<real> {
    seq(|sources|, i requires 0 <= i < |sources| => sources[i].price)
  }

  /** The source names in the order they are asked; the order book's mid comes last. */
  const SOURCES: seq<string> := ["binance_ticker", "coingecko", "coincap", "kraken", "cex_orderbook"]

  /** The sources that answered, in order. */
  function Answered(answers: seq<Option<real>>): seq<PriceSource>
    requires |answers| <= |SOURCES|
  {
    if answers == [] then []
    else
      var i := |answers| - 1;
      Answered(answers[..i]) + (if answers[i].Some? then [PriceSource(SOURCES[i], answers[i].value)] else [])
  }

  datatype OracleError = InvalidSymbol | NoSource

  /** The pair has a base and a quote around a single slash. */
  predicate Splits(pair: string) {
    exists i :: 0 < i < |pair| - 1 && SplitsAt(pair, i)
  }

  predicate SplitsAt(pair: string, i: nat)
    requires i < |pair|
  {
    pair[i] == '/' && '/' !in pair[..i] && '/' !in pair[i + 1..]
  }

  /**
   Median and mean are those of the reported prices, in whatever order; with an order-book mid,
   the estimated bid and ask lie around it, apart by the estimated spread.
   */
  predicate Summarizes(r: AggregatedPrice, pair: string, orderbookMid: Option<real>) {
    && r.pair == pair
    && r.median == MedianOf(Prices(r.sources)) && r.mean == ComputeMean(Prices(r.sources))
    && match orderbookMid
       case None => r.bestBid == None && r.bestAsk == None && r.midPrice == r.median
       case Some(mid) =>
         && r.bestBid.Some? && r.bestAsk.Some? && r.midPrice == mid
         && (r.bestBid.value + r.bestAsk.value) / 2.0 == mid
         && r.bestAsk.value - r.bestBid.value == mid * 0.0001
  }

  /**
   Collects what the sources answer and reports the median. It fails exactly on a pair that
   does not split and when no source answers.
   */
  method FetchAggregated(pair: string, answers: seq<Option<real>>, orderbookMid: Option<real>)
    returns (r: Result<AggregatedPrice, OracleError>)
    requires |answers| == 4
    ensures !Splits(pair) <==> r == Err(InvalidSymbol)
    ensures Splits(pair) ==>
      (r == Err(NoSource) <==> forall i :: 0 <= i < 5 ==> (answers + [orderbookMid])[i] == None)
    ensures r.Ok? ==>
      && r.value.sources == Answered(answers + [orderbookMid]) != []
      && Summarizes(r.value, pair, orderbookMid)
  {
    hide Summarizes;
    if !Splits(pair) {
      return Err(InvalidSymbol);
    }
    var all := answers + [orderbookMid];
    var sources := [];
    for i := 0 to 5
      invariant sources == Answered(all[..i])
      invariant sources == [] <==> forall j :: 0 <= j < i ==> all[j] == None
    {
      assert all[..i + 1][..i] == all[..i];
      if all[i].Some? {
        sources := sources + [PriceSource(SOURCES[i], all[i].value)];
      }
    }
    assert all[..5] == all;
    if sources == [] {
      return Err(NoSource);
    }
    var summary := Summarize(pair, sources, orderbookMid);
    r := Ok(summary);
  }

  method Summarize(pair: string, sources: seq<PriceSource>, orderbookMid: Option<real>)
    returns (r: AggregatedPrice)
    ensures r.sources == sources && Summarizes(r, pair, orderbookMid)
  {
    hide Sort, Total;
    var prices := Prices(sources);
    TotalSorted(prices);
    SortCorrect(prices, Self);
    prices := Sort(prices, Self);
    var median, mean := ComputeMedian(prices), ComputeMean(prices);
    var bestBid, bestAsk := None, None;
    if orderbookMid.Some? {
      var mid := orderbookMid.value;
      var spread := mid * ESTIMATED_SPREAD;
      bestBid, bestAsk := Some(mid - spread / 2.0), Some(mid + spread / 2.0);
    }
    var midPrice := if orderbookMid.Some? then orderbookMid.value else median;
    r := AggregatedPrice(pair, sources, median, mean, bestBid, bestAsk, midPrice);
  }

  lemma {:induction false} TotalInsert(x: real, s: seq<real>)
    ensures Total(Insert(x, s, Self)) == x + Total(s)
  {
    if s == [] || x <= s[0] {
      assert ([x] + s)[1..] == s;
    } else {
      var rest := Insert(x, s[1..], Self);
      TotalInsert(x, s[1..]);
      assert ([s[0]] + rest)[1..] == rest;
    }
  }

  /** Sorting does not change the total, so the mean of the sorted prices is the mean of the prices. */
  lemma {:induction false} TotalSorted(s: seq<real>)
    ensures Total(Sort(s, Self)) == Total(s)
  {
    if s != [] {
      TotalSorted(s[1..]);
      TotalInsert(s[0], Sort(s[1..], Self));
    }
  }

  // ----- What the summary says ------------------------------------------------------------------

  /** The pair is made of these two symbols, neither empty, around its only slash. */
  predicate Joins(pair: string, base: string, quote: string) {
    pair == base + "/" + quote && base != "" && quote != "" && '/' !in base && '/' !in quote
  }

  /** A pair splits if and only if it is made of two symbols. */
  lemma SplitsExactly(pair: string)
    ensures Splits(pair) <==> exists base: string, quote: string :: Joins(pair, base, quote)
  {
    hide SplitsAt, Joins;
    if i: nat :| 0 < i < |pair| - 1 && SplitsAt(pair, i) {
      SplitThenJoin(pair, i);
    }
    if base: string, quote: string :| Joins(pair, base, quote) {
      JoinThenSplit(pair, base, quote);
    }
  }

  lemma SplitThenJoin(pair: string, i: nat)
    requires 0 < i < |pair| - 1 && SplitsAt(pair, i)
    ensures Joins(pair, pair[..i], pair[i + 1..])
  {
  }

  lemma JoinThenSplit(pair: string, base: string, quote: string)
    requires Joins(pair, base, quote)
    ensures 0 < |base| < |pair| - 1 && SplitsAt(pair, |base|)
  {
    assert pair[..|base|] == base && pair[|base| + 1..] == quote;
  }

  /** How many of these answers there are. */
  function AnswerCount(answers: seq<Option<real>>): nat {
    |set i | 0 <= i < |answers| && answers[i].Some?|
  }

  lemma AnswerCountNext(answers: seq<Option<real>>, i: nat)
    requires i < |answers|
    ensures AnswerCount(answers[..i + 1]) == AnswerCount(answers[..i]) + (if answers[i].Some? then 1 else 0)
  {
    var before, after := answers[..i], answers[..i + 1];
    var s := set k | 0 <= k < |before| && before[k].Some?;
    var t := set k | 0 <= k < |after| && after[k].Some?;
    assert t == if answers[i].Some? then s + {i} else s;
  }

  /** Every source that answers is listed under its name with its price, at its place among those that do. */
  lemma {:induction false} AnsweredExactly(answers: seq<Option<real>>, i: nat)
    requires |answers| <= 5 && i < |answers|
    ensures |Answered(answers)| == AnswerCount(answers)
    ensures answers[i].Some? ==>
      var place := AnswerCount(answers[..i]);
      && place < |Answered(answers)|
      && Answered(answers)[place] ==
           PriceSource(["binance_ticker", "coingecko", "coincap", "kraken", "cex_orderbook"][i], answers[i].value)
    decreases |answers|
  {
    var last := |answers| - 1;
    var front := answers[..last];
    assert answers[..last + 1] == answers;
    AnswerCountNext(answers, last);
    if front != [] {
      AnsweredExactly(front, if i < last then i else 0);
      assert i < last ==> answers[..i] == front[..i];
    } else {
      assert AnswerCount(front) == 0;
    }
  }

  /** The mean of all prices weighs the means of two parts by their sizes; a lone price is its own mean. */
  lemma MeanPools(a: seq<real>, b: seq<real>, x: real)
    ensures ComputeMean(a + b) * |a + b| as real == ComputeMean(a) * |a| as real + ComputeMean(b) * |b| as real
    ensures ComputeMean([x]) == x
  {
    hide Total;
    TotalConcat(a, b);
    MeanTimes(a);
    MeanTimes(b);
    MeanTimes(a + b);
    assert Total([x]) == x by {
      TotalOne(x);
    }
  }

  lemma MeanTimes(values: seq<real>)
    ensures ComputeMean(values) * |values| as real == Total(values)
  {
    if values != [] {
      DivMul(Total(values), |values| as real);
    }
  }

  lemma TotalOne(x: real)
    ensures Total([x]) == x
  {
    assert Total([x][1..]) == 0.0;
  }

  lemma {:induction false} TotalConcat(a: seq<real>, b: seq<real>)
    ensures Total(a + b) == Total(a) + Total(b)
  {
    if a == [] {
      assert a + b == b;
    } else {
      assert (a + b)[1..] == a[1..] + b;
      TotalConcat(a[1..], b);
    }
  }

  /** However the prices are put in order, the median lies halfway between the middle ones. */
  lemma MedianIsTheMiddle(prices: seq<real>, ordered: seq<real>)
    requires prices != [] && multiset(ordered) == multiset(prices)
    requires forall i, j :: 0 <= i < j < |ordered| ==> ordered[i] <= ordered[j]
    ensures |ordered| == |prices|
    ensures 2.0 * MedianOf(prices) == ordered[(|ordered| - 1) / 2] + ordered[|ordered| / 2]
  {
    hide Sort;
    assert |ordered| == |multiset(ordered)| == |multiset(prices)| == |prices|;
    SortCorrect(prices, Self);
    SortedUnique(Sort(prices, Self), ordered);
  }

  // ----- Order does not matter ------------------------------------------------------------------

  /** The median depends on which prices are reported, not on the order of the sources. */
  lemma MedianIgnoresOrder(a: seq<real>, b: seq<real>)
    requires multiset(a) == multiset(b)
    ensures MedianOf(a) == MedianOf(b)
  {
    hide Sort;
    SortCorrect(a, Self);
    SortCorrect(b, Self);
    SortedUnique(Sort(a, Self), Sort(b, Self));
  }

  // ----- Robustness ---------------------------------------------------------------------------------

  predicate In(x: real, lo: real, hi: real) {
    lo <= x <= hi
  }

  function CountIn(s: seq<real>, lo: real, hi: real): nat {
    if s == [] then 0 else (if In(s[0], lo, hi) then 1 else 0) + CountIn(s[1..], lo, hi)
  }

  lemma {:induction false} CountConcat(a: seq<real>, b: seq<real>, lo: real, hi: real)
    ensures CountIn(a + b, lo, hi) == CountIn(a, lo, hi) + CountIn(b, lo, hi)
  {
    if a == [] {
      assert a + b == b;
    } else {
      assert (a + b)[1..] == a[1..] + b;
      CountConcat(a[1..], b, lo, hi);
    }
  }

  lemma {:induction false} CountInsert(x: real, s: seq<real>, lo: real, hi: real)
    ensures CountIn(Insert(x, s, Self), lo, hi) == CountIn([x] + s, lo, hi)
  {
    assert ([x] + s)[1..] == s;
    if s != [] && x > s[0] {
      var rest := Insert(x, s[1..], Self);
      CountInsert(x, s[1..], lo, hi);
      assert ([s[0]] + rest)[1..] == rest;
      assert ([x] + s[1..])[1..] == s[1..];
    }
  }

  lemma {:induction false} CountSorted(s: seq<real>, lo: real, hi: real)
    ensures CountIn(Sort(s, Self), lo, hi) == CountIn(s, lo, hi)
  {
    if s != [] {
      var rest := Sort(s[1..], Self);
      CountSorted(s[1..], lo, hi);
      CountInsert(s[0], rest, lo, hi);
      assert ([s[0]] + rest)[1..] == rest;
    }
  }

  /** At most the elements of a list can count, and none when all are outside. */
  lemma {:induction false} CountBounds(s: seq<real>, lo: real, hi: real)
    ensures CountIn(s, lo, hi) <= |s|
    ensures (forall i :: 0 <= i < |s| ==> !In(s[i], lo, hi)) ==> CountIn(s, lo, hi) == 0
  {
    if s != [] {
      CountBounds(s[1..], lo, hi);
    }
  }

  /** In a sorted list, an element below the range puts all earlier ones below it too. */
  lemma BelowExcludes(s: seq<real>, k: nat, lo: real, hi: real)
    requires SortedBy(s, Self) && k < |s| && s[k] < lo
    ensures CountIn(s, lo, hi) <= |s| - k - 1
  {
    var front, back := s[..k + 1], s[k + 1..];
    assert s == front + back;
    CountConcat(front, back, lo, hi);
    CountBounds(back, lo, hi);
    forall i | 0 <= i < |front|
      ensures !In(front[i], lo, hi)
    {
      assert i < k ==> Self(s[i]) <= Self(s[k]);
    }
    CountBounds(front, lo, hi);
  }

  lemma AboveExcludes(s: seq<real>, k: nat, lo: real, hi: real)
    requires SortedBy(s, Self) && k < |s| && s[k] > hi
    ensures CountIn(s, lo, hi) <= k
  {
    var front, back := s[..k], s[k..];
    assert s == front + back;
    CountConcat(front, back, lo, hi);
    CountBounds(front, lo, hi);
    forall i | 0 <= i < |back|
      ensures !In(back[i], lo, hi)
    {
      assert 0 < i ==> Self(s[k]) <= Self(s[k + i]);
    }
    CountBounds(back, lo, hi);
  }

  /** If more than half of the prices lie in a range, so does the median. */
  lemma MajorityBoundsMedian(prices: seq<real>, lo: real, hi: real)
    requires 2 * CountIn(prices, lo, hi) > |prices|
    ensures In(MedianOf(prices), lo, hi)
  {
    hide Sort, CountIn;
    var s := Sort(prices, Self);
    SortCorrect(prices, Self);
    CountSorted(prices, lo, hi);
    CountBounds(prices, lo, hi);
    var n := |s|;
    var k := if n % 2 == 1 then n / 2 else n / 2 - 1;
    if s[k] < lo {
      BelowExcludes(s, k, lo, hi);
    }
    if s[n / 2] > hi {
      AboveExcludes(s, n / 2, lo, hi);
    }
    assert k < n / 2 ==> Self(s[k]) <= Self(s[n / 2]);
  }

  // ----- Half is not enough ----------------------------------------------------------------------------

  function Copies(x: real, k: nat): seq<real> {
    seq(k, _ => x)
  }

  lemma CopiesLast(s: seq<real>, x: real, k: nat)
    requires SortedBy(s, Self) && forall i :: 0 <= i < |s| ==> s[i] <= x
    ensures SortedBy(s + Copies(x, k), Self)
  {
    var all := s + Copies(x, k);
    forall i, j | 0 <= i < j < |all|
      ensures Self(all[i]) <= Self(all[j])
    {
      assert j < |s| ==> Self(s[i]) <= Self(s[j]);
    }
  }

  /**
   The majority is needed: whatever the honest prices, as many outliers can always be chosen to
   push the median above the range.
   */
  lemma OutliersMoveMedian(honest: seq<real>, k: nat, lo: real, hi: real)
    requires honest != [] && k >= |honest|
    requires forall i :: 0 <= i < |honest| ==> In(honest[i], lo, hi)
    ensures MedianOf(honest + Copies(2.0 * hi - lo + 2.0, k)) > hi
  {
    hide Sort, SortedBy;
    var x := 2.0 * hi - lo + 2.0;
    var h := Sort(honest, Self);
    SortCorrect(honest, Self);
    forall i | 0 <= i < |h|
      ensures In(h[i], lo, hi)
    {
      assert h[i] in multiset(h);
      assert h[i] in multiset(honest);
    }
    assert In(honest[0], lo, hi);
    var s := h + Copies(x, k);
    var prices := honest + Copies(x, k);
    CopiesLast(h, x, k);
    assert multiset(s) == multiset(prices);
    SortCorrect(prices, Self);
    SortedUnique(Sort(prices, Self), s);
    var n := |s|;
    assert s[n / 2] == x;
    if n % 2 == 0 {
      assert In(s[n / 2 - 1], lo, hi) || s[n / 2 - 1] == x;
    }
  }
}
