/**
 From a fee history to a transaction request: averaged priority fees, the buffered maximum
 fee, and the request check, all in 256-bit integers that saturate.
 */
module Fees {
  import opened NatArith
  import opened Options

  const U256_MAX: nat := 0xFFFFFFFFFFFFFFFF_FFFFFFFFFFFFFFFF_FFFFFFFFFFFFFFFF_FFFFFFFFFFFFFFFF
  const BPS_SCALE: nat := 10_000
  const MIN_GAS_BUFFER_BPS: nat := 10_000
  const DEFAULT_GAS_BUFFER_BPS: nat := 12_000
  const MIN_GAS_LIMIT: nat := 21_000

  type u256 = x: nat | x <= U256_MAX

  function Saturate(x: nat): u256 {
    Least(x, U256_MAX)
  }

  function SaturatingAdd(x: u256, y: u256): u256 {
    Saturate(x + y)
  }

  // ----- Averages -----------------------------------------------------------------------

  /** The saturating sum, added up from the left. */
  function SaturatingSum(values: seq<u256>): u256 {
    if values == [] then 0 else SaturatingAdd(SaturatingSum(values[..|values| - 1]), values[|values| - 1])
  }

  function AverageU256(values: seq<u256>): Option<u256> {
    if values == [] then None else Some(SaturatingSum(values) / |values|)
  }

  // ----- Gas prices from the fee history ---------------------------------------------------

  datatype GasPrice = GasPrice(baseFee: u256, low: u256, medium: u256, high: u256)

  /** The rows that carry all three percentiles. */
  function FullRows(rewards: seq<seq<u256>>): seq<seq<u256>> {
    if rewards == [] then []
    else FullRows(rewards[..|rewards| - 1]) + (if |rewards[|rewards| - 1]| >= 3 then [rewards[|rewards| - 1]] else [])
  }

  predicate AllFull(rows: seq<seq<u256>>) {
    forall i :: 0 <= i < |rows| ==> |rows[i]| >= 3
  }

  function Column(rows: seq<seq<u256>>, c: nat): seq<u256>
    requires c < 3 && AllFull(rows)
  {
    seq(|rows|, i requires 0 <= i < |rows| => rows[i][c])
  }

  /** Exactly the rows with three percentiles are kept, each as often as it occurs. */
  lemma {:induction false} FullRowsExactly(rewards: seq<seq<u256>>, row: seq<u256>)
    ensures multiset(FullRows(rewards))[row] == if |row| >= 3 then multiset(rewards)[row] else 0
  {
    if rewards != [] {
      var front := rewards[..|rewards| - 1];
      FullRowsExactly(front, row);
      assert rewards == front + [rewards[|rewards| - 1]];
    }
  }

  /** They keep their order. */
  lemma {:induction false} FullRowsConcat(a: seq<seq<u256>>, b: seq<seq<u256>>)
    ensures FullRows(a + b) == FullRows(a) + FullRows(b)
  {
    if b == [] {
      assert a + b == a;
    } else {
      var front := b[..|b| - 1];
      assert (a + b)[..|a + b| - 1] == a + front;
      FullRowsConcat(a, front);
    }
  }

  lemma SomeRowIsFull(rewards: seq<seq<u256>>)
    ensures FullRows(rewards) != [] <==> exists i :: 0 <= i < |rewards| && |rewards[i]| >= 3
  {
    hide FullRows;
    if i :| 0 <= i < |rewards| && |rewards[i]| >= 3 {
      assert rewards[i] in multiset(rewards);
      FullRowsExactly(rewards, rewards[i]);
    }
    if FullRows(rewards) != [] {
      var row := FullRows(rewards)[0];
      assert row in multiset(FullRows(rewards));
      FullRowsExactly(rewards, row);
      assert row in rewards;
    }
  }

  method GasPriceFromFeeHistory(baseFees: seq<u256>, rewards: seq<seq<u256>>) returns (r: Option<GasPrice>)
    ensures AllFull(FullRows(rewards))
    ensures r.Some? <==> baseFees != [] && exists i :: 0 <= i < |rewards| && |rewards[i]| >= 3
    ensures r.Some? ==>
      var rows := FullRows(rewards);
      && r.value.baseFee == baseFees[|baseFees| - 1]
      && Some(r.value.low) == AverageU256(Column(rows, 0))
      && Some(r.value.medium) == AverageU256(Column(rows, 1))
      && Some(r.value.high) == AverageU256(Column(rows, 2))
  {
    hide SaturatingSum;
    FullRowsAreFull(rewards);
    SomeRowIsFull(rewards);
    if baseFees == [] {
      return None;
    }
    var baseFee := baseFees[|baseFees| - 1];
    var low, medium, high := [], [], [];
    for i := 0 to |rewards|
      invariant AllFull(FullRows(rewards[..i]))
      invariant low == Column(FullRows(rewards[..i]), 0)
      invariant medium == Column(FullRows(rewards[..i]), 1)
      invariant high == Column(FullRows(rewards[..i]), 2)
    {
      var row := rewards[i];
      assert rewards[..i + 1][..i] == rewards[..i];
      if |row| >= 3 {
        low, medium, high := low + [row[0]], medium + [row[1]], high + [row[2]];
      }
    }
    assert rewards[..|rewards|] == rewards;
    var l, m, h := AverageU256(low), AverageU256(medium), AverageU256(high);
    if l.None? || m.None? || h.None? {
      return None;
    }
    r := Some(GasPrice(baseFee, l.value, m.value, h.value));
  }

  lemma {:induction false} FullRowsAreFull(rewards: seq<seq<u256>>)
    ensures AllFull(FullRows(rewards))
  {
    if rewards != [] {
      FullRowsAreFull(rewards[..|rewards| - 1]);
    }
  }

  /** The fallback when no fee history is available: fixed fractions of the legacy gas price. */
  function LegacyGasPrice(blockBaseFee: Option<u256>, gasPrice: u256): GasPrice {
    GasPrice(if blockBaseFee.Some? then blockBaseFee.value else gasPrice, gasPrice / 4, gasPrice / 2, gasPrice)
  }

  // ----- The maximum fee ------------------------------------------------------------------------

  datatype GasPriority = Low | Medium | High

  function PriorityFee(gas: GasPrice, priority: GasPriority): u256 {
    match priority
    case Low => gas.low
    case Medium => gas.medium
    case High => gas.high
  }

  function EffectiveBuffer(bufferBps: nat): nat {
    if bufferBps >= MIN_GAS_BUFFER_BPS then bufferBps else DEFAULT_GAS_BUFFER_BPS
  }

  /** The base fee times the buffer, rounded up; the largest value when a product or sum overflows. */
  function BufferedBase(baseFee: u256, buffer: nat): u256 {
    var numerator := Saturate(baseFee * buffer);
    if numerator + (BPS_SCALE - 1) <= U256_MAX then (numerator + (BPS_SCALE - 1)) / BPS_SCALE else U256_MAX
  }

  function GetMaxFee(gas: GasPrice, priority: GasPriority, bufferBps: nat): u256 {
    SaturatingAdd(BufferedBase(gas.baseFee, EffectiveBuffer(bufferBps)), PriorityFee(gas, priority))
  }

  // ----- Requests -----------------------------------------------------------------------------------

  datatype Request = Request(chainId: nat, gasLimit: Option<nat>, maxFee: Option<u256>, maxPriorityFee: Option<u256>)

  datatype RequestError = ZeroChainId | GasLimitTooLow | PriorityExceedsMax

  function Validate(r: Request): Result<(), RequestError> {
    if r.chainId == 0 then Err(ZeroChainId)
    else if r.gasLimit.Some? && r.gasLimit.value < MIN_GAS_LIMIT then Err(GasLimitTooLow)
    else if r.maxFee.Some? && r.maxPriorityFee.Some? && r.maxPriorityFee.value > r.maxFee.value
    then Err(PriorityExceedsMax)
    else Ok(())
  }

  function WithGasPrice(r: Request, gas: GasPrice, priority: GasPriority): Request {
    r.(maxFee := Some(GetMaxFee(gas, priority, DEFAULT_GAS_BUFFER_BPS)),
       maxPriorityFee := Some(PriorityFee(gas, priority)))
  }

  // ----- Theorems ------------------------------------------------------------------------------------

  function Sum(values: seq<nat>): nat {
    if values == [] then 0 else Sum(values[..|values| - 1]) + values[|values| - 1]
  }

  /** Saturating at every addition is saturating once at the end. */
  lemma {:induction false} SaturatesOnce(values: seq<u256>)
    ensures SaturatingSum(values) == Saturate(Sum(values))
  {
    if values != [] {
      SaturatesOnce(values[..|values| - 1]);
    }
  }

  /** The average never exceeds the true mean, and is its integer part while the sum fits. */
  lemma AverageOfSum(values: seq<u256>)
    requires values != []
    ensures AverageU256(values).value <= Sum(values) / |values|
    ensures Sum(values) <= U256_MAX ==> AverageU256(values).value == Sum(values) / |values|
  {
    hide Sum, SaturatingSum;
    SaturatesOnce(values);
    DivMono(SaturatingSum(values), Sum(values), |values|);
  }

  lemma {:induction false} SumOfEqual(values: seq<u256>, x: u256)
    requires forall i :: 0 <= i < |values| ==> values[i] == x
    ensures Sum(values) == |values| * x
  {
    if values != [] {
      SumOfEqual(values[..|values| - 1], x);
    }
  }

  /** Adding up `n` times `x` does not saturate. */
  predicate Fits(n: nat, x: nat) {
    n * x <= U256_MAX
  }

  lemma AverageOfEqual(values: seq<u256>, x: u256)
    requires values != [] && forall i :: 0 <= i < |values| ==> values[i] == x
    requires Fits(|values|, x)
    ensures AverageU256(values) == Some(x)
  {
    hide Sum, SaturatingSum;
    AverageOfSum(values);
    SumOfEqual(values, x);
    Divides(|values| * x, |values|, x);
  }

  /** A history in which all blocks paid the same fees gives these fees, each in its place. */
  lemma UniformHistory(rows: seq<seq<u256>>, low: u256, medium: u256, high: u256)
    requires AllFull(rows) && rows != []
    requires forall i :: 0 <= i < |rows| ==> rows[i][0] == low && rows[i][1] == medium && rows[i][2] == high
    requires Fits(|rows|, low) && Fits(|rows|, medium) && Fits(|rows|, high)
    ensures AverageU256(Column(rows, 0)) == Some(low)
    ensures AverageU256(Column(rows, 1)) == Some(medium)
    ensures AverageU256(Column(rows, 2)) == Some(high)
  {
    hide Fits, AverageU256;
    AverageOfEqual(Column(rows, 0), low);
    AverageOfEqual(Column(rows, 1), medium);
    AverageOfEqual(Column(rows, 2), high);
  }

  predicate Pointwise(a: seq<u256>, b: seq<u256>) {
    |a| == |b| && forall i :: 0 <= i < |a| ==> a[i] <= b[i]
  }

  lemma {:induction false} SumMono(a: seq<u256>, b: seq<u256>)
    requires Pointwise(a, b)
    ensures SaturatingSum(a) <= SaturatingSum(b)
  {
    if a != [] {
      SumMono(a[..|a| - 1], b[..|b| - 1]);
    }
  }

  lemma AverageMono(a: seq<u256>, b: seq<u256>)
    requires Pointwise(a, b) && a != []
    ensures AverageU256(a).value <= AverageU256(b).value
  {
    hide SaturatingSum;
    SumMono(a, b);
    DivMono(SaturatingSum(a), SaturatingSum(b), |a|);
  }

  predicate Tiered(gas: GasPrice) {
    gas.low <= gas.medium <= gas.high
  }

  /** Ascending percentile rows average to ascending priority fees, saturation included. */
  lemma HistoryIsTiered(rewards: seq<seq<u256>>, gas: GasPrice)
    requires AllFull(FullRows(rewards)) && FullRows(rewards) != []
    requires var rows := FullRows(rewards); forall i :: 0 <= i < |rows| ==> rows[i][0] <= rows[i][1] <= rows[i][2]
    requires var rows := FullRows(rewards);
      && Some(gas.low) == AverageU256(Column(rows, 0))
      && Some(gas.medium) == AverageU256(Column(rows, 1))
      && Some(gas.high) == AverageU256(Column(rows, 2))
    ensures Tiered(gas)
  {
    hide FullRows, AverageU256;
    var rows := FullRows(rewards);
    AverageMono(Column(rows, 0), Column(rows, 1));
    AverageMono(Column(rows, 1), Column(rows, 2));
  }

  /** The fallback offers a quarter, a half and the whole of the gas price, rounded down. */
  lemma LegacyIsTiered(blockBaseFee: Option<u256>, gasPrice: u256)
    ensures Tiered(LegacyGasPrice(blockBaseFee, gasPrice))
    ensures var gas := LegacyGasPrice(blockBaseFee, gasPrice);
      && gas.baseFee == (if blockBaseFee.Some? then blockBaseFee.value else gasPrice)
      && 4 * gas.low <= gasPrice < 4 * gas.low + 4 && 2 * gas.medium <= gasPrice < 2 * gas.medium + 2
      && gas.high == gasPrice
  {
  }

  /** Higher priorities never offer less. */
  lemma MaxFeesAreOrdered(gas: GasPrice, bufferBps: nat)
    requires Tiered(gas)
    ensures GetMaxFee(gas, Low, bufferBps) <= GetMaxFee(gas, Medium, bufferBps) <= GetMaxFee(gas, High, bufferBps)
  {
  }

  /** When scaling the base fee overflows, the buffered fee is the largest value. */
  lemma BufferSaturates(baseFee: u256, buffer: nat)
    requires baseFee * buffer + 9_999 > U256_MAX
    ensures BufferedBase(baseFee, buffer) == U256_MAX
  {
  }

  /** The buffered base fee covers the base fee, whatever overflows on the way. */
  lemma BufferCovers(baseFee: u256, buffer: nat)
    requires buffer >= BPS_SCALE
    ensures BufferedBase(baseFee, buffer) >= baseFee
  {
  }

  /** The maximum fee pays the base fee and the priority fee together, up to the largest value. */
  lemma MaxFeeCovers(gas: GasPrice, priority: GasPriority, bufferBps: nat)
    ensures GetMaxFee(gas, priority, bufferBps) >= SaturatingAdd(gas.baseFee, PriorityFee(gas, priority))
  {
    hide BufferedBase;
    BufferCovers(gas.baseFee, EffectiveBuffer(bufferBps));
  }

  /** Each priority offers its own fee, and a buffer below the minimum counts as the default one. */
  lemma PrioritiesAreDistinct(r: Request, gas: GasPrice, priority: GasPriority, bufferBps: nat)
    ensures WithGasPrice(r, gas, priority).maxPriorityFee ==
            Some(match priority case Low => gas.low case Medium => gas.medium case High => gas.high)
    ensures bufferBps < 10_000 ==> GetMaxFee(gas, priority, bufferBps) == GetMaxFee(gas, priority, 12_000)
    ensures WithGasPrice(r, gas, priority).maxFee == Some(GetMaxFee(gas, priority, 12_000))
  {
    hide BufferedBase;
  }

  /** A request priced by the builder is never refused for its fees, for any gas price at all. */
  lemma PricedRequestsPass(r: Request, gas: GasPrice, priority: GasPriority)
    ensures Validate(WithGasPrice(r, gas, priority)) != Err(PriorityExceedsMax)
    ensures Validate(WithGasPrice(r, gas, priority)).Ok? <==>
              r.chainId != 0 && (r.gasLimit.Some? ==> r.gasLimit.value >= 21_000)
  {
  }

  /**
   What a transaction pays on top of the base fee, by the fee rule in the Specification section of
   EIP-1559; nothing if it cannot be included.
   */
  function PaidPriority(maxFee: u256, maxPriorityFee: u256, baseFee: u256): Option<nat> {
    if baseFee > maxFee then None else Some(Least(maxPriorityFee, maxFee - baseFee))
  }

  /**
   A request passes if and only if its chain and gas limit are fine and, if it has both fees, it
   can pay its whole priority fee at some base fee. A refusal names the first of these that fails.
   */
  lemma FeeCheckIsExact(r: Request)
    ensures var gasFits := r.gasLimit.Some? ==> r.gasLimit.value >= 21_000;
      var pays := r.maxFee.Some? && r.maxPriorityFee.Some? ==> exists baseFee: u256 ::
        PaidPriority(r.maxFee.value, r.maxPriorityFee.value, baseFee) == Some(r.maxPriorityFee.value);
      match Validate(r)
      case Ok(_) => r.chainId != 0 && gasFits && pays
      case Err(ZeroChainId) => r.chainId == 0
      case Err(GasLimitTooLow) => r.chainId != 0 && !gasFits
      case Err(PriorityExceedsMax) => r.chainId != 0 && gasFits && !pays
  {
    if r.maxFee.Some? && r.maxPriorityFee.Some? && r.maxPriorityFee.value <= r.maxFee.value {
      assert PaidPriority(r.maxFee.value, r.maxPriorityFee.value, 0) == Some(r.maxPriorityFee.value);
    }
  }

  /**
   What the buffer buys: a request priced by the builder pays its whole priority fee at exactly
   the base fees up to the buffered one, or up to what saturation leaves of it.
   */
  lemma FullTipUpToBuffer(r: Request, gas: GasPrice, priority: GasPriority, baseFee: u256)
    ensures var q := WithGasPrice(r, gas, priority); var tip := PriorityFee(gas, priority);
      PaidPriority(q.maxFee.value, q.maxPriorityFee.value, baseFee) == Some(tip) <==>
      baseFee <= Least(BufferedBase(gas.baseFee, DEFAULT_GAS_BUFFER_BPS), U256_MAX - tip)
  {
    hide BufferedBase;
  }

  /** Without overflow these are the base fees that exceed the current one by at most a fifth, rounded up. */
  lemma BufferIsAFifth(base: u256, baseFee: u256)
    requires base * DEFAULT_GAS_BUFFER_BPS + BPS_SCALE - 1 <= U256_MAX
    ensures baseFee <= BufferedBase(base, DEFAULT_GAS_BUFFER_BPS) <==> 5 * (baseFee - base) < base + 5
  {
  }

  /** While nothing overflows the maximum fee is exact: the scaled base fee rounded up, plus the priority fee. */
  lemma MaxFeeIsExact(gas: GasPrice, priority: GasPriority, bufferBps: nat)
    requires bufferBps >= MIN_GAS_BUFFER_BPS
    requires gas.baseFee * bufferBps + BPS_SCALE - 1 <= U256_MAX
    requires (gas.baseFee * bufferBps + BPS_SCALE - 1) / BPS_SCALE + PriorityFee(gas, priority) <= U256_MAX
    ensures var ceiling := GetMaxFee(gas, priority, bufferBps) - PriorityFee(gas, priority);
      (ceiling - 1) * BPS_SCALE < gas.baseFee * bufferBps <= ceiling * BPS_SCALE
  {
  }
}
