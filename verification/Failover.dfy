/**
 RPC calls with failover: every endpoint in turn, each with retries and exponential backoff.
 What each attempt would answer is given by endpoint and retry number.
 */
module Failover {
  import opened NatArith
  import opened Options

  const RPC_RETRY_BASE_BACKOFF_MS: nat := 100
  const U64_LIMIT: nat := U64_MAX + 1

  datatype ChainError = NoEndpoints | Rpc(message: string)

  /** Every endpoint answers each of `tries` attempts. */
  predicate Complete<T>(replies: seq<seq<Result<T, string>>>, tries: nat) {
    forall p :: 0 <= p < |replies| ==> |replies[p]| == tries
  }

  /** No attempt before retry `r` of endpoint `p` succeeds. */
  predicate FailedBefore<T>(replies: seq<seq<Result<T, string>>>, p: nat, r: nat) {
    && (forall i, j :: 0 <= i < p && i < |replies| && 0 <= j < |replies[i]| ==> replies[i][j].Err?)
    && (forall j :: p < |replies| && 0 <= j < r && j < |replies[p]| ==> replies[p][j].Err?)
  }

  /** The exponent of retry `r` in 32-bit arithmetic: one less, wrapping around. */
  function RetryExponent(r: nat): nat {
    (r % U32 + U32 - 1) % U32
  }

  /** The sleep before retry `r`: power and product wrap around in 64 bits in a release build. */
  function BackoffMs(r: nat): nat {
    RPC_RETRY_BASE_BACKOFF_MS * (Pow2(RetryExponent(r)) % U64_LIMIT) % U64_LIMIT
  }

  /** The sleeps before retries `1 .. r` of one endpoint, added up. */
  function BackoffUpTo(r: nat): nat {
    if r == 0 then 0 else BackoffUpTo(r - 1) + BackoffMs(r)
  }

  lemma NextRow(p: nat, width: nat)
    ensures (p + 1) * width == p * width + width
  {
  }

  /**
   Returns the first success in endpoint order, then retry order, and fails exactly when there
   is none. Also counts the attempts and the milliseconds slept.
   */
  method WithProvider<T>(replies: seq<seq<Result<T, string>>>, maxRetries: nat)
    returns (result: Result<T, ChainError>, attempts: nat, slept: nat, won: Option<(nat, nat)>)
    requires Complete(replies, maxRetries + 1)
    ensures result.Ok? <==> won.Some?
    ensures won.Some? ==>
      var (p, r) := won.value;
      && p < |replies| && r <= maxRetries
      && replies[p][r].Ok? && result.value == replies[p][r].value && FailedBefore(replies, p, r)
      && attempts == p * (maxRetries + 1) + r + 1
      && slept == p * BackoffUpTo(maxRetries) + BackoffUpTo(r)
    ensures won.None? ==>
      && FailedBefore(replies, |replies|, 0)
      && attempts == |replies| * (maxRetries + 1)
      && slept == |replies| * BackoffUpTo(maxRetries)
      && result.error == (if replies == [] then NoEndpoints else Rpc(replies[|replies| - 1][maxRetries].error))
  {
    hide BackoffMs;
    var lastError: Option<string> := None;
    attempts, slept := 0, 0;
    for p := 0 to |replies|
      invariant FailedBefore(replies, p, 0)
      invariant attempts == p * (maxRetries + 1)
      invariant slept == p * BackoffUpTo(maxRetries)
      invariant lastError == if p == 0 then None else Some(replies[p - 1][maxRetries].error)
    {
      ghost var attempts0, slept0 := attempts, slept;
      for r := 0 to maxRetries + 1
        invariant FailedBefore(replies, p, r)
        invariant attempts == attempts0 + r
        invariant slept == slept0 + (if r == 0 then 0 else BackoffUpTo(r - 1))
        invariant r > 0 ==> lastError == Some(replies[p][r - 1].error)
      {
        if r > 0 {
          slept := slept + BackoffMs(r);
        }
        attempts := attempts + 1;
        match replies[p][r] {
          case Ok(value) =>
            return Ok(value), attempts, slept, Some((p, r));
          case Err(error) =>
            lastError := Some(error);
        }
      }
      NextRow(p, maxRetries + 1);
      NextRow(p, BackoffUpTo(maxRetries));
    }
    won := None;
    match lastError {
      case Some(error) => result := Err(Rpc(error));
      case None => result := Err(NoEndpoints);
    }
  }

  /** The first success is unique, so the answer is determined by the replies. */
  lemma FirstSuccessIsUnique<T>(replies: seq<seq<Result<T, string>>>, p: nat, r: nat, q: nat, s: nat)
    requires p < |replies| && r < |replies[p]| && replies[p][r].Ok? && FailedBefore(replies, p, r)
    requires q < |replies| && s < |replies[q]| && replies[q][s].Ok? && FailedBefore(replies, q, s)
    ensures p == q && r == s
  {
  }

  /** No call makes more attempts, or sleeps longer, than one that fails everywhere. */
  lemma FailureIsTheWorstCase(endpoints: nat, maxRetries: nat, p: nat, r: nat)
    requires p < endpoints && r <= maxRetries
    ensures p * (maxRetries + 1) + r + 1 <= endpoints * (maxRetries + 1)
    ensures p * BackoffUpTo(maxRetries) + BackoffUpTo(r) <= endpoints * BackoffUpTo(maxRetries)
  {
    hide BackoffUpTo;
    RowFits(p, endpoints, maxRetries + 1);
    RowFits(p, endpoints, BackoffUpTo(maxRetries));
    BackoffGrows(r, maxRetries);
  }

  lemma RowFits(p: nat, rows: nat, width: nat)
    requires p < rows
    ensures p * width + width <= rows * width
  {
    NextRow(p, width);
    MulMono(p + 1, rows, width);
  }

  lemma {:induction false} BackoffGrows(r: nat, s: nat)
    requires r <= s
    ensures BackoffUpTo(r) <= BackoffUpTo(s)
  {
    if r < s {
      BackoffGrows(r, s - 1);
    }
  }

  lemma ExponentIsNoLarger(r: nat)
    requires r > 0
    ensures RetryExponent(r) <= r - 1
    ensures r < U32 ==> RetryExponent(r) == r - 1
  {
  }

  lemma WrappedProduct(n: nat)
    ensures RPC_RETRY_BASE_BACKOFF_MS * (n % U64_LIMIT) % U64_LIMIT <= RPC_RETRY_BASE_BACKOFF_MS * n
    ensures RPC_RETRY_BASE_BACKOFF_MS * (n % U64_LIMIT) % U64_LIMIT == RPC_RETRY_BASE_BACKOFF_MS * n <==>
            RPC_RETRY_BASE_BACKOFF_MS * n < U64_LIMIT
  {
  }

  /** Each sleep is the doubled base exactly up to 58 retries, and less at the 59th, where it wraps. */
  lemma BackoffWraps(r: nat)
    requires r > 0
    ensures BackoffMs(r) <= RPC_RETRY_BASE_BACKOFF_MS * Pow2(r - 1)
    ensures r <= 58 ==> BackoffMs(r) == RPC_RETRY_BASE_BACKOFF_MS * Pow2(r - 1)
    ensures r == 59 ==> BackoffMs(r) < RPC_RETRY_BASE_BACKOFF_MS * Pow2(r - 1)
  {
    hide Pow2, RetryExponent;
    ExponentIsNoLarger(r);
    WrappedProduct(Pow2(RetryExponent(r)));
    Pow2Mono(RetryExponent(r), r - 1);
    PowersNear58();
    if r <= 58 {
      Pow2Mono(r - 1, 57);
    }
  }

  /** The sleeps of one endpoint add up to 100 (2^r - 1) milliseconds if and only if there are at most 58 retries. */
  lemma {:induction false} BackoffIsGeometric(r: nat)
    ensures BackoffUpTo(r) <= 100 * (Pow2(r) - 1)
    ensures BackoffUpTo(r) == 100 * (Pow2(r) - 1) <==> r <= 58
  {
    hide BackoffMs;
    if r > 0 {
      BackoffIsGeometric(r - 1);
      BackoffWraps(r);
    }
  }

  lemma PowersNear62()
    ensures 100 * Pow2(62) == 25 * U64_LIMIT
  {
    hide Pow2;
    Pow2Of28();
    Pow2Add(28, 28);
    Pow2Add(56, 6);
    assert Pow2(6) == 64 by {
      SmallPowers();
    }
  }

  lemma SmallPowers()
    ensures Pow2(6) == 64
  {
    assert Pow2(3) == 8;
  }

  /** Wrapping before and after the product is wrapping once. */
  lemma WrapOnce(n: nat)
    ensures 100 * (n % U64_LIMIT) % U64_LIMIT == 100 * n % U64_LIMIT
  {
    var q, r := n / U64_LIMIT, n % U64_LIMIT;
    assert 100 * n == 100 * q * U64_LIMIT + 100 * r;
    AddMultiple(100 * r, 100 * q, U64_LIMIT);
  }

  lemma AddMultiple(r: nat, q: nat, c: nat)
    requires c > 0
    ensures (q * c + r) % c == r % c
  {
    var a := q * c + r;
    var d := r / c;
    assert r == d * c + r % c;
    assert a == (q + d) * c + r % c;
    Quotient(a, q + d, r % c, c);
  }

  lemma Quotient(a: nat, q: nat, r: nat, c: nat)
    requires r < c && a == q * c + r
    ensures a % c == r
  {
    var p := a / c;
    assert a == p * c + a % c;
    if p < q {
      MulMono(p + 1, q, c);
    } else if p > q {
      MulMono(q + 1, p, c);
    }
  }

  /** The sleep before a retry is the doubled base cut to 64 bits; from the 63rd retry on it is nothing. */
  lemma BackoffIsCut(r: nat)
    requires 0 < r <= 0x1_0000_0000
    ensures BackoffMs(r) == 100 * Pow2(r - 1) % 0x1_0000_0000_0000_0000
    ensures r >= 63 ==> BackoffMs(r) == 0
  {
    hide Pow2, RetryExponent;
    ExponentIsExact(r);
    WrapOnce(Pow2(r - 1));
    if r >= 63 {
      PowersNear62();
      Pow2Add(62, r - 63);
      MulAssoc(100, Pow2(62), Pow2(r - 63));
      MulAssoc(Pow2(r - 63), 25, U64_LIMIT);
      MulMod(Pow2(r - 63) * 25, U64_LIMIT);
    }
  }

  lemma ExponentIsExact(r: nat)
    requires 0 < r <= U32
    ensures RetryExponent(r) == r - 1
  {
  }

  lemma PowersNear58()
    ensures 100 * Pow2(57) < U64_LIMIT <= 100 * Pow2(58)
  {
    hide Pow2;
    Pow2Of28();
    Pow2Add(28, 28);
    Doubles(56);
    Doubles(57);
  }

  lemma Doubles(n: nat)
    ensures Pow2(n + 1) == 2 * Pow2(n)
  {
  }

  lemma Pow2Of28()
    ensures Pow2(28) == 0x1000_0000
  {
    assert Pow2(7) == 128 by {
      assert Pow2(4) == 16;
    }
    Pow2Add(7, 7);
    Pow2Add(14, 14);
  }
}
