/**
 The waiting and retrying client in front of the limiter: the budget check that blocks until
 weight is granted, and the send loop with its backoff.
 */
module HttpClient {
  import opened NatArith
  import opened Options
  import opened RateLimiter

  const WINDOW_RESET_POLL_SECS: nat := 65
  const DEFAULT_RETRY_AFTER_SECS: nat := 10

  // ----- Waiting for budget ------------------------------------------------------------

  /**
   Asks for `weight` at each wake-up time until it is granted. The result is the index of the
   attempt that succeeded, or `None` when every listed attempt was refused.
   */
  method CheckRateLimit(limiter: Limiter, weight: u32, wakes: seq<nat>) returns (attempt: Option<nat>)
    requires limiter.Valid()
    modifies limiter, limiter.buckets.Values
    ensures limiter.Valid() && fresh(limiter.buckets.Values - old(limiter.buckets.Values))
    ensures limiter.State() == Waited(old(limiter.State()), weight, wakes).0
    ensures attempt == Waited(old(limiter.State()), weight, wakes).1
  {
    hide LimiterStep;
    ghost var start := limiter.State();
    var i := 0;
    while i < |wakes|
      invariant 0 <= i <= |wakes|
      invariant limiter.Valid() && fresh(limiter.buckets.Values - old(limiter.buckets.Values))
      invariant Waited(start, weight, wakes).0 == Waited(limiter.State(), weight, wakes[i..]).0
      invariant Waited(start, weight, wakes).1 == Shifted(Waited(limiter.State(), weight, wakes[i..]).1, i)
    {
      assert wakes[i..][0] == wakes[i] && wakes[i..][1..] == wakes[i + 1..];
      var granted := limiter.TryAcquireFor(REQUEST_WEIGHT_KEY, weight, wakes[i]);
      if granted {
        return Some(i);
      }
      i := i + 1;
    }
    attempt := None;
  }

  function Shifted(n: Option<nat>, offset: nat): Option<nat> {
    if n.Some? then Some(n.value + offset) else None
  }

  /** The limiter after asking at each wake-up until granted, and which wake-up that was. */
  function Waited(m: Buckets, weight: u32, wakes: seq<nat>): (Buckets, Option<nat>)
    decreases |wakes|
  {
    if wakes == [] then (m, None)
    else
      var (n, granted) := LimiterStep(m, On(REQUEST_WEIGHT_KEY, Acquire(weight, wakes[0])));
      if granted then (n, Some(0))
      else
        var (end, attempt) := Waited(n, weight, wakes[1..]);
        (end, Shifted(attempt, 1))
  }

  /** The first wake-up at which a lone caller is granted its weight by one bucket. */
  function FirstGrant(b: Option<Bucket>, weight: u32, wakes: seq<nat>): Option<nat>
    decreases |wakes|
  {
    if wakes == [] then None
    else
      var (c, granted) := Acquired(Ensured(b, REQUEST_WEIGHT_KEY, wakes[0]), weight, wakes[0]);
      if granted then Some(0) else Shifted(FirstGrant(Some(c), weight, wakes[1..]), 1)
  }

  /** Waiting involves the default bucket alone; every other bucket stays as it was. */
  lemma {:induction false} WaitUsesOneBucket(m: Buckets, weight: u32, wakes: seq<nat>, key: LimitKey)
    ensures Waited(m, weight, wakes).1 == FirstGrant(Lookup(m, REQUEST_WEIGHT_KEY), weight, wakes)
    ensures key != REQUEST_WEIGHT_KEY ==> Lookup(Waited(m, weight, wakes).0, key) == Lookup(m, key)
    decreases |wakes|
  {
    hide Acquired, Ensured;
    if wakes != [] {
      WaitUsesOneBucket(LimiterStep(m, On(REQUEST_WEIGHT_KEY, Acquire(weight, wakes[0]))).0, weight, wakes[1..], key);
    }
  }

  // ----- Backoff ---------------------------------------------------------------------------

  /** Backoff in saturating 64-bit arithmetic; the attempt number is cut to 32 bits. */
  function ComputeBackoffSecs(attempt: nat, baseWait: nat, maxBackoffSecs: nat): nat
    requires attempt >= 1
  {
    var exp := Least(Pow2((attempt - 1) % U32), U64_MAX);
    Least(Least(baseWait * exp, U64_MAX), maxBackoffSecs)
  }

  /** Up to 2^32 attempts, saturation never shows: the backoff is the exact product, capped. */
  lemma BackoffIsExact(attempt: nat, baseWait: nat, maxBackoffSecs: nat)
    requires 1 <= attempt <= U32 && maxBackoffSecs <= U64_MAX
    ensures ComputeBackoffSecs(attempt, baseWait, maxBackoffSecs) == Least(baseWait * Pow2(attempt - 1), maxBackoffSecs)
  {
    hide Pow2;
    var p := Pow2(attempt - 1);
    if baseWait > 0 && p > U64_MAX {
      MulMono(1, baseWait, p);
      MulMono(1, baseWait, U64_MAX);
    }
  }

  // ----- Syncing the limiter with response headers ---------------------------------------------

  /** What the headers of a response yield: a limit, a used weight, and counts by interval. */
  datatype Headers = Headers(
    limit: Option<u32>,
    used: Option<u32>,
    weights: map<LimitInterval, u32>,
    orders: map<LimitInterval, u32>)

  const INTERVALS: seq<LimitInterval> := [Second, Minute, FiveMinute, Day]

  function IntervalOps(h: Headers, i: LimitInterval, at: nat): seq<LimiterOp> {
    (if i in h.weights then [On(LimitKey(RequestWeight, i), SyncUsed(h.weights[i], at))] else [])
    + (if i in h.orders then [On(LimitKey(Orders, i), SyncUsed(h.orders[i], at))] else [])
  }

  function AllIntervalOps(h: Headers, intervals: seq<LimitInterval>, at: nat): seq<LimiterOp> {
    if intervals == [] then []
    else IntervalOps(h, intervals[0], at) + AllIntervalOps(h, intervals[1..], at)
  }

  /** The limiter operations that a response's headers cause, in order. */
  function HeaderOps(h: Headers, at: nat): seq<LimiterOp> {
    (if h.limit.Some? then [On(REQUEST_WEIGHT_KEY, SyncLimit(h.limit.value, at))] else [])
    + (if h.used.Some? then [On(REQUEST_WEIGHT_KEY, SyncUsed(h.used.value, at))] else [])
    + AllIntervalOps(h, INTERVALS, at)
  }

  method SyncInterval(limiter: Limiter, h: Headers, i: LimitInterval, at: nat)
    requires limiter.Valid()
    modifies limiter, limiter.buckets.Values
    ensures limiter.Valid() && fresh(limiter.buckets.Values - old(limiter.buckets.Values))
    ensures limiter.State() == RunLimiter(old(limiter.State()), IntervalOps(h, i, at))
  {
    hide LimiterStep, RunLimiter;
    ghost var m := limiter.State();
    ghost var first: seq<LimiterOp> := [];
    NoRun(m);
    if i in h.weights {
      var key := LimitKey(RequestWeight, i);
      limiter.UpdateUsedWeightFor(key, h.weights[i], at);
      first := [On(key, SyncUsed(h.weights[i], at))];
      RunOne(m, first[0]);
    }
    ghost var n := limiter.State();
    ghost var second: seq<LimiterOp> := [];
    NoRun(n);
    if i in h.orders {
      var key := LimitKey(Orders, i);
      limiter.UpdateUsedWeightFor(key, h.orders[i], at);
      second := [On(key, SyncUsed(h.orders[i], at))];
      RunOne(n, second[0]);
    }
    RunConcat(m, first, second);
    assert IntervalOps(h, i, at) == first + second;
  }

  lemma NoRun(m: Buckets)
    ensures RunLimiter(m, []) == m
  {
  }

  method SyncRateLimitHeaders(limiter: Limiter, h: Headers, at: nat)
    requires limiter.Valid()
    modifies limiter, limiter.buckets.Values
    ensures limiter.Valid() && fresh(limiter.buckets.Values - old(limiter.buckets.Values))
    ensures limiter.State() == RunLimiter(old(limiter.State()), HeaderOps(h, at))
  {
    hide LimiterStep, RunLimiter, IntervalOps;
    ghost var m := limiter.State();
    ghost var done: seq<LimiterOp> := [];
    NoRun(m);
    if h.limit.Some? {
      limiter.UpdateQuotaFromLimitFor(REQUEST_WEIGHT_KEY, h.limit.value, at);
      done := [On(REQUEST_WEIGHT_KEY, SyncLimit(h.limit.value, at))];
      RunOne(m, done[0]);
    }
    if h.used.Some? {
      ghost var op := On(REQUEST_WEIGHT_KEY, SyncUsed(h.used.value, at));
      RunOne(limiter.State(), op);
      RunConcat(m, done, [op]);
      limiter.UpdateUsedWeightFor(REQUEST_WEIGHT_KEY, h.used.value, at);
      done := done + [op];
    }
    for i := 0 to |INTERVALS|
      invariant limiter.Valid() && fresh(limiter.buckets.Values - old(limiter.buckets.Values))
      invariant limiter.State() == RunLimiter(m, done)
      invariant done + AllIntervalOps(h, INTERVALS[i..], at) == HeaderOps(h, at)
    {
      ghost var ops := IntervalOps(h, INTERVALS[i], at);
      assert INTERVALS[i..][0] == INTERVALS[i] && INTERVALS[i..][1..] == INTERVALS[i + 1..];
      RunConcat(m, done, ops);
      SyncInterval(limiter, h, INTERVALS[i], at);
      done := done + ops;
    }
    assert done == HeaderOps(h, at);
  }

  // ----- Sending -----------------------------------------------------------------------------

  datatype RetryConfig = RetryConfig(maxRetries: nat, maxBackoffSecs: nat, retryOn429: bool, retryOnTimeout: bool)

  /** What one attempt meets: no request built, a transport error, or a response. */
  datatype Reply =
    | NotBuilt
    | TransportError(timeout: bool, connect: bool)
    | Response(tooMany: bool, retryAfter: nat, headers: Headers)

  /** One attempt: the wake-ups while it waits for budget, its reply, and when that arrives. */
  datatype Round = Round(wakes: seq<nat>, reply: Reply, at: nat)

  datatype SendResult = BuildError | HttpError | RateLimited | Delivered(tooMany: bool)

  predicate Retryable(cfg: RetryConfig, enabled: bool, r: Reply) {
    match r
    case NotBuilt => false
    case TransportError(timeout, connect) => (timeout && cfg.retryOnTimeout) || connect
    case Response(tooMany, _, _) => enabled && tooMany && cfg.retryOn429
  }

  /** What the caller is given when `r` is not retried. */
  function Final(enabled: bool, r: Reply): SendResult {
    match r
    case NotBuilt => BuildError
    case TransportError(_, _) => HttpError
    case Response(tooMany, _, _) => if enabled && tooMany then RateLimited else Delivered(tooMany)
  }

  function WaitBase(r: Reply): nat {
    if r.Response? then r.retryAfter else DEFAULT_RETRY_AFTER_SECS
  }

  /** The acquires made while waiting: one per wake-up, up to the one that is granted. */
  function WaitOps(m: Buckets, weight: u32, wakes: seq<nat>): seq<LimiterOp>
    decreases |wakes|
  {
    if wakes == [] then []
    else
      var op := On(REQUEST_WEIGHT_KEY, Acquire(weight, wakes[0]));
      var (n, granted) := LimiterStep(m, op);
      [op] + (if granted then [] else WaitOps(n, weight, wakes[1..]))
  }

  lemma {:induction false} WaitedIsARun(m: Buckets, weight: u32, wakes: seq<nat>)
    ensures Waited(m, weight, wakes).0 == RunLimiter(m, WaitOps(m, weight, wakes))
    decreases |wakes|
  {
    hide LimiterStep;
    if wakes != [] {
      var op := On(REQUEST_WEIGHT_KEY, Acquire(weight, wakes[0]));
      var n := LimiterStep(m, op).0;
      WaitedIsARun(n, weight, wakes[1..]);
      RunOne(m, op);
      RunConcat(m, [op], WaitOps(n, weight, wakes[1..]));
    }
  }

  /** The round never gets its budget. */
  predicate Stuck(m: Buckets, enabled: bool, weight: u32, r: Round) {
    enabled && Waited(m, weight, r.wakes).1.None?
  }

  /** What the reply of a round does to the limiter. */
  function ReplyOps(r: Reply, at: nat): seq<LimiterOp> {
    if r.Response? then HeaderOps(r.headers, at) + (if r.tooMany then [Reset429(at)] else []) else []
  }

  function RoundOps(m: Buckets, enabled: bool, weight: u32, r: Round): seq<LimiterOp> {
    if !enabled then []
    else WaitOps(m, weight, r.wakes) + (if Stuck(m, enabled, weight, r) then [] else ReplyOps(r.reply, r.at))
  }

  /** Everything a send does to the limiter over its rounds. */
  function SendOps(m: Buckets, enabled: bool, weight: u32, rounds: seq<Round>): seq<LimiterOp> {
    if rounds == [] then []
    else
      var before := SendOps(m, enabled, weight, rounds[..|rounds| - 1]);
      before + RoundOps(RunLimiter(m, before), enabled, weight, rounds[|rounds| - 1])
  }

  /** The limiter that round `i` of a send meets. */
  function Meets(m: Buckets, enabled: bool, weight: u32, rounds: seq<Round>, i: nat): Buckets
    requires i <= |rounds|
  {
    RunLimiter(m, SendOps(m, enabled, weight, rounds[..i]))
  }

  /** Round `i` of a send never gets its budget. */
  predicate StuckAt(m: Buckets, enabled: bool, weight: u32, rounds: seq<Round>, i: nat)
    requires i < |rounds|
  {
    Stuck(Meets(m, enabled, weight, rounds, i), enabled, weight, rounds[i])
  }

  /** The limiter's part of one attempt, up to the point where the caller decides what to do. */
  method RunRound(limiter: Limiter, enabled: bool, weight: u32, r: Round) returns (stuck: bool)
    requires limiter.Valid()
    modifies limiter, limiter.buckets.Values
    ensures limiter.Valid() && fresh(limiter.buckets.Values - old(limiter.buckets.Values))
    ensures stuck == Stuck(old(limiter.State()), enabled, weight, r)
    ensures limiter.State() == RunLimiter(old(limiter.State()), RoundOps(old(limiter.State()), enabled, weight, r))
  {
    hide LimiterStep, RunLimiter, HeaderOps, WaitOps, Waited;
    ghost var m := limiter.State();
    NoRun(m);
    if !enabled {
      return false;
    }
    ghost var ops := WaitOps(m, weight, r.wakes);
    WaitedIsARun(m, weight, r.wakes);
    var attempt := CheckRateLimit(limiter, weight, r.wakes);
    assert limiter.State() == RunLimiter(m, ops);
    if attempt.None? {
      assert RoundOps(m, enabled, weight, r) == ops;
      return true;
    }
    stuck := false;
    if r.reply.Response? {
      ghost var sync := HeaderOps(r.reply.headers, r.at);
      RunConcat(m, ops, sync);
      SyncRateLimitHeaders(limiter, r.reply.headers, r.at);
      ops := ops + sync;
      if r.reply.tooMany {
        RunOne(limiter.State(), Reset429(r.at));
        RunConcat(m, ops, [Reset429(r.at)]);
        limiter.ResetAfter429(r.at);
        ops := ops + [Reset429(r.at)];
      }
    }
    assert RoundOps(m, enabled, weight, r) == ops;
  }

  /** What to return after a reply to attempt number `attempt`, or nothing to back off and try again. */
  method Decide(cfg: RetryConfig, enabled: bool, reply: Reply, attempt: nat) returns (answer: Option<SendResult>)
    ensures answer.None? <==> Retryable(cfg, enabled, reply) && attempt <= cfg.maxRetries
    ensures answer.Some? ==> answer.value == Final(enabled, reply)
  {
    match reply {
      case NotBuilt =>
        return Some(BuildError);
      case Response(tooMany, _, _) =>
        if !(enabled && tooMany) {
          return Some(Delivered(tooMany));
        }
        if !(cfg.retryOn429 && attempt <= cfg.maxRetries) {
          return Some(RateLimited);
        }
      case TransportError(timeout, connect) =>
        var retryable := (timeout && cfg.retryOnTimeout) || connect;
        if !(retryable && attempt <= cfg.maxRetries) {
          return Some(HttpError);
        }
    }
    answer := None;
  }

  /**
   The send loop against the rounds its attempts would meet. It stops at the first reply that is
   not retryable or when the retries are used up, backs off once between attempts, and leaves the
   limiter as its operations leave it. No result means that the last attempt still waits.
   */
  method SendTracked(cfg: RetryConfig, enabled: bool, limiter: Limiter, weight: u32, rounds: seq<Round>)
    returns (result: Option<SendResult>, attempts: nat, slept: seq<nat>)
    requires limiter.Valid() && |rounds| > cfg.maxRetries
    modifies limiter, limiter.buckets.Values
    ensures limiter.Valid() && fresh(limiter.buckets.Values - old(limiter.buckets.Values))
    ensures 1 <= attempts <= cfg.maxRetries + 1
    ensures limiter.State() == Meets(old(limiter.State()), enabled, weight, rounds, attempts)
    ensures forall i :: 0 <= i < attempts - 1 ==>
      match rounds[i].reply
      case NotBuilt => false
      case TransportError(timeout, connect) => connect || (timeout && cfg.retryOnTimeout)
      case Response(tooMany, _, _) => enabled && tooMany && cfg.retryOn429
    ensures forall i :: 0 <= i < attempts - 1 ==> !StuckAt(old(limiter.State()), enabled, weight, rounds, i)
    ensures result.None? <==> StuckAt(old(limiter.State()), enabled, weight, rounds, attempts - 1)
    ensures result.Some? ==>
      var spent := attempts == cfg.maxRetries + 1;
      match rounds[attempts - 1].reply
      case NotBuilt => result.value == BuildError
      case TransportError(timeout, connect) =>
        result.value == HttpError && (spent || (!connect && (timeout ==> !cfg.retryOnTimeout)))
      case Response(tooMany, _, _) =>
        if enabled && tooMany then result.value == RateLimited && (spent || !cfg.retryOn429)
        else result.value == Delivered(tooMany)
    ensures |slept| == attempts - 1
    ensures forall i :: 0 <= i < |slept| ==>
      var base := if rounds[i].reply.Response? then rounds[i].reply.retryAfter else 10;
      && slept[i] == ComputeBackoffSecs(i + 1, base, cfg.maxBackoffSecs)
      && slept[i] <= cfg.maxBackoffSecs
  {
    hide ComputeBackoffSecs, RunLimiter, RoundOps, Stuck, Meets;
    ghost var m := limiter.State();
    attempts, slept := 0, [];
    MeetsFirst(m, enabled, weight, rounds);
    while true
      invariant 0 <= attempts <= cfg.maxRetries
      invariant limiter.Valid() && fresh(limiter.buckets.Values - old(limiter.buckets.Values))
      invariant limiter.State() == Meets(m, enabled, weight, rounds, attempts)
      invariant forall i :: 0 <= i < attempts ==> Retryable(cfg, enabled, rounds[i].reply)
      invariant forall i :: 0 <= i < attempts ==> !StuckAt(m, enabled, weight, rounds, i)
      invariant |slept| == attempts
      invariant forall i :: 0 <= i < |slept| ==>
        && slept[i] == ComputeBackoffSecs(i + 1, WaitBase(rounds[i].reply), cfg.maxBackoffSecs)
        && slept[i] <= cfg.maxBackoffSecs
      decreases cfg.maxRetries + 1 - attempts
    {
      var reply := rounds[attempts].reply;
      MeetsNext(m, enabled, weight, rounds, attempts);
      var stuck := RunRound(limiter, enabled, weight, rounds[attempts]);
      attempts := attempts + 1;
      if stuck {
        return None, attempts, slept;
      }
      var answer := Decide(cfg, enabled, reply, attempts);
      if answer.Some? {
        return answer, attempts, slept;
      }
      BackoffCapped(attempts, WaitBase(reply), cfg.maxBackoffSecs);
      slept := slept + [ComputeBackoffSecs(attempts, WaitBase(reply), cfg.maxBackoffSecs)];
    }
  }

  lemma MeetsFirst(m: Buckets, enabled: bool, weight: u32, rounds: seq<Round>)
    ensures Meets(m, enabled, weight, rounds, 0) == m
  {
  }

  lemma MeetsNext(m: Buckets, enabled: bool, weight: u32, rounds: seq<Round>, i: nat)
    requires i < |rounds|
    ensures var n := Meets(m, enabled, weight, rounds, i);
      Meets(m, enabled, weight, rounds, i + 1) == RunLimiter(n, RoundOps(n, enabled, weight, rounds[i]))
  {
    hide RunLimiter, RoundOps;
    assert rounds[..i + 1][..i] == rounds[..i];
    var before := SendOps(m, enabled, weight, rounds[..i]);
    RunConcat(m, before, RoundOps(RunLimiter(m, before), enabled, weight, rounds[i]));
  }

  lemma BackoffCapped(attempt: nat, baseWait: nat, maxBackoffSecs: nat)
    requires attempt >= 1
    ensures ComputeBackoffSecs(attempt, baseWait, maxBackoffSecs) <= maxBackoffSecs
  {
  }
}
