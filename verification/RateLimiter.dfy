/**
 The multi-bucket rate limiter: fixed-window buckets that reset on the clock, created lazily
 and independent of each other. The clock is monotonic and counts nanoseconds; each operation
 takes the reading it acts on.
 */
module RateLimiter {
  import opened NatArith
  import opened Options

  const NANOS: nat := 1_000_000_000
  const DEFAULT_MAX_WEIGHT: u32 := 60

  type u32 = x: nat | x < U32

  datatype LimitType = RequestWeight | Orders | RawRequests

  datatype LimitInterval = Second | Minute | FiveMinute | Day {
    function AsSecs(): nat {
      match this
      case Second => 1
      case Minute => 60
      case FiveMinute => 300
      case Day => 86_400
    }
  }

  datatype LimitKey = LimitKey(limitType: LimitType, interval: LimitInterval)

  const REQUEST_WEIGHT_KEY: LimitKey := LimitKey(RequestWeight, Minute)

  datatype ApiQuota = ApiQuota(maxWeight: u32, windowSecs: nat)

  /** The value of one bucket. */
  datatype Bucket = Bucket(usedWeight: u32, windowStart: nat, quota: ApiQuota, discovered: bool)

  // ----- One bucket, as functions on its value ----------------------------------

  function NewBucket(quota: ApiQuota, now: nat): Bucket {
    Bucket(0, now, quota, false)
  }

  function ElapsedSecs(b: Bucket, now: nat): nat {
    if now >= b.windowStart then (now - b.windowStart) / NANOS else 0
  }

  lemma AddWholeSeconds(x: nat, secs: nat)
    ensures (x + secs * NANOS) / NANOS == x / NANOS + secs
  {
  }

  function ResetIfExpired(b: Bucket, now: nat): Bucket {
    if ElapsedSecs(b, now) >= b.quota.windowSecs then b.(usedWeight := 0, windowStart := now) else b
  }

  /** Nine tenths of the quota, rounded down. */
  function Budget(quota: ApiQuota): u32 {
    quota.maxWeight * 9 / 10
  }

  /** The 32-bit sum compared with the budget; it wraps around in a release build. */
  function WrappingAdd(x: u32, y: u32): u32 {
    (x + y) % U32
  }

  function Acquired(b: Bucket, weight: u32, now: nat): (Bucket, bool) {
    var c := ResetIfExpired(b, now);
    var sum := WrappingAdd(c.usedWeight, weight);
    if sum <= Budget(c.quota) then (c.(usedWeight := sum), true) else (c, false)
  }

  function UsedWeightSynced(b: Bucket, weight: u32, now: nat): Bucket {
    ResetIfExpired(b, now).(usedWeight := weight)
  }

  function LimitSynced(b: Bucket, limit: u32): Bucket {
    if limit != 0 && (!b.discovered || limit != b.quota.maxWeight)
    then b.(quota := b.quota.(maxWeight := limit), discovered := true)
    else b
  }

  function QuotaUpdated(b: Bucket, maxWeight: u32, windowSecs: nat): Bucket {
    var c := if maxWeight > 0 then b.(quota := b.quota.(maxWeight := maxWeight), discovered := true) else b;
    if windowSecs > 0 then c.(quota := c.quota.(windowSecs := windowSecs)) else c
  }

  function ResetBucket(b: Bucket, now: nat): Bucket {
    b.(usedWeight := 0, windowStart := now)
  }

  // ----- Operations and runs --------------------------------------------------------

  datatype BucketOp =
    | Acquire(weight: u32, at: nat)
    | SyncUsed(weight: u32, at: nat)
    | SyncLimit(limit: u32, at: nat)
    | SetQuota(maxWeight: u32, windowSecs: nat, at: nat)

  /** What reaches one bucket: an operation, a fresh registration, or the reset after a 429. */
  datatype KeyOp = Do(op: BucketOp) | Restart(maxWeight: u32, at: nat) | Reset(at: nat)

  datatype LimiterOp =
    | On(key: LimitKey, op: BucketOp)
    | Register(key: LimitKey, maxWeight: u32, at: nat)
    | Reset429(at: nat)

  function Applied(b: Bucket, op: BucketOp): (Bucket, bool) {
    match op
    case Acquire(w, at) => Acquired(b, w, at)
    case SyncUsed(w, at) => (UsedWeightSynced(b, w, at), false)
    case SyncLimit(limit, _) => (LimitSynced(b, limit), false)
    case SetQuota(m, w, _) => (QuotaUpdated(b, m, w), false)
  }

  function DefaultBucket(key: LimitKey, now: nat): Bucket {
    NewBucket(ApiQuota(DEFAULT_MAX_WEIGHT, key.interval.AsSecs()), now)
  }

  /** The bucket of `key`, created with the default quota when it does not exist yet. */
  function Ensured(b: Option<Bucket>, key: LimitKey, now: nat): Bucket {
    if b.Some? then b.value else DefaultBucket(key, now)
  }

  type Buckets = map<LimitKey, Bucket>

  function Lookup(m: Buckets, key: LimitKey): Option<Bucket> {
    if key in m then Some(m[key]) else None
  }

  function AllReset(m: Buckets, now: nat): Buckets {
    map k | k in m :: ResetBucket(m[k], now)
  }

  /** One step of the whole limiter: the new buckets and whether weight was granted. */
  function LimiterStep(m: Buckets, op: LimiterOp): (Buckets, bool) {
    match op
    case On(k, o) =>
      var (b, granted) := Applied(Ensured(Lookup(m, k), k, o.at), o);
      (m[k := b], granted)
    case Register(k, maxWeight, at) => (m[k := NewBucket(ApiQuota(maxWeight, k.interval.AsSecs()), at)], false)
    case Reset429(at) => (AllReset(m, at), false)
  }

  /** The limiter after a run of operations. */
  function RunLimiter(m: Buckets, ops: seq<LimiterOp>): Buckets
    decreases |ops|
  {
    if ops == [] then m else RunLimiter(LimiterStep(m, ops[0]).0, ops[1..])
  }

  lemma {:induction false} RunConcat(m: Buckets, a: seq<LimiterOp>, b: seq<LimiterOp>)
    ensures RunLimiter(m, a + b) == RunLimiter(RunLimiter(m, a), b)
    decreases |a|
  {
    hide LimiterStep;
    if a == [] {
      assert a + b == b;
    } else {
      assert (a + b)[1..] == a[1..] + b;
      RunConcat(LimiterStep(m, a[0]).0, a[1..], b);
    }
  }

  lemma RunOne(m: Buckets, op: LimiterOp)
    ensures RunLimiter(m, [op]) == LimiterStep(m, op).0
  {
    hide LimiterStep;
    var n := LimiterStep(m, op).0;
    assert RunLimiter(n, [op][1..]) == n;
  }

  /** One step of a single bucket standing alone. */
  function KeyStep(b: Option<Bucket>, key: LimitKey, op: KeyOp): (Option<Bucket>, bool) {
    match op
    case Do(o) =>
      var (c, granted) := Applied(Ensured(b, key, o.at), o);
      (Some(c), granted)
    case Restart(maxWeight, at) => (Some(NewBucket(ApiQuota(maxWeight, key.interval.AsSecs()), at)), false)
    case Reset(at) => (if b.Some? then Some(ResetBucket(b.value, at)) else None, false)
  }

  // ----- The stateful bucket -----------------------------------------------------------

  class TokenBucket {
    var usedWeight: u32
    var windowStart: nat
    var quota: ApiQuota
    var discovered: bool

    ghost function State(): Bucket
      reads this
    {
      Bucket(usedWeight, windowStart, quota, discovered)
    }

    constructor (quota: ApiQuota, now: nat)
      ensures State() == NewBucket(quota, now)
    {
      usedWeight := 0;
      windowStart := now;
      this.quota := quota;
      discovered := false;
    }

    method ResetIfExpiredNow(now: nat)
      modifies this
      ensures State() == ResetIfExpired(old(State()), now)
    {
      var elapsed := if now >= windowStart then (now - windowStart) / NANOS else 0;
      if elapsed >= quota.windowSecs {
        usedWeight := 0;
        windowStart := now;
      }
    }

    method TryAcquireWeighted(weight: u32, now: nat) returns (granted: bool)
      modifies this
      ensures (State(), granted) == Acquired(old(State()), weight, now)
    {
      ResetIfExpiredNow(now);
      var threshold := quota.maxWeight * 9 / 10;
      var sum := (usedWeight + weight) % U32;
      if sum <= threshold {
        usedWeight := sum;
        granted := true;
      } else {
        granted := false;
      }
    }

    /** The least number of whole seconds after which the window will have expired. */
    method SecsUntilReset(now: nat) returns (secs: nat)
      requires now >= windowStart
      ensures ElapsedSecs(State(), now + secs * NANOS) >= quota.windowSecs
      ensures secs > 0 ==> ElapsedSecs(State(), now + (secs - 1) * NANOS) < quota.windowSecs
    {
      var elapsed := (now - windowStart) / NANOS;
      secs := if elapsed <= quota.windowSecs then quota.windowSecs - elapsed else 0;
      AddWholeSeconds(now - windowStart, secs);
      if secs > 0 {
        AddWholeSeconds(now - windowStart, secs - 1);
      }
    }

    method UpdateUsedWeight(weight: u32, now: nat)
      modifies this
      ensures State() == UsedWeightSynced(old(State()), weight, now)
    {
      ResetIfExpiredNow(now);
      usedWeight := weight;
    }

    method UpdateQuotaFromLimit(limit: u32)
      modifies this
      ensures State() == LimitSynced(old(State()), limit)
    {
      if limit == 0 {
        return;
      }
      if !discovered || limit != quota.maxWeight {
        quota := quota.(maxWeight := limit);
        discovered := true;
      }
    }

    method UpdateQuota(maxWeight: u32, windowSecs: nat)
      modifies this
      ensures State() == QuotaUpdated(old(State()), maxWeight, windowSecs)
    {
      if maxWeight > 0 {
        quota := quota.(maxWeight := maxWeight);
        discovered := true;
      }
      if windowSecs > 0 {
        quota := quota.(windowSecs := windowSecs);
      }
    }

    method ResetAfter429(now: nat)
      modifies this
      ensures State() == ResetBucket(old(State()), now)
    {
      usedWeight := 0;
      windowStart := now;
    }
  }

  // ----- The stateful limiter -------------------------------------------------------------

  class Limiter {
    var buckets: map<LimitKey, TokenBucket>

    /** Every key has a bucket of its own. */
    ghost predicate Valid()
      reads this
    {
      forall k, l :: k in buckets && l in buckets && k != l ==> buckets[k] != buckets[l]
    }

    ghost function State(): Buckets
      reads this, buckets.Values
    {
      map k | k in buckets :: buckets[k].State()
    }

    constructor (quota: ApiQuota, now: nat)
      ensures Valid() && fresh(buckets.Values)
      ensures State() == map[REQUEST_WEIGHT_KEY := NewBucket(quota, now)]
    {
      var b := new TokenBucket(quota, now);
      buckets := map[REQUEST_WEIGHT_KEY := b];
    }

    method BucketMut(key: LimitKey, now: nat) returns (b: TokenBucket)
      requires Valid()
      modifies this
      ensures Valid() && key in buckets && buckets[key] == b
      ensures old(buckets.Keys) <= buckets.Keys <= old(buckets.Keys) + {key}
      ensures forall k :: k in old(buckets) ==> buckets[k] == old(buckets[k])
      ensures fresh(buckets.Values - old(buckets.Values))
      ensures State() == old(State())[key := Ensured(Lookup(old(State()), key), key, now)]
    {
      if key !in buckets {
        b := new TokenBucket(ApiQuota(DEFAULT_MAX_WEIGHT, key.interval.AsSecs()), now);
        buckets := buckets[key := b];
      }
      b := buckets[key];
    }

    method TryAcquireFor(key: LimitKey, weight: u32, now: nat) returns (granted: bool)
      requires Valid()
      modifies this, buckets.Values
      ensures Valid() && fresh(buckets.Values - old(buckets.Values))
      ensures State() == LimiterStep(old(State()), On(key, Acquire(weight, now))).0
      ensures granted == LimiterStep(old(State()), On(key, Acquire(weight, now))).1
    {
      hide Acquired, Ensured;
      var b := BucketMut(key, now);
      ghost var ensured := State();
      assert b.State() == ensured[key];
      granted := b.TryAcquireWeighted(weight, now);
      assert State() == ensured[key := b.State()];
    }

    method UpdateUsedWeightFor(key: LimitKey, weight: u32, now: nat)
      requires Valid()
      modifies this, buckets.Values
      ensures Valid() && fresh(buckets.Values - old(buckets.Values))
      ensures State() == LimiterStep(old(State()), On(key, SyncUsed(weight, now))).0
    {
      hide UsedWeightSynced, Ensured;
      var b := BucketMut(key, now);
      ghost var ensured := State();
      assert b.State() == ensured[key];
      b.UpdateUsedWeight(weight, now);
      assert State() == ensured[key := b.State()];
    }

    method UpdateQuotaFromLimitFor(key: LimitKey, limit: u32, now: nat)
      requires Valid()
      modifies this, buckets.Values
      ensures Valid() && fresh(buckets.Values - old(buckets.Values))
      ensures State() == LimiterStep(old(State()), On(key, SyncLimit(limit, now))).0
    {
      hide LimitSynced, Ensured;
      var b := BucketMut(key, now);
      ghost var ensured := State();
      assert b.State() == ensured[key];
      b.UpdateQuotaFromLimit(limit);
      assert State() == ensured[key := b.State()];
    }

    method UpdateQuotaFor(key: LimitKey, maxWeight: u32, windowSecs: nat, now: nat)
      requires Valid()
      modifies this, buckets.Values
      ensures Valid() && fresh(buckets.Values - old(buckets.Values))
      ensures State() == LimiterStep(old(State()), On(key, SetQuota(maxWeight, windowSecs, now))).0
    {
      hide QuotaUpdated, Ensured;
      var b := BucketMut(key, now);
      ghost var ensured := State();
      assert b.State() == ensured[key];
      b.UpdateQuota(maxWeight, windowSecs);
      assert State() == ensured[key := b.State()];
    }

    method RegisterBucket(key: LimitKey, maxWeight: u32, now: nat)
      requires Valid()
      modifies this
      ensures Valid() && fresh(buckets.Values - old(buckets.Values))
      ensures State() == LimiterStep(old(State()), Register(key, maxWeight, now)).0
    {
      var b := new TokenBucket(ApiQuota(maxWeight, key.interval.AsSecs()), now);
      buckets := buckets[key := b];
    }

    method ResetAfter429(now: nat)
      requires Valid()
      modifies buckets.Values
      ensures Valid() && buckets == old(buckets)
      ensures State() == LimiterStep(old(State()), Reset429(now)).0
    {
      var todo := buckets.Keys;
      while todo != {}
        invariant todo <= buckets.Keys
        invariant forall k :: k in buckets && k in todo ==> buckets[k].State() == old(buckets[k].State())
        invariant forall k :: k in buckets && k !in todo ==>
                    buckets[k].State() == ResetBucket(old(buckets[k].State()), now)
        decreases todo
      {
        var k :| k in todo;
        buckets[k].ResetAfter429(now);
        todo := todo - {k};
      }
    }
  }
}
