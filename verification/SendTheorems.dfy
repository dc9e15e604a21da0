/** What a retrying send takes from the limiter. */
module SendTheorems {
  import opened Options
  import opened RateLimiter
  import opened LimiterTheorems
  import opened HttpClient

  lemma {:induction false} GrantsConcat(m: Buckets, a: seq<LimiterOp>, b: seq<LimiterOp>, key: LimitKey)
    ensures GrantsFor(m, a + b, key) == GrantsFor(m, a, key) + GrantsFor(RunLimiter(m, a), b, key)
    decreases |a|
  {
    hide LimiterStep;
    if a == [] {
      assert a + b == b;
    } else {
      var (n, granted) := LimiterStep(m, a[0]);
      var head := if a[0].On? && a[0].key == key && a[0].op.Acquire?
                  then [Grant(a[0].op.weight, a[0].op.at, granted)] else [];
      calc {
        GrantsFor(m, a + b, key);
        { assert (a + b)[0] == a[0] && (a + b)[1..] == a[1..] + b; }
        head + GrantsFor(n, a[1..] + b, key);
        { GrantsConcat(n, a[1..], b, key); }
        head + (GrantsFor(n, a[1..], key) + GrantsFor(RunLimiter(n, a[1..]), b, key));
        (head + GrantsFor(n, a[1..], key)) + GrantsFor(RunLimiter(n, a[1..]), b, key);
      }
    }
  }

  /** How many acquires were granted. */
  function GrantCount(grants: seq<Grant>): nat {
    if grants == [] then 0 else (if grants[0].granted then 1 else 0) + GrantCount(grants[1..])
  }

  lemma {:induction false} CountGrants(a: seq<Grant>, b: seq<Grant>)
    ensures GrantCount(a + b) == GrantCount(a) + GrantCount(b)
  {
    if a == [] {
      assert a + b == b;
    } else {
      assert (a + b)[1..] == a[1..] + b;
      CountGrants(a[1..], b);
    }
  }

  /** None of these operations asks for weight. */
  predicate NoAcquires(ops: seq<LimiterOp>) {
    forall i :: 0 <= i < |ops| ==> !(ops[i].On? && ops[i].op.Acquire?)
  }

  lemma {:induction false} NothingAsked(m: Buckets, ops: seq<LimiterOp>, key: LimitKey)
    requires NoAcquires(ops)
    ensures GrantsFor(m, ops, key) == []
    decreases |ops|
  {
    hide LimiterStep;
    if ops != [] {
      NothingAsked(LimiterStep(m, ops[0]).0, ops[1..], key);
    }
  }

  lemma {:induction false} IntervalsAskNothing(h: Headers, intervals: seq<LimitInterval>, at: nat)
    ensures NoAcquires(AllIntervalOps(h, intervals, at))
  {
    if intervals != [] {
      IntervalsAskNothing(h, intervals[1..], at);
    }
  }

  lemma RepliesAskNothing(r: Reply, at: nat)
    ensures NoAcquires(ReplyOps(r, at))
  {
    hide AllIntervalOps;
    if r.Response? {
      IntervalsAskNothing(r.headers, INTERVALS, at);
    }
  }

  /** Waiting ends with exactly one grant, or has none. */
  lemma {:induction false} WaitIsGrantedOnce(m: Buckets, weight: u32, wakes: seq<nat>)
    ensures GrantCount(GrantsFor(m, WaitOps(m, weight, wakes), REQUEST_WEIGHT_KEY)) ==
            if Waited(m, weight, wakes).1.Some? then 1 else 0
    decreases |wakes|
  {
    hide LimiterStep;
    if wakes != [] {
      var op := On(REQUEST_WEIGHT_KEY, Acquire(weight, wakes[0]));
      var (n, granted) := LimiterStep(m, op);
      var rest := WaitOps(n, weight, wakes[1..]);
      var first := Grant(weight, wakes[0], granted);
      WaitIsGrantedOnce(n, weight, wakes[1..]);
      GrantsConcat(m, [op], rest, REQUEST_WEIGHT_KEY);
      OneGrant(m, op);
      RunOne(m, op);
      CountGrants([first], GrantsFor(n, rest, REQUEST_WEIGHT_KEY));
      CountOne(first);
    }
  }

  lemma OneGrant(m: Buckets, op: LimiterOp)
    requires op.On? && op.key == REQUEST_WEIGHT_KEY && op.op.Acquire?
    ensures GrantsFor(m, [op], REQUEST_WEIGHT_KEY) == [Grant(op.op.weight, op.op.at, LimiterStep(m, op).1)]
  {
    hide LimiterStep;
    assert GrantsFor(LimiterStep(m, op).0, [op][1..], REQUEST_WEIGHT_KEY) == [];
  }

  lemma CountOne(g: Grant)
    ensures GrantCount([g]) == if g.granted then 1 else 0
  {
    assert GrantCount([g][1..]) == 0;
  }

  lemma RoundIsGrantedOnce(m: Buckets, weight: u32, r: Round)
    requires !Stuck(m, true, weight, r)
    ensures GrantCount(GrantsFor(m, RoundOps(m, true, weight, r), REQUEST_WEIGHT_KEY)) == 1
  {
    hide LimiterStep, RunLimiter, WaitOps, ReplyOps, GrantsFor, Waited;
    var wait, reply := WaitOps(m, weight, r.wakes), ReplyOps(r.reply, r.at);
    RepliesAskNothing(r.reply, r.at);
    NothingAsked(RunLimiter(m, wait), reply, REQUEST_WEIGHT_KEY);
    GrantsConcat(m, wait, reply, REQUEST_WEIGHT_KEY);
    WaitIsGrantedOnce(m, weight, r.wakes);
    CountGrants(GrantsFor(m, wait, REQUEST_WEIGHT_KEY), []);
    assert GrantCount([]) == 0;
  }

  /** A send with tracking on is granted its weight once for every attempt that was not left waiting. */
  lemma {:induction false} ChargedOncePerAttempt(m: Buckets, weight: u32, rounds: seq<Round>)
    requires forall i :: 0 <= i < |rounds| ==> !StuckAt(m, true, weight, rounds, i)
    ensures GrantCount(GrantsFor(m, SendOps(m, true, weight, rounds), REQUEST_WEIGHT_KEY)) == |rounds|
  {
    hide RunLimiter, RoundOps, GrantsFor, Stuck;
    if rounds == [] {
      NothingAsked(m, [], REQUEST_WEIGHT_KEY);
    } else {
      var k := |rounds| - 1;
      var front := rounds[..k];
      forall i | 0 <= i < k
        ensures !StuckAt(m, true, weight, front, i)
      {
        assert front[..i] == rounds[..i] && !StuckAt(m, true, weight, rounds, i);
      }
      ChargedOncePerAttempt(m, weight, front);
      var before := SendOps(m, true, weight, front);
      var n := Meets(m, true, weight, rounds, k);
      var last := RoundOps(n, true, weight, rounds[k]);
      assert !StuckAt(m, true, weight, rounds, k);
      RoundIsGrantedOnce(n, weight, rounds[k]);
      GrantsConcat(m, before, last, REQUEST_WEIGHT_KEY);
      CountGrants(GrantsFor(m, before, REQUEST_WEIGHT_KEY), GrantsFor(n, last, REQUEST_WEIGHT_KEY));
    }
  }

  // ----- What headers and replies leave behind -------------------------------------------------

  /** These operations leave the bucket of `key` alone. */
  predicate Spares(ops: seq<LimiterOp>, key: LimitKey) {
    forall i :: 0 <= i < |ops| ==> ops[i].On? && ops[i].key != key
  }

  lemma {:induction false} SparedStays(m: Buckets, ops: seq<LimiterOp>, key: LimitKey)
    requires Spares(ops, key)
    ensures Lookup(RunLimiter(m, ops), key) == Lookup(m, key)
    decreases |ops|
  {
    hide Applied;
    if ops != [] {
      StepIsLocal(m, ops[0], key);
      SparedStays(LimiterStep(m, ops[0]).0, ops[1..], key);
    }
  }

  /** The count that the headers report for an interval, by kind of limit. */
  function Reported(h: Headers, key: LimitKey): Option<u32> {
    match key.limitType
    case RequestWeight => if key.interval in h.weights then Some(h.weights[key.interval]) else None
    case Orders => if key.interval in h.orders then Some(h.orders[key.interval]) else None
    case RawRequests => None
  }

  lemma IntervalsOfOthers(h: Headers, i: LimitInterval, key: LimitKey, at: nat)
    requires key.interval != i || Reported(h, key).None?
    ensures Spares(IntervalOps(h, i, at), key)
  {
  }

  lemma {:induction false} OtherIntervals(h: Headers, intervals: seq<LimitInterval>, key: LimitKey, at: nat)
    requires key.interval !in intervals || Reported(h, key).None?
    ensures Spares(AllIntervalOps(h, intervals, at), key)
  {
    hide IntervalOps, Reported;
    if intervals != [] {
      IntervalsOfOthers(h, intervals[0], key, at);
      OtherIntervals(h, intervals[1..], key, at);
    }
  }

  lemma OwnInterval(m: Buckets, h: Headers, key: LimitKey, at: nat)
    requires Reported(h, key).Some?
    ensures var n := RunLimiter(m, IntervalOps(h, key.interval, at));
      key in n && n[key].usedWeight == Reported(h, key).value
  {
    hide RunLimiter, ResetIfExpired;
    var i := key.interval;
    var first := if i in h.weights then [On(LimitKey(RequestWeight, i), SyncUsed(h.weights[i], at))] else [];
    var second := if i in h.orders then [On(LimitKey(Orders, i), SyncUsed(h.orders[i], at))] else [];
    RunConcat(m, first, second);
    var middle := RunLimiter(m, first);
    if key.limitType == RequestWeight {
      RunOne(m, first[0]);
      SparedStays(middle, second, key);
      assert Lookup(middle, key).Some?;
    } else {
      RunOne(middle, second[0]);
    }
  }

  lemma {:induction false} IntervalsAreTaken(m: Buckets, h: Headers, intervals: seq<LimitInterval>, key: LimitKey,
                                             at: nat)
    requires key.interval in intervals && Reported(h, key).Some?
    requires forall i, j :: 0 <= i < j < |intervals| ==> intervals[i] != intervals[j]
    ensures var n := RunLimiter(m, AllIntervalOps(h, intervals, at));
      key in n && n[key].usedWeight == Reported(h, key).value
    decreases |intervals|
  {
    hide RunLimiter, IntervalOps, Reported;
    var first, rest := IntervalOps(h, intervals[0], at), AllIntervalOps(h, intervals[1..], at);
    RunConcat(m, first, rest);
    if key.interval == intervals[0] {
      OwnInterval(m, h, key, at);
      OtherIntervals(h, intervals[1..], key, at);
      SparedStays(RunLimiter(m, first), rest, key);
      assert Lookup(RunLimiter(m, first), key).Some?;
    } else {
      IntervalsAreTaken(RunLimiter(m, first), h, intervals[1..], key, at);
    }
  }

  /**
   After the headers of a response every count they report for an interval is the count of its
   bucket; without one, the plain used weight is that of the default bucket; buckets that nothing
   is reported about stay as they were.
   */
  lemma ReportedCountsAreTaken(m: Buckets, h: Headers, key: LimitKey, at: nat)
    ensures var n := RunLimiter(m, HeaderOps(h, at));
      match Reported(h, key)
      case Some(count) => key in n && n[key].usedWeight == count
      case None =>
        if key == LimitKey(RequestWeight, Minute)
        then h.used.Some? ==> key in n && n[key].usedWeight == h.used.value
        else Lookup(n, key) == Lookup(m, key)
  {
    hide RunLimiter, AllIntervalOps, Reported, ResetIfExpired;
    var limit := if h.limit.Some? then [On(REQUEST_WEIGHT_KEY, SyncLimit(h.limit.value, at))] else [];
    var used := if h.used.Some? then [On(REQUEST_WEIGHT_KEY, SyncUsed(h.used.value, at))] else [];
    var intervals := AllIntervalOps(h, INTERVALS, at);
    RunConcat(m, limit, used);
    RunConcat(m, limit + used, intervals);
    var middle := RunLimiter(m, limit + used);
    if Reported(h, key).Some? {
      AllIntervals(key.interval);
      IntervalsAreTaken(middle, h, INTERVALS, key, at);
    } else {
      OtherIntervals(h, INTERVALS, key, at);
      SparedStays(middle, intervals, key);
      if key != REQUEST_WEIGHT_KEY {
        SparedStays(m, limit + used, key);
      } else if h.used.Some? {
        RunOne(RunLimiter(m, limit), used[0]);
        assert Lookup(middle, key).Some?;
      }
    }
  }

  lemma AllIntervals(i: LimitInterval)
    ensures i in INTERVALS
  {
    assert INTERVALS[0] == Second && INTERVALS[1] == Minute && INTERVALS[2] == FiveMinute && INTERVALS[3] == Day;
  }

  /** A reported limit that is not zero becomes the quota of the default bucket. */
  lemma ReportedLimitIsKept(m: Buckets, h: Headers, at: nat)
    requires h.limit.Some? && h.limit.value != 0
    ensures var n := RunLimiter(m, HeaderOps(h, at)); var key := LimitKey(RequestWeight, Minute);
      key in n && n[key].quota.maxWeight == h.limit.value && n[key].discovered
  {
    hide RunLimiter, AllIntervalOps, Applied;
    var limit := [On(REQUEST_WEIGHT_KEY, SyncLimit(h.limit.value, at))];
    var used := if h.used.Some? then [On(REQUEST_WEIGHT_KEY, SyncUsed(h.used.value, at))] else [];
    var intervals := AllIntervalOps(h, INTERVALS, at);
    assert HeaderOps(h, at) == limit + (used + intervals);
    RunConcat(m, limit, used + intervals);
    RunOne(m, limit[0]);
    var n := RunLimiter(m, limit);
    ReportedLimitIsTaken(Ensured(Lookup(m, REQUEST_WEIGHT_KEY), REQUEST_WEIGHT_KEY, at), h.limit.value, at);
    OnlyCounts(h, INTERVALS, at);
    QuotaStays(n, used + intervals, REQUEST_WEIGHT_KEY);
  }

  predicate CountsOnly(ops: seq<LimiterOp>) {
    forall i :: 0 <= i < |ops| ==> ops[i].On? && ops[i].op.SyncUsed?
  }

  lemma {:induction false} OnlyCounts(h: Headers, intervals: seq<LimitInterval>, at: nat)
    ensures CountsOnly(AllIntervalOps(h, intervals, at))
  {
    if intervals != [] {
      OnlyCounts(h, intervals[1..], at);
    }
  }

  lemma {:induction false} QuotaStays(m: Buckets, ops: seq<LimiterOp>, key: LimitKey)
    requires CountsOnly(ops) && key in m
    ensures var n := RunLimiter(m, ops);
      key in n && n[key].quota == m[key].quota && n[key].discovered == m[key].discovered
    decreases |ops|
  {
    if ops != [] {
      var n := LimiterStep(m, ops[0]).0;
      assert key in n && n[key].quota == m[key].quota && n[key].discovered == m[key].discovered;
      QuotaStays(n, ops[1..], key);
    }
  }

  /**
   An attempt answered with a 429 leaves every bucket empty, its window starting at the answer,
   whatever the headers said; with tracking off no attempt touches the limiter.
   */
  lemma EmptyAfter429(m: Buckets, enabled: bool, weight: u32, r: Round, key: LimitKey)
    ensures var n := RunLimiter(m, RoundOps(m, enabled, weight, r));
      && (!enabled ==> n == m)
      && (enabled && !Stuck(m, enabled, weight, r) && r.reply.Response? && r.reply.tooMany && key in n ==>
            n[key].usedWeight == 0 && n[key].windowStart == r.at)
  {
    hide WaitOps, HeaderOps, Stuck, RunLimiter;
    NoRun(m);
    if enabled && !Stuck(m, enabled, weight, r) && r.reply.Response? && r.reply.tooMany {
      var before := WaitOps(m, weight, r.wakes) + HeaderOps(r.reply.headers, r.at);
      assert RoundOps(m, enabled, weight, r) == before + [Reset429(r.at)];
      RunConcat(m, before, [Reset429(r.at)]);
      RunOne(RunLimiter(m, before), Reset429(r.at));
    }
  }

  predicate NoResets429(ops: seq<LimiterOp>) {
    forall i :: 0 <= i < |ops| ==> !ops[i].Reset429?
  }

  lemma {:induction false} WaitResetsNothing(m: Buckets, weight: u32, wakes: seq<nat>)
    ensures NoResets429(WaitOps(m, weight, wakes))
    decreases |wakes|
  {
    hide LimiterStep;
    if wakes != [] {
      var op := On(REQUEST_WEIGHT_KEY, Acquire(weight, wakes[0]));
      WaitResetsNothing(LimiterStep(m, op).0, weight, wakes[1..]);
    }
  }

  /** Only an attempt answered with a 429 resets anything. */
  lemma ResetsOnlyAfter429(m: Buckets, enabled: bool, weight: u32, r: Round)
    ensures !(r.reply.Response? && r.reply.tooMany) ==> NoResets429(RoundOps(m, enabled, weight, r))
  {
    hide WaitOps, AllIntervalOps, Stuck;
    WaitResetsNothing(m, weight, r.wakes);
    if r.reply.Response? {
      OnlyCounts(r.reply.headers, INTERVALS, r.at);
    }
  }

  // ----- The window bound for a send ---------------------------------------------------------

  const NO_HEADERS: Headers := Headers(None, None, map[], map[])

  /** The responses carry no rate-limit headers. */
  predicate Silent(rounds: seq<Round>) {
    forall i :: 0 <= i < |rounds| && rounds[i].reply.Response? ==> rounds[i].reply.headers == NO_HEADERS
  }

  /** Acquires on the default key and 429 resets only. */
  predicate PlainOps(ops: seq<LimiterOp>) {
    forall i :: 0 <= i < |ops| ==>
      (ops[i].On? && ops[i].key == REQUEST_WEIGHT_KEY && ops[i].op.Acquire?) || ops[i].Reset429?
  }

  lemma {:induction false} WaitIsPlain(m: Buckets, weight: u32, wakes: seq<nat>)
    ensures PlainOps(WaitOps(m, weight, wakes))
    decreases |wakes|
  {
    hide LimiterStep;
    if wakes != [] {
      var op := On(REQUEST_WEIGHT_KEY, Acquire(weight, wakes[0]));
      WaitIsPlain(LimiterStep(m, op).0, weight, wakes[1..]);
    }
  }

  lemma {:induction false} NoIntervalOps(intervals: seq<LimitInterval>, at: nat)
    ensures AllIntervalOps(NO_HEADERS, intervals, at) == []
  {
    if intervals != [] {
      NoIntervalOps(intervals[1..], at);
    }
  }

  lemma {:induction false} SendIsPlain(m: Buckets, weight: u32, rounds: seq<Round>)
    requires Silent(rounds)
    ensures PlainOps(SendOps(m, true, weight, rounds))
  {
    hide LimiterStep, RunLimiter, WaitOps, AllIntervalOps, Stuck;
    if rounds != [] {
      var front, last := rounds[..|rounds| - 1], rounds[|rounds| - 1];
      SendIsPlain(m, weight, front);
      WaitIsPlain(RunLimiter(m, SendOps(m, true, weight, front)), weight, last.wakes);
      NoIntervalOps(INTERVALS, last.at);
    }
  }

  lemma {:induction false} ProjectionIsPlain(ops: seq<LimiterOp>)
    requires PlainOps(ops)
    ensures Plain(Project(ops, REQUEST_WEIGHT_KEY))
  {
    if ops != [] {
      ProjectionIsPlain(ops[1..]);
    }
  }

  /**
   However often it retries, a send whose responses carry no headers is granted at most twice the
   budget, plus one budget per 429, in any interval as long as the window.
   */
  lemma SendStaysInWindow(m: Buckets, weight: u32, rounds: seq<Round>, from: nat)
    requires Silent(rounds) && REQUEST_WEIGHT_KEY in m
    requires var mine := Project(SendOps(m, true, weight, rounds), REQUEST_WEIGHT_KEY);
      var b := m[REQUEST_WEIGHT_KEY];
      Clocked(b, mine) && NoWrap(b, mine) && b.usedWeight <= Budget(b.quota)
    ensures var ops := SendOps(m, true, weight, rounds); var b := m[REQUEST_WEIGHT_KEY];
      GrantedIn(GrantsFor(m, ops, REQUEST_WEIGHT_KEY), from, from + WindowNanos(b))
        <= (2 + ResetsIn(Project(ops, REQUEST_WEIGHT_KEY), from, from + WindowNanos(b))) * Budget(b.quota)
  {
    hide Budget, WindowNanos, Project, Clocked, NoWrap, ResetsIn, GrantedIn, GrantsFor, SendOps;
    var ops := SendOps(m, true, weight, rounds);
    SendIsPlain(m, weight, rounds);
    ProjectionIsPlain(ops);
    LimiterSlidingWindow(m, ops, REQUEST_WEIGHT_KEY, from);
  }
}
