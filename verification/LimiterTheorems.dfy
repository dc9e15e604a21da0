/** Whole-run guarantees of the rate limiter. */
module LimiterTheorems {
  import opened NatArith
  import opened Options
  import opened RateLimiter

  // ----- Each key runs as a bucket of its own ---------------------------------------

  /** The answer to one acquire. */
  datatype Grant = Grant(weight: u32, at: nat, granted: bool)

  /** The answers that callers of `key` receive during a run of the whole limiter. */
  function GrantsFor(m: Buckets, ops: seq<LimiterOp>, key: LimitKey): seq<Grant>
    decreases |ops|
  {
    if ops == [] then []
    else
      var (n, granted) := LimiterStep(m, ops[0]);
      (if ops[0].On? && ops[0].key == key && ops[0].op.Acquire?
       then [Grant(ops[0].op.weight, ops[0].op.at, granted)] else [])
      + GrantsFor(n, ops[1..], key)
  }

  function RunKey(b: Option<Bucket>, key: LimitKey, ops: seq<KeyOp>): Option<Bucket>
    decreases |ops|
  {
    if ops == [] then b else RunKey(KeyStep(b, key, ops[0]).0, key, ops[1..])
  }

  /** The answers of a bucket that stands alone. */
  function KeyGrants(b: Option<Bucket>, key: LimitKey, ops: seq<KeyOp>): seq<Grant>
    decreases |ops|
  {
    if ops == [] then []
    else
      var (c, granted) := KeyStep(b, key, ops[0]);
      (if ops[0].Do? && ops[0].op.Acquire? then [Grant(ops[0].op.weight, ops[0].op.at, granted)] else [])
      + KeyGrants(c, key, ops[1..])
  }

  /** The operations of a run that concern `key`: its own, its registrations, and every 429 reset. */
  function Project(ops: seq<LimiterOp>, key: LimitKey): seq<KeyOp> {
    if ops == [] then []
    else
      (match ops[0]
       case On(k, o) => if k == key then [Do(o)] else []
       case Register(k, maxWeight, at) => if k == key then [Restart(maxWeight, at)] else []
       case Reset429(at) => [KeyOp.Reset(at)])
      + Project(ops[1..], key)
  }

  /**
   Buckets do not interfere: for every run, every key ends in the state, and gives the
   answers, of a single bucket fed only that key's operations.
   */
  lemma {:induction false} BucketsAreIndependent(m: Buckets, ops: seq<LimiterOp>, key: LimitKey)
    ensures Lookup(RunLimiter(m, ops), key) == RunKey(Lookup(m, key), key, Project(ops, key))
    ensures GrantsFor(m, ops, key) == KeyGrants(Lookup(m, key), key, Project(ops, key))
    decreases |ops|
  {
    hide Applied, Ensured, NewBucket, ResetBucket;
    if ops != [] {
      var n := LimiterStep(m, ops[0]).0;
      BucketsAreIndependent(n, ops[1..], key);
      var rest := Project(ops[1..], key);
      if Project(ops, key) != rest {
        assert Project(ops, key)[1..] == rest;
      }
    }
  }

  // ----- Sliding-window bound ----------------------------------------------------------

  function GrantedIn(grants: seq<Grant>, from: nat, until: nat): nat {
    if grants == [] then 0
    else
      (if grants[0].granted && from <= grants[0].at < until then grants[0].weight else 0)
      + GrantedIn(grants[1..], from, until)
  }

  function TimeOf(op: KeyOp): nat {
    match op
    case Do(o) => o.at
    case Restart(_, at) => at
    case Reset(at) => at
  }

  /** Acquires and 429 resets only: the quota stays fixed and no header overwrites the count. */
  predicate Plain(ops: seq<KeyOp>) {
    forall i :: 0 <= i < |ops| ==> (ops[i].Do? && ops[i].op.Acquire?) || ops[i].Reset?
  }

  /** Operations come at non-decreasing times, none before the bucket's window began. */
  predicate Clocked(b: Bucket, ops: seq<KeyOp>) {
    && (forall i :: 0 <= i < |ops| ==> b.windowStart <= TimeOf(ops[i]))
    && (forall i, j :: 0 <= i < j < |ops| ==> TimeOf(ops[i]) <= TimeOf(ops[j]))
  }

  /** No request can push the 32-bit counter past its width. */
  predicate NoWrap(b: Bucket, ops: seq<KeyOp>) {
    forall i :: 0 <= i < |ops| && ops[i].Do? && ops[i].op.Acquire? ==> Budget(b.quota) + ops[i].op.weight < U32
  }

  predicate Sound(b: Bucket, ops: seq<KeyOp>) {
    Plain(ops) && Clocked(b, ops) && NoWrap(b, ops) && b.usedWeight <= Budget(b.quota)
  }

  function WindowNanos(b: Bucket): nat {
    b.quota.windowSecs * NANOS
  }

  /** How many 429 resets fall into a time interval. */
  function ResetsIn(ops: seq<KeyOp>, from: nat, until: nat): nat {
    if ops == [] then 0
    else (if ops[0].Reset? && from <= ops[0].at < until then 1 else 0) + ResetsIn(ops[1..], from, until)
  }

  lemma Expiry(b: Bucket, now: nat)
    ensures ElapsedSecs(b, now) >= b.quota.windowSecs <==>
              b.quota.windowSecs == 0 || now >= b.windowStart + WindowNanos(b)
  {
  }

  /** One plain operation: the budget is respected and the window only moves forward. */
  lemma PlainStep(b: Bucket, key: LimitKey, ops: seq<KeyOp>)
    requires Sound(b, ops) && ops != []
    ensures var (c, granted) := KeyStep(Some(b), key, ops[0]);
      && c.Some? && c.value.quota == b.quota && WindowNanos(c.value) == WindowNanos(b)
      && Sound(c.value, ops[1..])
      && (ops[0].Reset? ==> c.value.usedWeight == 0 && c.value.windowStart == ops[0].at)
      && (ops[0].Do? ==>
            var before := ResetIfExpired(b, ops[0].op.at);
            && c.value.windowStart == before.windowStart
            && c.value.usedWeight == before.usedWeight + (if granted then ops[0].op.weight else 0))
  {
  }

  lemma {:induction false} NothingAfter(b: Bucket, key: LimitKey, ops: seq<KeyOp>, from: nat, until: nat)
    requires forall i :: 0 <= i < |ops| ==> TimeOf(ops[i]) >= until
    ensures GrantedIn(KeyGrants(Some(b), key, ops), from, until) == 0
    decreases |ops|
  {
    hide Applied, ResetBucket;
    if ops != [] {
      var c := KeyStep(Some(b), key, ops[0]).0.value;
      NothingAfter(c, key, ops[1..], from, until);
      GrantedHead(Some(b), key, ops, from, until);
    }
  }

  /** What the first operation adds to the weight granted in an interval. */
  lemma GrantedHead(b: Option<Bucket>, key: LimitKey, ops: seq<KeyOp>, from: nat, until: nat)
    requires ops != []
    ensures var (c, granted) := KeyStep(b, key, ops[0]);
      GrantedIn(KeyGrants(b, key, ops), from, until) ==
        (if granted && ops[0].Do? && ops[0].op.Acquire? && from <= ops[0].op.at < until then ops[0].op.weight else 0)
        + GrantedIn(KeyGrants(c, key, ops[1..]), from, until)
  {
    hide Applied, ResetBucket, NewBucket, Ensured;
    var (c, granted) := KeyStep(b, key, ops[0]);
    var rest := KeyGrants(c, key, ops[1..]);
    if ops[0].Do? && ops[0].op.Acquire? {
      assert KeyGrants(b, key, ops)[1..] == rest;
    } else {
      assert KeyGrants(b, key, ops) == rest;
    }
  }

  /** Before the current window ends, only what is left of the budget can be granted, and one budget per reset. */
  lemma {:induction false} WithinWindow(b: Bucket, key: LimitKey, ops: seq<KeyOp>, from: nat, until: nat)
    requires Sound(b, ops) && until <= b.windowStart + WindowNanos(b)
    requires forall i :: 0 <= i < |ops| ==> TimeOf(ops[i]) >= from
    ensures GrantedIn(KeyGrants(Some(b), key, ops), from, until)
         <= Budget(b.quota) - b.usedWeight + ResetsIn(ops, from, until) * Budget(b.quota)
    decreases |ops|
  {
    hide KeyStep, Budget, WindowNanos, ElapsedSecs, KeyGrants, GrantedIn, Sound;
    if ops == [] {
      NoOps(b, key, from, until);
    } else {
      BudgetHeld(b, ops);
      if TimeOf(ops[0]) >= until {
        TimesGrow(b, ops);
        NothingAfter(b, key, ops, from, until);
      } else {
        PlainStep(b, key, ops);
        var c := KeyStep(Some(b), key, ops[0]).0.value;
        Expiry(b, TimeOf(ops[0]));
        NoWindow(b);
        GrantedHead(Some(b), key, ops, from, until);
        WithinWindow(c, key, ops[1..], from, until);
        OneMore(ResetsIn(ops[1..], from, until), Budget(b.quota));
      }
    }
  }

  lemma NoOps(b: Bucket, key: LimitKey, from: nat, until: nat)
    requires Sound(b, [])
    ensures GrantedIn(KeyGrants(Some(b), key, []), from, until) == 0
    ensures b.usedWeight <= Budget(b.quota)
  {
  }

  lemma BudgetHeld(b: Bucket, ops: seq<KeyOp>)
    requires Sound(b, ops) && ops != []
    ensures b.usedWeight <= Budget(b.quota)
    ensures b.windowStart <= TimeOf(ops[0])
    ensures ops[0].Reset? || (ops[0].Do? && ops[0].op.Acquire?)
  {
  }

  lemma TimesGrow(b: Bucket, ops: seq<KeyOp>)
    requires Sound(b, ops) && ops != []
    ensures forall i :: 0 <= i < |ops| ==> TimeOf(ops[i]) >= TimeOf(ops[0])
  {
  }

  lemma NoWindow(b: Bucket)
    ensures b.quota.windowSecs == 0 ==> WindowNanos(b) == 0
  {
  }

  lemma OneMore(n: nat, budget: nat)
    ensures (n + 1) * budget == n * budget + budget
    ensures n * budget >= 0
  {
  }

  /** Once inside the interval: the rest of this window, one more window, and one budget per reset. */
  lemma {:induction false} FromInside(b: Bucket, key: LimitKey, ops: seq<KeyOp>, from: nat)
    requires Sound(b, ops)
    requires forall i :: 0 <= i < |ops| ==> TimeOf(ops[i]) >= from
    ensures GrantedIn(KeyGrants(Some(b), key, ops), from, from + WindowNanos(b))
         <= 2 * Budget(b.quota) - b.usedWeight + ResetsIn(ops, from, from + WindowNanos(b)) * Budget(b.quota)
    decreases |ops|
  {
    hide KeyStep, Budget, WindowNanos, ElapsedSecs, KeyGrants, GrantedIn, Sound;
    var until := from + WindowNanos(b);
    if ops == [] {
      NoOps(b, key, from, until);
    } else {
      BudgetHeld(b, ops);
      PlainStep(b, key, ops);
      var c := KeyStep(Some(b), key, ops[0]).0.value;
      GrantedHead(Some(b), key, ops, from, until);
      OneMore(ResetsIn(ops[1..], from, until), Budget(b.quota));
      if ops[0].Reset? || ElapsedSecs(b, TimeOf(ops[0])) >= b.quota.windowSecs {
        WithinWindow(c, key, ops[1..], from, until);
      } else {
        FromInside(c, key, ops[1..], from);
      }
    }
  }

  /**
   In any half-open interval as long as the window, at most twice the budget is granted, plus
   one budget for each 429 reset inside it, for every run of acquires and resets.
   */
  lemma {:induction false} SlidingWindowBound(b: Bucket, key: LimitKey, ops: seq<KeyOp>, from: nat)
    requires Sound(b, ops)
    ensures GrantedIn(KeyGrants(Some(b), key, ops), from, from + WindowNanos(b))
         <= (2 + ResetsIn(ops, from, from + WindowNanos(b))) * Budget(b.quota)
    decreases |ops|
  {
    hide KeyStep, Budget, WindowNanos, ElapsedSecs, KeyGrants, GrantedIn, Sound;
    var until := from + WindowNanos(b);
    var n := ResetsIn(ops, from, until);
    OneMore(n, Budget(b.quota));
    OneMore(n + 1, Budget(b.quota));
    if ops == [] {
      NoOps(b, key, from, until);
    } else {
      BudgetHeld(b, ops);
      if TimeOf(ops[0]) >= from {
        TimesGrow(b, ops);
        FromInside(b, key, ops, from);
      } else {
        PlainStep(b, key, ops);
        var c := KeyStep(Some(b), key, ops[0]).0.value;
        GrantedHead(Some(b), key, ops, from, until);
        SlidingWindowBound(c, key, ops[1..], from);
      }
    }
  }

  // ----- The bound is reached ----------------------------------------------------------

  /** Requests of weight one, all at one time. */
  function Units(at: nat, n: nat): seq<KeyOp> {
    if n == 0 then [] else [Do(Acquire(1, at))] + Units(at, n - 1)
  }

  /** A 429 reset followed by `n` unit requests, `k` times over, all at one time. */
  function Refills(at: nat, n: nat, k: nat): seq<KeyOp> {
    if k == 0 then [] else [KeyOp.Reset(at)] + (Units(at, n) + Refills(at, n, k - 1))
  }

  /**
   The window starts afresh, its budget is used up in its last nanosecond and the next one's right
   after, and `k` resets refill it at once.
   */
  function Burst(b: Bucket, k: nat): seq<KeyOp> {
    var end, n := b.windowStart + WindowNanos(b), Budget(b.quota);
    var last := if end > 0 then end - 1 else 0;
    [KeyOp.Reset(b.windowStart)] + (Units(last, n) + (Units(end, n) + Refills(end, n, k)))
  }

  /** Unit requests and resets only, all at one time. */
  predicate AllAt(ops: seq<KeyOp>, at: nat) {
    forall i :: 0 <= i < |ops| ==> ops[i] == KeyOp.Reset(at) || ops[i] == Do(Acquire(1, at))
  }

  lemma {:induction false} UnitsAllAt(at: nat, n: nat)
    ensures AllAt(Units(at, n), at)
  {
    if n > 0 {
      UnitsAllAt(at, n - 1);
    }
  }

  lemma {:induction false} RefillsAllAt(at: nat, n: nat, k: nat)
    ensures AllAt(Refills(at, n, k), at)
  {
    hide Units;
    if k > 0 {
      UnitsAllAt(at, n);
      RefillsAllAt(at, n, k - 1);
    }
  }

  lemma BurstIsSound(b: Bucket, k: nat)
    requires b.quota.windowSecs > 0 && b.usedWeight <= Budget(b.quota)
    ensures Sound(b, Burst(b, k))
  {
    hide Units, Refills, WindowNanos;
    var end, n := b.windowStart + WindowNanos(b), Budget(b.quota);
    WindowIsLong(b);
    UnitsAllAt(end - 1, n);
    UnitsAllAt(end, n);
    RefillsAllAt(end, n, k);
    AllAtIsSound(b, [KeyOp.Reset(b.windowStart)], Units(end - 1, n), Units(end, n) + Refills(end, n, k), end - 1);
  }

  lemma WindowIsLong(b: Bucket)
    requires b.quota.windowSecs > 0
    ensures WindowNanos(b) >= NANOS
  {
  }

  lemma AllAtIsSound(b: Bucket, start: seq<KeyOp>, before: seq<KeyOp>, after: seq<KeyOp>, last: nat)
    requires b.usedWeight <= Budget(b.quota) && b.windowStart <= last
    requires AllAt(start, b.windowStart) && AllAt(before, last) && AllAt(after, last + 1)
    ensures Sound(b, start + (before + after))
  {
  }

  /** Unit requests within the budget are all granted. */
  lemma {:induction false} UnitsAreGranted(b: Bucket, key: LimitKey, at: nat, n: nat, rest: seq<KeyOp>,
                                           from: nat, until: nat)
    requires b.quota.windowSecs > 0 && n > 0 && from <= at < until
    requires ResetIfExpired(b, at).usedWeight + n <= Budget(b.quota)
    ensures var c := ResetIfExpired(b, at);
      GrantedIn(KeyGrants(Some(b), key, Units(at, n) + rest), from, until) ==
        n + GrantedIn(KeyGrants(Some(c.(usedWeight := c.usedWeight + n)), key, rest), from, until)
    ensures ResetsIn(Units(at, n) + rest, from, until) == ResetsIn(rest, from, until)
    decreases n
  {
    hide KeyGrants, GrantedIn, Budget;
    var ops := Units(at, n) + rest;
    var c := ResetIfExpired(b, at);
    var d := c.(usedWeight := c.usedWeight + 1);
    assert ops[0] == Do(Acquire(1, at)) && ops[1..] == Units(at, n - 1) + rest;
    UnitStep(b, key, at);
    GrantedHead(Some(b), key, ops, from, until);
    if n > 1 {
      UnitsAreGranted(d, key, at, n - 1, rest, from, until);
    } else {
      assert ops[1..] == rest;
    }
  }

  lemma UnitStep(b: Bucket, key: LimitKey, at: nat)
    requires b.quota.windowSecs > 0 && ResetIfExpired(b, at).usedWeight < Budget(b.quota)
    ensures var c := ResetIfExpired(b, at); var d := c.(usedWeight := c.usedWeight + 1);
      KeyStep(Some(b), key, Do(Acquire(1, at))) == (Some(d), true) && ResetIfExpired(d, at) == d
  {
  }

  /** Every reset lets a whole budget through. */
  lemma {:induction false} RefillsAreGranted(b: Bucket, key: LimitKey, at: nat, k: nat, from: nat, until: nat)
    requires b.quota.windowSecs > 0 && Budget(b.quota) > 0 && from <= at < until
    ensures var ops := Refills(at, Budget(b.quota), k);
      && GrantedIn(KeyGrants(Some(b), key, ops), from, until) == k * Budget(b.quota)
      && ResetsIn(ops, from, until) == k
    decreases k
  {
    hide KeyGrants, GrantedIn, Budget, Units;
    var n := Budget(b.quota);
    var ops := Refills(at, n, k);
    if k == 0 {
      assert GrantedIn(KeyGrants(Some(b), key, ops), from, until) == 0 by {
        NothingAfter(b, key, [], from, until);
      }
    } else {
      var rest := Refills(at, n, k - 1);
      var c := ResetBucket(b, at);
      assert ops[1..] == Units(at, n) + rest;
      assert KeyStep(Some(b), key, ops[0]).0 == Some(c) && ResetIfExpired(c, at) == c;
      GrantedHead(Some(b), key, ops, from, until);
      UnitsAreGranted(c, key, at, n, rest, from, until);
      RefillsAreGranted(c.(usedWeight := n), key, at, k - 1, from, until);
      OneMore(k - 1, n);
    }
  }

  /**
   The bound is reached by every bucket with a budget and a window, for every number of resets: a
   run that it covers is granted all of it.
   */
  lemma BoundIsReached(b: Bucket, key: LimitKey, k: nat)
    requires b.quota.windowSecs > 0 && 0 < Budget(b.quota) && b.usedWeight <= Budget(b.quota)
    ensures var ops := Burst(b, k); var from := b.windowStart + WindowNanos(b) - 1;
      && Sound(b, ops)
      && ResetsIn(ops, from, from + WindowNanos(b)) == k
      && GrantedIn(KeyGrants(Some(b), key, ops), from, from + WindowNanos(b)) == (2 + k) * Budget(b.quota)
  {
    hide KeyGrants, GrantedIn, Budget, Units, Refills, ResetsIn, Sound, ElapsedSecs;
    BurstIsSound(b, k);
    WindowIsLong(b);
    var n, end := Budget(b.quota), b.windowStart + WindowNanos(b);
    var last, until := end - 1, end - 1 + WindowNanos(b);
    var second := Units(end, n) + Refills(end, n, k);
    var first := Units(last, n) + second;
    var ops := Burst(b, k);
    assert ops[0] == KeyOp.Reset(b.windowStart) && ops[1..] == first;
    var emptied := ResetBucket(b, b.windowStart);
    GrantedHead(Some(b), key, ops, last, until);
    ResetsHead(ops, last, until);
    Expiry(emptied, last);
    UnitsAreGranted(emptied, key, last, n, second, last, until);
    var full := emptied.(usedWeight := n);
    Expiry(full, end);
    UnitsAreGranted(full, key, end, n, Refills(end, n, k), last, until);
    RefillsAreGranted(full.(windowStart := end), key, end, k, last, until);
    OneMore(k, n);
    OneMore(k + 1, n);
  }

  lemma ResetsHead(ops: seq<KeyOp>, from: nat, until: nat)
    requires ops != []
    ensures ResetsIn(ops, from, until) ==
      (if ops[0].Reset? && from <= ops[0].at < until then 1 else 0) + ResetsIn(ops[1..], from, until)
  {
  }

  /** Runs with `k` resets in an interval as long as the window are granted at most twice the budget in it. */
  ghost predicate TwiceHolds(b: Bucket, key: LimitKey, k: nat) {
    forall ops, from: nat :: Sound(b, ops) && WindowResets(b, ops, from) == k ==>
      WindowGrants(b, key, ops, from) <= 2 * Budget(b.quota)
  }

  function WindowResets(b: Bucket, ops: seq<KeyOp>, from: nat): nat {
    ResetsIn(ops, from, from + WindowNanos(b))
  }

  function WindowGrants(b: Bucket, key: LimitKey, ops: seq<KeyOp>, from: nat): nat {
    GrantedIn(KeyGrants(Some(b), key, ops), from, from + WindowNanos(b))
  }

  /** Twice the budget is the limit exactly without a 429 reset, except where nothing is ever granted. */
  lemma TwiceHoldsExactly(b: Bucket, key: LimitKey, k: nat)
    requires b.usedWeight <= Budget(b.quota)
    ensures TwiceHolds(b, key, k) <==> k == 0 || b.quota.windowSecs == 0 || Budget(b.quota) == 0
  {
    hide KeyGrants, GrantedIn, Budget, ResetsIn, Sound, Burst, WindowNanos;
    var n: nat := Budget(b.quota);
    if k == 0 || b.quota.windowSecs == 0 || n == 0 {
      forall ops, from: nat | Sound(b, ops) && WindowResets(b, ops, from) == k
        ensures WindowGrants(b, key, ops, from) <= 2 * n
      {
        SlidingWindowBound(b, key, ops, from);
        if b.quota.windowSecs == 0 {
          NoWindow(b);
          NoResets(ops, from);
        }
      }
    } else {
      WindowIsLong(b);
      var from := b.windowStart + WindowNanos(b) - 1;
      BoundIsReached(b, key, k);
      MulStrict(2, 2 + k, n);
      assert WindowResets(b, Burst(b, k), from) == k && WindowGrants(b, key, Burst(b, k), from) > 2 * n;
    }
  }

  lemma {:induction false} NoResets(ops: seq<KeyOp>, at: nat)
    ensures ResetsIn(ops, at, at) == 0
  {
    if ops != [] {
      NoResets(ops[1..], at);
    }
  }

  // ----- The bound for one key of the whole limiter ----------------------------------------

  /** A missing bucket has nothing to reset, so the operations that matter begin with the first other one. */
  function WithoutLeadingResets(ops: seq<KeyOp>): seq<KeyOp> {
    if ops != [] && ops[0].Reset? then WithoutLeadingResets(ops[1..]) else ops
  }

  /** The operations of a run that reach a bucket of `key`. */
  function Effective(m: Buckets, ops: seq<LimiterOp>, key: LimitKey): seq<KeyOp> {
    if key in m then Project(ops, key) else WithoutLeadingResets(Project(ops, key))
  }

  /** The bucket that meets the first of `ops`: the existing one, or the one created for it. */
  function BucketFacing(m: Buckets, key: LimitKey, ops: seq<KeyOp>): Bucket {
    if key in m then m[key] else DefaultBucket(key, if ops == [] then 0 else TimeOf(ops[0]))
  }

  lemma {:induction false} ResetsBeforeCreation(key: LimitKey, ops: seq<KeyOp>)
    ensures KeyGrants(None, key, ops) == KeyGrants(None, key, WithoutLeadingResets(ops))
    ensures WithoutLeadingResets(ops) != [] ==> !WithoutLeadingResets(ops)[0].Reset?
  {
    if ops != [] && ops[0].Reset? {
      ResetsBeforeCreation(key, ops[1..]);
    }
  }

  /** Operations on a missing bucket are answered as by the bucket created for the first of them. */
  lemma CreatedBucketAnswers(key: LimitKey, ops: seq<KeyOp>)
    requires Plain(ops) && (ops == [] || ops[0].Do?)
    ensures KeyGrants(None, key, ops) ==
            KeyGrants(Some(DefaultBucket(key, if ops == [] then 0 else TimeOf(ops[0]))), key, ops)
  {
    hide Applied;
  }

  /**
   The same bound for a key of the whole limiter, over every interleaving with operations on
   other keys, whether or not the key exists beforehand.
   */
  lemma LimiterSlidingWindow(m: Buckets, ops: seq<LimiterOp>, key: LimitKey, from: nat)
    requires var mine := Effective(m, ops, key); Sound(BucketFacing(m, key, mine), mine)
    ensures var mine := Effective(m, ops, key); var b := BucketFacing(m, key, mine);
      GrantedIn(GrantsFor(m, ops, key), from, from + WindowNanos(b))
        <= (2 + ResetsIn(mine, from, from + WindowNanos(b))) * Budget(b.quota)
  {
    hide Applied, Budget, WindowNanos, Project, Sound, ResetsIn, GrantedIn, KeyGrants;
    var mine := Effective(m, ops, key);
    var b := BucketFacing(m, key, mine);
    BucketsAreIndependent(m, ops, key);
    if key !in m {
      ResetsBeforeCreation(key, Project(ops, key));
      SoundIsPlain(b, mine);
      CreatedBucketAnswers(key, mine);
    }
    SlidingWindowBound(b, key, mine, from);
  }

  lemma SoundIsPlain(b: Bucket, ops: seq<KeyOp>)
    requires Sound(b, ops)
    ensures Plain(ops)
    ensures ops != [] ==> ops[0].Reset? || ops[0].Do?
  {
  }

  // ----- One step, in numbers --------------------------------------------------------------------

  /** The window has run out: its seconds have passed on the nanosecond clock. */
  predicate Expired(b: Bucket, now: nat) {
    b.quota.windowSecs == 0 || now >= b.windowStart + b.quota.windowSecs * 1_000_000_000
  }

  function UsedAt(b: Bucket, now: nat): nat {
    if Expired(b, now) then 0 else b.usedWeight
  }

  /** The budget is nine tenths of the quota, less than one unit below it. */
  lemma BudgetIsNineTenths(quota: ApiQuota)
    ensures 10 * Budget(quota) <= 9 * quota.maxWeight < 10 * Budget(quota) + 10
  {
  }

  lemma ExpiredIsReset(b: Bucket, now: nat)
    ensures ResetIfExpired(b, now) == if Expired(b, now) then b.(usedWeight := 0, windowStart := now) else b
  {
    Expiry(b, now);
  }

  /**
   Weight is granted if and only if the count stays within nine tenths of the quota; it is then
   added, and refused weight changes nothing but an expired window.
   */
  lemma GrantIsExact(b: Bucket, w: u32, now: nat)
    requires UsedAt(b, now) + w < 0x1_0000_0000
    ensures var (c, granted) := Applied(b, Acquire(w, now)); var used := UsedAt(b, now);
      && (granted <==> 10 * (used + w) <= 9 * b.quota.maxWeight)
      && c.usedWeight == (if granted then used + w else used)
      && c.windowStart == (if Expired(b, now) then now else b.windowStart)
      && c.quota == b.quota && c.discovered == b.discovered
  {
    hide Budget, ResetIfExpired, Expired;
    ExpiredIsReset(b, now);
    BudgetIsNineTenths(b.quota);
  }

  /** The 32-bit comparison errs exactly when the sum wraps to something within nine tenths of the quota. */
  lemma WrappingGrant(b: Bucket, w: u32, now: nat)
    ensures var sum, limit := UsedAt(b, now) + w, 9 * b.quota.maxWeight;
      Applied(b, Acquire(w, now)).1 <==>
      10 * sum <= limit || (sum >= 0x1_0000_0000 && 10 * (sum - 0x1_0000_0000) <= limit)
  {
    hide Budget, ResetIfExpired, Expired;
    ExpiredIsReset(b, now);
    BudgetIsNineTenths(b.quota);
  }

  /** The sliding-window bound in terms of the quota: nine tenths of it, twice and once per reset. */
  lemma WindowInQuota(b: Bucket, key: LimitKey, ops: seq<KeyOp>, from: nat)
    requires Sound(b, ops)
    ensures 10 * GrantedIn(KeyGrants(Some(b), key, ops), from, from + WindowNanos(b))
         <= (2 + ResetsIn(ops, from, from + WindowNanos(b))) * (9 * b.quota.maxWeight)
  {
    hide Budget, KeyGrants, GrantedIn, ResetsIn, Sound, WindowNanos;
    var n, budget: nat := 2 + ResetsIn(ops, from, from + WindowNanos(b)), Budget(b.quota);
    SlidingWindowBound(b, key, ops, from);
    BudgetIsNineTenths(b.quota);
    MulMono(10 * budget, 9 * b.quota.maxWeight, n);
    MulAssoc(n, 10, budget);
  }

  /** A reported count replaces the count, in the window that is running then. */
  lemma ReportedCountIsTaken(b: Bucket, w: u32, now: nat)
    ensures Applied(b, SyncUsed(w, now)).0 ==
            Bucket(w, if Expired(b, now) then now else b.windowStart, b.quota, b.discovered)
  {
    hide ResetIfExpired, Expired;
    ExpiredIsReset(b, now);
  }

  /** After a reported limit the quota is that limit and counts as discovered; zero reports nothing. */
  lemma ReportedLimitIsTaken(b: Bucket, limit: u32, now: nat)
    ensures var c := Applied(b, SyncLimit(limit, now)).0;
      && c.quota.maxWeight == (if limit == 0 then b.quota.maxWeight else limit)
      && c.discovered == (b.discovered || limit != 0)
      && c.quota.windowSecs == b.quota.windowSecs && c.usedWeight == b.usedWeight && c.windowStart == b.windowStart
  {
  }

  /** An updated quota takes each part that is not zero; the running count and window stay. */
  lemma UpdatedQuotaIsTaken(b: Bucket, maxWeight: u32, windowSecs: nat, now: nat)
    ensures var c := Applied(b, SetQuota(maxWeight, windowSecs, now)).0;
      && c.quota.maxWeight == (if maxWeight == 0 then b.quota.maxWeight else maxWeight)
      && c.quota.windowSecs == (if windowSecs == 0 then b.quota.windowSecs else windowSecs)
      && c.discovered == (b.discovered || maxWeight != 0)
      && c.usedWeight == b.usedWeight && c.windowStart == b.windowStart
  {
  }

  function SecondsOf(interval: LimitInterval): nat {
    match interval
    case Second => 1
    case Minute => 60
    case FiveMinute => 5 * 60
    case Day => 24 * 60 * 60
  }

  /**
   One step of the limiter touches the bucket it names and no other. A missing bucket is created
   empty with weight 60 over the key's interval, a registered one with the weight given, and a 429
   empties every bucket and restarts its window.
   */
  lemma StepIsLocal(m: Buckets, op: LimiterOp, key: LimitKey)
    ensures var n := LimiterStep(m, op).0;
      match op
      case On(k, o) =>
        if k != key then Lookup(n, key) == Lookup(m, key)
        else
          var b := if k in m then m[k] else Bucket(0, o.at, ApiQuota(60, SecondsOf(k.interval)), false);
          Lookup(n, key) == Some(Applied(b, o).0) && LimiterStep(m, op).1 == Applied(b, o).1
      case Register(k, maxWeight, at) =>
        Lookup(n, key) == if k != key then Lookup(m, key)
                          else Some(Bucket(0, at, ApiQuota(maxWeight, SecondsOf(k.interval)), false))
      case Reset429(at) =>
        && n.Keys == m.Keys
        && (key in m ==> n[key] == Bucket(0, at, m[key].quota, m[key].discovered))
  {
    hide Applied;
  }
}
