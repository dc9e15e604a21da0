/** When callers that wait for budget are served, alone and together. */
module WaitTheorems {
  import opened NatArith
  import opened Options
  import opened RateLimiter
  import opened HttpClient

  // ----- One caller ------------------------------------------------------------------------------

  predicate Ready(b: Bucket, weight: u32, now: nat) {
    b.usedWeight + weight <= Budget(b.quota) || ElapsedSecs(b, now) >= b.quota.windowSecs
  }

  /** A weight within the budget is granted at the first wake-up that finds room or a new window. */
  lemma {:induction false} GrantedWhenReady(b: Bucket, weight: u32, wakes: seq<nat>)
    requires weight <= Budget(b.quota) && b.usedWeight + weight < U32
    ensures match FirstGrant(Some(b), weight, wakes)
            case Some(i) =>
              i < |wakes| && Ready(b, weight, wakes[i]) && forall j :: 0 <= j < i ==> !Ready(b, weight, wakes[j])
            case None => forall j :: 0 <= j < |wakes| ==> !Ready(b, weight, wakes[j])
    decreases |wakes|
  {
    hide Budget, ElapsedSecs;
    if wakes != [] && !Ready(b, weight, wakes[0]) {
      GrantedWhenReady(b, weight, wakes[1..]);
      assert forall j :: 0 < j < |wakes| ==> wakes[j] == wakes[1..][j - 1];
    }
  }

  /** The poll timeouts that a window takes, rounded up. */
  function Polls(b: Bucket): nat {
    (b.quota.windowSecs + WINDOW_RESET_POLL_SECS - 1) / WINDOW_RESET_POLL_SECS
  }

  /**
   A lone caller that is only woken by the poll timeout gets a weight within the budget after at
   most one timeout per started 65 seconds of window; for windows of up to 65 seconds, after one.
   */
  lemma WaitIsBounded(b: Bucket, weight: u32, wakes: seq<nat>)
    requires weight <= Budget(b.quota) && b.usedWeight + weight < U32
    requires Polls(b) < |wakes|
    requires forall i :: 0 <= i < |wakes| ==> wakes[i] >= b.windowStart + i * WINDOW_RESET_POLL_SECS * NANOS
    ensures FirstGrant(Some(b), weight, wakes).Some?
    ensures FirstGrant(Some(b), weight, wakes).value <= Polls(b)
    ensures b.quota.windowSecs <= WINDOW_RESET_POLL_SECS ==> FirstGrant(Some(b), weight, wakes).value <= 1
  {
    hide Budget, FirstGrant;
    GrantedWhenReady(b, weight, wakes);
    var n := Polls(b);
    assert ElapsedSecs(b, wakes[n]) >= b.quota.windowSecs;
    assert Ready(b, weight, wakes[n]);
  }

  /** A weight above the budget is refused at every wake-up: the wait never ends. */
  lemma {:induction false} OverweightWaitsForever(b: Option<Bucket>, weight: u32, wakes: seq<nat>)
    requires wakes != [] ==>
      var c := Ensured(b, REQUEST_WEIGHT_KEY, wakes[0]); weight > Budget(c.quota) && c.usedWeight + weight < U32
    ensures FirstGrant(b, weight, wakes) == None
    decreases |wakes|
  {
    if wakes != [] {
      var c := Acquired(Ensured(b, REQUEST_WEIGHT_KEY, wakes[0]), weight, wakes[0]).0;
      OverweightWaitsForever(Some(c), weight, wakes[1..]);
    }
  }

  // ----- Several callers waiting together -------------------------------------------------------

  type Waiting = map<nat, u32>

  /** The weight that all waiting callers ask for together. */
  ghost function Total(waiting: Waiting): nat {
    if waiting == map[] then 0
    else
      var id :| id in waiting;
      waiting[id] + Total(waiting - {id})
  }

  lemma {:induction false} TotalWithout(waiting: Waiting, id: nat)
    requires id in waiting
    ensures Total(waiting) == waiting[id] + Total(waiting - {id})
    decreases |waiting|
  {
    var other :| other in waiting && Total(waiting) == waiting[other] + Total(waiting - {other});
    if other != id {
      TotalWithout(waiting - {other}, id);
      TotalWithout(waiting - {id}, other);
      assert waiting - {other} - {id} == waiting - {id} - {other};
    }
  }

  /** A caller waking up and asking again, if it is still waiting. */
  datatype Attempt = Attempt(id: nat, at: nat)

  function Asks(b: Bucket, waiting: Waiting, a: Attempt): (Bucket, Waiting) {
    if a.id !in waiting then (b, waiting)
    else
      var (c, granted) := Acquired(b, waiting[a.id], a.at);
      (c, if granted then waiting - {a.id} else waiting)
  }

  function AllAsk(b: Bucket, waiting: Waiting, attempts: seq<Attempt>): (Bucket, Waiting)
    decreases |attempts|
  {
    if attempts == [] then (b, waiting)
    else
      var (c, left) := Asks(b, waiting, attempts[0]);
      AllAsk(c, left, attempts[1..])
  }

  lemma {:induction false} WaitingShrinks(b: Bucket, waiting: Waiting, attempts: seq<Attempt>)
    ensures AllAsk(b, waiting, attempts).1.Keys <= waiting.Keys
    decreases |attempts|
  {
    hide Acquired;
    if attempts != [] {
      var (c, left) := Asks(b, waiting, attempts[0]);
      WaitingShrinks(c, left, attempts[1..]);
    }
  }

  /** An attempt within what is left keeps the account: granted weight moves from waiting to used. */
  lemma AskKeepsAccount(b: Bucket, waiting: Waiting, a: Attempt)
    requires b.usedWeight + Total(waiting) < U32
    ensures var (c, left) := Asks(b, waiting, a);
      && c.quota == b.quota && Total(left) <= Total(waiting)
      && (a.id !in waiting || ElapsedSecs(b, a.at) < b.quota.windowSecs ==>
            c == b.(usedWeight := c.usedWeight) && c.usedWeight + Total(left) == b.usedWeight + Total(waiting))
      && (a.id in waiting && ElapsedSecs(b, a.at) >= b.quota.windowSecs ==>
            c.usedWeight + Total(left) == Total(waiting))
      && (a.id in left && ElapsedSecs(b, a.at) < b.quota.windowSecs ==> b.usedWeight + waiting[a.id] > Budget(b.quota))
      && (a.id in left && ElapsedSecs(b, a.at) >= b.quota.windowSecs ==> waiting[a.id] > Budget(b.quota))
  {
    hide Acquired, Budget, ElapsedSecs, Total;
    if a.id in waiting {
      TotalWithout(waiting, a.id);
      AcquiredExactly(b, waiting[a.id], a.at);
    }
  }

  lemma AcquiredExactly(b: Bucket, weight: u32, now: nat)
    requires b.usedWeight + weight < U32
    ensures var c := ResetIfExpired(b, now);
      Acquired(b, weight, now) ==
        if c.usedWeight + weight <= Budget(b.quota) then (c.(usedWeight := c.usedWeight + weight), true) else (c, false)
  {
  }

  /** While everything waiting fits the current window, every caller that asks is served. */
  lemma {:induction false} ServedWhenAllFit(b: Bucket, waiting: Waiting, attempts: seq<Attempt>)
    requires b.usedWeight + Total(waiting) <= Budget(b.quota)
    ensures forall i :: 0 <= i < |attempts| ==> attempts[i].id !in AllAsk(b, waiting, attempts).1
    decreases |attempts|
  {
    hide Asks, Budget, ElapsedSecs, Total;
    if attempts != [] {
      var a := attempts[0];
      var (c, left) := Asks(b, waiting, a);
      BudgetFits(b.quota);
      AskKeepsAccount(b, waiting, a);
      if a.id in left {
        KeysShrink(b, waiting, a);
        TotalWithout(waiting, a.id);
        assert false;
      }
      ServedWhenAllFit(c, left, attempts[1..]);
      WaitingShrinks(c, left, attempts[1..]);
    }
  }

  lemma BudgetFits(quota: ApiQuota)
    ensures Budget(quota) < U32
  {
  }

  lemma KeysShrink(b: Bucket, waiting: Waiting, a: Attempt)
    ensures Asks(b, waiting, a).1.Keys <= waiting.Keys
  {
  }

  /**
   Callers that together ask for no more than the budget do not starve each other: whatever the
   order of their wake-ups, each one is served by the time it first asks after the window that
   was running has expired.
   */
  lemma {:induction false} GroupIsServed(b: Bucket, waiting: Waiting, attempts: seq<Attempt>, i: nat)
    requires Total(waiting) <= Budget(b.quota) && b.usedWeight + Total(waiting) < U32
    requires i < |attempts| && ElapsedSecs(b, attempts[i].at) >= b.quota.windowSecs
    ensures attempts[i].id !in AllAsk(b, waiting, attempts).1
    decreases |attempts|
  {
    hide Asks, Budget, ElapsedSecs, Total;
    var a := attempts[0];
    var (c, left) := Asks(b, waiting, a);
    BudgetFits(b.quota);
    AskKeepsAccount(b, waiting, a);
    KeysShrink(b, waiting, a);
    WaitingShrinks(c, left, attempts[1..]);
    if a.id in waiting && ElapsedSecs(b, a.at) >= b.quota.windowSecs {
      if a.id in left {
        TotalWithout(waiting, a.id);
        assert false;
      }
      ServedWhenAllFit(c, left, attempts[1..]);
      assert i > 0 ==> attempts[i] == attempts[1..][i - 1];
    } else if i > 0 {
      SameStart(b, c, attempts[i].at);
      GroupIsServed(c, left, attempts[1..], i - 1);
    }
  }

  lemma SameStart(b: Bucket, c: Bucket, now: nat)
    requires c.windowStart == b.windowStart
    ensures ElapsedSecs(c, now) == ElapsedSecs(b, now)
  {
  }
}
