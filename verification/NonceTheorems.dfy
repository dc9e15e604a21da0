/** Safety of nonce reservation over every interleaving of callers. */
module NonceTheorems {
  import opened NatArith
  import opened Options
  import opened NonceManager

  // ----- One key with its ledger of reservations ---------------------------------------

  /** Who made a reservation; a new one for every reservation. */
  type Holder = nat

  /** What can happen to one key. Observed values are arbitrary, so they may be stale. */
  datatype Event = Reserve(holder: Holder, rpc: Option<u64>) | Observe(pending: u64) | Fail(holder: Holder)

  /**
   The stored next nonce, with the history the manager does not keep: where counting started,
   the reservations not given back and who holds them, the holders that have given theirs back,
   the nonces given back out of order, and the nonces jumped over.
   */
  datatype Ledger = Ledger(
    next: Option<u64>,
    start: u64,
    held: map<Holder, u64>,
    closed: set<Holder>,
    abandoned: set<u64>,
    skipped: set<u64>)

  const FRESH: Ledger := Ledger(None, 0, map[], {}, {}, {})

  predicate InRange(lo: nat, n: nat, hi: nat) {
    lo <= n < hi
  }

  function Range(lo: u64, hi: u64): set<u64> {
    set n: u64 | lo <= n < hi && InRange(lo, n, hi)
  }

  /**
   A reservation is failed by its holder, who has not failed it before; holders are new; and the
   counter stays below its limit.
   */
  predicate Legal(l: Ledger, e: Event) {
    match e
    case Reserve(h, rpc) =>
      && h !in l.held && h !in l.closed
      && (NonceFor(l.next, rpc).Some? ==> NonceFor(l.next, rpc).value < U64_MAX)
    case Observe(_) => true
    case Fail(h) => h in l.held
  }

  /** One event on the ledger; the stored nonce moves as the manager moves it. */
  function Step(l: Ledger, e: Event): Ledger
    requires Legal(l, e)
  {
    match e
    case Reserve(h, rpc) =>
      var nonce := NonceFor(l.next, rpc);
      if nonce.None? then l
      else l.(next := NextAfterReserve(l.next, rpc),
              start := if l.next.None? then nonce.value else l.start,
              held := l.held[h := nonce.value])
    case Observe(p) =>
      l.(next := NextAfterObserve(l.next, p),
         start := if l.next.None? then p else l.start,
         skipped := if l.next.Some? then l.skipped + Range(l.next.value, p) else l.skipped)
    case Fail(h) =>
      var n := l.held[h];
      l.(next := NextAfterFailure(l.next, n),
         held := l.held - {h},
         closed := l.closed + {h},
         abandoned := if l.next == Some(Following(n)) then l.abandoned else l.abandoned + {n})
  }

  predicate LegalRun(l: Ledger, events: seq<Event>)
    decreases |events|
  {
    events == [] || (Legal(l, events[0]) && LegalRun(Step(l, events[0]), events[1..]))
  }

  function Run(l: Ledger, events: seq<Event>): Ledger
    requires LegalRun(l, events)
    decreases |events|
  {
    if events == [] then l else Run(Step(l, events[0]), events[1..])
  }

  /** No two holders have the same nonce. */
  predicate Distinct(held: map<Holder, u64>) {
    forall h, k :: h in held && k in held && h != k ==> held[h] != held[k]
  }

  /** Holders are open or closed, and no two of them hold the same nonce. */
  predicate Exclusive(l: Ledger) {
    l.held.Keys !! l.closed && Distinct(l.held)
  }

  /**
   Every nonce from the start up to the next one is accounted for exactly once: held by one
   holder, abandoned, or jumped over.
   */
  predicate Accounted(l: Ledger) {
    && Exclusive(l)
    && (l.next.None? ==> l.held == map[] && l.abandoned == {} && l.skipped == {})
    && (l.next.Some? ==>
      && l.start <= l.next.value
      && l.held.Values + l.abandoned + l.skipped == Range(l.start, l.next.value)
      && l.held.Values !! l.abandoned && l.held.Values !! l.skipped && l.abandoned !! l.skipped)
  }

  lemma AccountedIsBelow(l: Ledger)
    requires Accounted(l)
    ensures forall n :: n in l.held.Values + l.abandoned + l.skipped ==> l.next.Some? && n < l.next.value
  {
  }

  lemma ValuesAfterFailure(held: map<Holder, u64>, h: Holder)
    requires Distinct(held) && h in held
    ensures (held - {h}).Values == held.Values - {held[h]}
    ensures Distinct(held - {h})
  {
    forall n | n in held.Values && n != held[h]
      ensures n in (held - {h}).Values
    {
      var k :| k in held && held[k] == n;
      assert k in held - {h};
    }
  }

  lemma ValuesAfterReserve(held: map<Holder, u64>, h: Holder, n: u64)
    requires Distinct(held) && h !in held && n !in held.Values
    ensures held[h := n].Values == held.Values + {n}
    ensures Distinct(held[h := n])
  {
    assert held[h := n][h] == n;
    forall k | k in held
      ensures held[h := n][k] == held[k] && held[k] != n
    {
      assert held[k] in held.Values;
    }
    forall m | m in held.Values
      ensures m in held[h := n].Values
    {
      var k :| k in held && held[k] == m;
      assert k in held[h := n];
    }
  }

  lemma StepKeepsAccount(l: Ledger, e: Event)
    requires Accounted(l) && Legal(l, e)
    ensures Accounted(Step(l, e))
  {
    match e {
      case Reserve(h, rpc) =>
        var nonce := NonceFor(l.next, rpc);
        if nonce.Some? {
          AccountedIsBelow(l);
          ValuesAfterReserve(l.held, h, nonce.value);
        }
      case Observe(_) =>
      case Fail(h) =>
        assert l.held[h] in l.held.Values;
        ValuesAfterFailure(l.held, h);
        assert l.held[h] in Range(l.start, l.next.value);
    }
  }

  lemma {:induction false} RunKeepsAccount(l: Ledger, events: seq<Event>)
    requires Accounted(l) && LegalRun(l, events)
    ensures Accounted(Run(l, events))
    decreases |events|
  {
    if events != [] {
      StepKeepsAccount(l, events[0]);
      RunKeepsAccount(Step(l, events[0]), events[1..]);
    }
  }

  /** How often a holder reports a failure. */
  function Failures(events: seq<Event>, h: Holder): nat {
    if events == [] then 0 else (if events[0] == Fail(h) then 1 else 0) + Failures(events[1..], h)
  }

  /** In a legal run every reservation is failed at most once. */
  lemma {:induction false} FailsAtMostOnce(l: Ledger, events: seq<Event>, h: Holder)
    requires Accounted(l) && LegalRun(l, events)
    ensures Failures(events, h) <= if h in l.closed then 0 else 1
    decreases |events|
  {
    hide Accounted;
    AccountedIsExclusive(l);
    if events != [] {
      StepKeepsAccount(l, events[0]);
      AccountedIsExclusive(Step(l, events[0]));
      FailsAtMostOnce(Step(l, events[0]), events[1..], h);
    }
  }

  lemma AccountedIsExclusive(l: Ledger)
    requires Accounted(l)
    ensures Exclusive(l)
  {
  }

  /**
   After every legal run no two holders have the same nonce, held nonces lie below the next one,
   and the next reservation gets a nonce that is neither held, abandoned nor jumped over.
   */
  lemma ReservationsAreDistinct(events: seq<Event>, rpc: Option<u64>)
    requires LegalRun(FRESH, events)
    ensures var l := Run(FRESH, events); var nonce := NonceFor(l.next, rpc);
      && Distinct(l.held)
      && (forall h :: h in l.held ==> l.next.Some? && l.held[h] < l.next.value)
      && (nonce.Some? ==> nonce.value !in l.held.Values + l.abandoned + l.skipped)
  {
    RunKeepsAccount(FRESH, events);
    var l := Run(FRESH, events);
    AccountedIsBelow(l);
    forall h | h in l.held
      ensures l.held[h] in l.held.Values
    {
    }
  }

  lemma {:induction false} RangeSize(lo: u64, hi: u64)
    requires lo <= hi
    ensures |Range(lo, hi)| == hi - lo
    decreases hi - lo
  {
    if lo == hi {
      assert Range(lo, hi) == {};
    } else {
      RangeSize(lo + 1, hi);
      assert Range(lo, hi) == {lo} + Range(lo + 1, hi);
    }
  }

  lemma {:induction false} HeldSize(held: map<Holder, u64>)
    requires Distinct(held)
    ensures |held.Values| == |held|
    decreases |held|
  {
    if held != map[] {
      var h :| h in held;
      ValuesAfterFailure(held, h);
      HeldSize(held - {h});
      assert held[h] in held.Values;
      assert |held.Values| == |held.Values - {held[h]}| + 1;
    } else {
      assert held.Values == {};
    }
  }

  /** How far the counter has moved is what is held, plus what was abandoned, plus what was jumped over. */
  lemma CounterConserved(events: seq<Event>)
    requires LegalRun(FRESH, events) && Run(FRESH, events).next.Some?
    ensures var l := Run(FRESH, events);
      l.next.value - l.start == |l.held| + |l.abandoned| + |l.skipped|
  {
    RunKeepsAccount(FRESH, events);
    var l := Run(FRESH, events);
    var values := l.held.Values;
    RangeSize(l.start, l.next.value);
    HeldSize(l.held);
    assert |values + l.abandoned| == |values| + |l.abandoned|;
    assert |values + l.abandoned + l.skipped| == |values + l.abandoned| + |l.skipped|;
  }

  /** No observation finds the chain ahead of the counter. */
  predicate NoJumps(l: Ledger, events: seq<Event>)
    requires LegalRun(l, events)
    decreases |events|
  {
    events == [] ||
    (&& (events[0].Observe? && l.next.Some? ==> events[0].pending <= l.next.value)
     && NoJumps(Step(l, events[0]), events[1..]))
  }

  lemma {:induction false} NoJumpsNoSkips(l: Ledger, events: seq<Event>)
    requires LegalRun(l, events) && NoJumps(l, events)
    ensures Run(l, events).skipped == l.skipped
    decreases |events|
  {
    if events != [] {
      NoJumpsNoSkips(Step(l, events[0]), events[1..]);
    }
  }

  /** Without jumps the counter moves by what is held and what was abandoned. */
  lemma CounterWithoutJumps(events: seq<Event>)
    requires LegalRun(FRESH, events) && NoJumps(FRESH, events) && Run(FRESH, events).next.Some?
    ensures var l := Run(FRESH, events);
      l.next.value - l.start == |l.held| + |l.abandoned|
  {
    CounterConserved(events);
    NoJumpsNoSkips(FRESH, events);
  }

  // ----- Where counting starts -------------------------------------------------------------------

  /** The first answer of the chain in a run: to a reservation that had to ask, or to an observation. */
  function FirstAnswer(events: seq<Event>): Option<u64> {
    if events == [] then None
    else
      match events[0]
      case Reserve(_, Some(nonce)) => Some(nonce)
      case Observe(pending) => Some(pending)
      case _ => FirstAnswer(events[1..])
  }

  lemma {:induction false} StartStays(l: Ledger, events: seq<Event>)
    requires LegalRun(l, events) && l.next.Some?
    ensures Run(l, events).next.Some? && Run(l, events).start == l.start
    decreases |events|
  {
    if events != [] {
      StartStays(Step(l, events[0]), events[1..]);
    }
  }

  /**
   Nothing is handed out before the chain has answered: without an answer a run ends with no next
   nonce and nobody holding one, and otherwise counting starts at the first answer.
   */
  lemma {:induction false} CountingStartsAtTheChain(l: Ledger, events: seq<Event>)
    requires LegalRun(l, events) && l.next.None? && l.held == map[]
    ensures match FirstAnswer(events)
            case None => Run(l, events).next == None && Run(l, events).held == map[]
            case Some(first) => Run(l, events).next.Some? && Run(l, events).start == first
    decreases |events|
  {
    if events != [] {
      var n := Step(l, events[0]);
      if n.next.Some? {
        StartStays(n, events[1..]);
      } else {
        CountingStartsAtTheChain(n, events[1..]);
      }
    }
  }

  // ----- Why each condition is needed -------------------------------------------------------

  /** Reserving and failing at once gives the nonce back. */
  lemma FailureUndoesReservation(next: Option<u64>, rpc: Option<u64>)
    requires NonceFor(next, rpc).Some?
    ensures NextAfterFailure(NextAfterReserve(next, rpc), NonceFor(next, rpc).value) == NonceFor(next, rpc)
  {
  }

  /** Two reservations in a row differ exactly below the limit of the counter. */
  lemma SaturationRepeats(next: u64)
    ensures NonceFor(NextAfterReserve(Some(next), None), None) != NonceFor(Some(next), None) <==> next < U64_MAX
  {
  }

  /**
   A failure reported for a nonce by someone who does not hold it, such as a second report of the
   same failure, makes the next reservation a held nonce if and only if that nonce has since been
   handed out again and is the latest reservation.
   */
  lemma StrayFailureReissuesExactly(l: Ledger, n: u64)
    requires Accounted(l) && l.next.Some?
    ensures NextAfterFailure(l.next, n).value in l.held.Values <==>
            n in l.held.Values && l.next == Some(Following(n))
  {
    AccountedIsBelow(l);
  }

  /**
   Every nonce can be handed to two holders that way: the first holder fails, a second one gets
   the nonce, and the first reports its failure again.
   */
  lemma FailingTwiceReissues(n: u64)
    requires n < U64_MAX
    ensures var events := [Reserve(0, Some(n)), Fail(0), Reserve(1, None)];
      && LegalRun(FRESH, events)
      && var l := Run(FRESH, events);
         0 in l.closed && l.held == map[1 := n] && NextAfterFailure(l.next, n) == Some(n)
  {
    var e1 := [Reserve(0, Some(n)), Fail(0), Reserve(1, None)];
    var e2, e3 := e1[1..], e1[1..][1..];
    var l1 := Step(FRESH, e1[0]);
    var l2 := Step(l1, e2[0]);
    var l3 := Step(l2, e3[0]);
    assert e3[1..] == [] && LegalRun(l3, []) && Run(l3, []) == l3;
    assert LegalRun(l2, e3) && Run(l2, e3) == l3;
    assert LegalRun(l1, e2) && Run(l1, e2) == l3;
  }

  /** `count` reservations in a row, by new holders. */
  function Reservations(first: Holder, count: nat): seq<Event> {
    seq(count, i requires 0 <= i < count => Reserve(first + i, None))
  }

  /** No holder from `first` on has been seen. */
  predicate Unseen(l: Ledger, first: Holder) {
    (forall h :: h in l.held ==> h < first) && (forall h :: h in l.closed ==> h < first)
  }

  lemma {:induction false} ReservationsAdvance(l: Ledger, first: Holder, count: nat)
    requires l.next.Some? && l.next.value + count <= U64_MAX && Unseen(l, first)
    ensures LegalRun(l, Reservations(first, count))
    ensures Run(l, Reservations(first, count)).next == Some(l.next.value + count)
    decreases count
  {
    if count > 0 {
      var reserve := Reserve(first, None);
      assert Legal(l, reserve);
      assert Reservations(first, count)[0] == reserve;
      assert Reservations(first, count)[1..] == Reservations(first + 1, count - 1);
      ReservationsAdvance(Step(l, reserve), first + 1, count - 1);
    }
  }

  /** After `count` further reservations the next one is a nonce that was held before them. */
  predicate ReissuesAt(l: Ledger, first: Holder, count: nat) {
    && LegalRun(l, Reservations(first, count))
    && var nonce := NonceFor(Run(l, Reservations(first, count)).next, None);
       nonce.Some? && nonce.value in l.held.Values
  }

  /**
   After the key is reset and synced again at `p`, reservations taken in a row come to a nonce
   that is still held exactly when some held nonce is at least `p`.
   */
  lemma ResetIsSafeExactly(l: Ledger, p: u64, first: Holder)
    requires Unseen(l, first) && forall n :: n in l.held.Values ==> n < U64_MAX
    ensures var again := l.(next := Some(p));
      (exists n :: n in l.held.Values && n >= p) <==>
      (exists count: nat :: p + count < U64_MAX && ReissuesAt(again, first, count))
  {
    var again := l.(next := Some(p));
    if n :| n in l.held.Values && n >= p {
      ReservationsAdvance(again, first, n - p);
      assert ReissuesAt(again, first, n - p);
    }
    if count: nat :| p + count < U64_MAX && ReissuesAt(again, first, count) {
      ReservationsAdvance(again, first, count);
      assert p + count in l.held.Values;
    }
  }

  // ----- All callers together --------------------------------------------------------------------

  /** Where one sender stands: signing or sending with a nonce, done, or given up. */
  datatype Sender =
    | Signing(key: NonceKey, nonce: u64)
    | Sending(key: NonceKey, nonce: u64)
    | Sent(key: NonceKey, nonce: u64)
    | GaveUp

  predicate Holds(t: Sender, key: NonceKey) {
    !t.GaveUp? && t.key == key
  }

  /** One sender reaching the mutex or finishing a stage, or an observation by anyone. */
  datatype Action =
    | Begin(id: Holder, key: NonceKey, rpc: Option<u64>)
    | Sign(id: Holder, ok: bool)
    | Send(id: Holder, ok: bool)
    | ObserveChain(key: NonceKey, pending: u64)

  datatype System = System(states: States, senders: map<Holder, Sender>)

  predicate Enabled(s: System, a: Action) {
    match a
    case Begin(id, key, rpc) =>
      id !in s.senders &&
      var nonce := NonceFor(Next(s.states, key), rpc);
      nonce.Some? ==> nonce.value < U64_MAX
    case Sign(id, _) => id in s.senders && s.senders[id].Signing?
    case Send(id, _) => id in s.senders && s.senders[id].Sending?
    case ObserveChain(_, _) => true
  }

  function GiveBack(s: System, id: Holder): System
    requires id in s.senders && !s.senders[id].GaveUp?
  {
    var t := s.senders[id];
    System(if t.key in s.states then s.states[t.key := NextAfterFailure(s.states[t.key], t.nonce)] else s.states,
           s.senders[id := GaveUp])
  }

  function Act(s: System, a: Action): System
    requires Enabled(s, a)
  {
    match a
    case Begin(id, key, rpc) =>
      var nonce := NonceFor(Next(s.states, key), rpc);
      System(s.states[key := NextAfterReserve(Next(s.states, key), rpc)],
             s.senders[id := if nonce.Some? then Signing(key, nonce.value) else GaveUp])
    case Sign(id, ok) =>
      if ok then s.(senders := s.senders[id := Sending(s.senders[id].key, s.senders[id].nonce)]) else GiveBack(s, id)
    case Send(id, ok) =>
      if ok then s.(senders := s.senders[id := Sent(s.senders[id].key, s.senders[id].nonce)]) else GiveBack(s, id)
    case ObserveChain(key, pending) =>
      s.(states := s.states[key := NextAfterObserve(Next(s.states, key), pending)])
  }

  /** What an action means for one key, if anything. */
  function EventFor(s: System, a: Action, key: NonceKey): seq<Event>
    requires Enabled(s, a)
  {
    match a
    case Begin(id, k, rpc) => if k == key then [Reserve(id, rpc)] else []
    case Sign(id, ok) => if !ok && s.senders[id].key == key then [Fail(id)] else []
    case Send(id, ok) => if !ok && s.senders[id].key == key then [Fail(id)] else []
    case ObserveChain(k, p) => if k == key then [Observe(p)] else []
  }

  predicate Executable(s: System, actions: seq<Action>)
    decreases |actions|
  {
    actions == [] || (Enabled(s, actions[0]) && Executable(Act(s, actions[0]), actions[1..]))
  }

  function Execute(s: System, actions: seq<Action>): System
    requires Executable(s, actions)
    decreases |actions|
  {
    if actions == [] then s else Execute(Act(s, actions[0]), actions[1..])
  }

  function History(s: System, actions: seq<Action>, key: NonceKey): seq<Event>
    requires Executable(s, actions)
    decreases |actions|
  {
    if actions == [] then []
    else EventFor(s, actions[0], key) + History(Act(s, actions[0]), actions[1..], key)
  }

  /** The senders that hold a nonce of this key, and which. */
  function HoldersOf(s: System, key: NonceKey): map<Holder, u64> {
    map id | id in s.senders && Holds(s.senders[id], key) :: s.senders[id].nonce
  }

  /** The ledger of a key describes the system: the same next nonce, and held by exactly those senders. */
  predicate Describes(l: Ledger, s: System, key: NonceKey) {
    && Accounted(l)
    && l.next == Next(s.states, key)
    && l.held == HoldersOf(s, key)
    && l.closed <= s.senders.Keys
  }

  lemma ActionIsLegal(l: Ledger, s: System, a: Action, key: NonceKey)
    requires Describes(l, s, key) && Enabled(s, a)
    ensures LegalRun(l, EventFor(s, a, key))
    ensures Describes(Run(l, EventFor(s, a, key)), Act(s, a), key)
  {
    hide Accounted;
    var events := EventFor(s, a, key);
    if events == [] {
      assert HoldersOf(Act(s, a), key) == l.held;
    } else {
      assert events[1..] == [] && Legal(l, events[0]);
      var m := Step(l, events[0]);
      StepKeepsAccount(l, events[0]);
      assert LegalRun(m, []) && Run(m, []) == m && Run(l, events) == m;
      HoldersAfter(l, s, a, key);
    }
  }

  /** The senders that hold a nonce change as the ledger's holders do. */
  lemma HoldersAfter(l: Ledger, s: System, a: Action, key: NonceKey)
    requires Describes(l, s, key) && Enabled(s, a)
    requires EventFor(s, a, key) != [] && Legal(l, EventFor(s, a, key)[0])
    ensures Step(l, EventFor(s, a, key)[0]).held == HoldersOf(Act(s, a), key)
  {
    hide Accounted;
  }

  lemma {:induction false} RunAppend(l: Ledger, first: seq<Event>, second: seq<Event>)
    requires LegalRun(l, first) && LegalRun(Run(l, first), second)
    ensures LegalRun(l, first + second)
    ensures Run(l, first + second) == Run(Run(l, first), second)
    decreases |first|
  {
    if first == [] {
      assert first + second == second;
    } else {
      assert (first + second)[1..] == first[1..] + second;
      RunAppend(Step(l, first[0]), first[1..], second);
    }
  }

  /**
   Every interleaving of senders refines the ledger: what it does to a key is a legal run, in
   which each reservation belongs to one sender.
   */
  lemma {:induction false} SendersRefineLedger(l: Ledger, s: System, actions: seq<Action>, key: NonceKey)
    requires Describes(l, s, key) && Executable(s, actions)
    ensures LegalRun(l, History(s, actions, key))
    ensures Describes(Run(l, History(s, actions, key)), Execute(s, actions), key)
    decreases |actions|
  {
    hide Describes, Accounted, EventFor, Enabled, Act, Step, Legal;
    if actions != [] {
      var events := EventFor(s, actions[0], key);
      ActionIsLegal(l, s, actions[0], key);
      SendersRefineLedger(Run(l, events), Act(s, actions[0]), actions[1..], key);
      RunAppend(l, events, History(Act(s, actions[0]), actions[1..], key));
    }
  }

  const NOBODY: System := System(map[], map[])

  /** Whatever the interleaving, each sender fails its reservation at most once. */
  lemma SendersFailAtMostOnce(actions: seq<Action>, key: NonceKey, id: Holder)
    requires Executable(NOBODY, actions)
    ensures Failures(History(NOBODY, actions, key), id) <= 1
  {
    assert HoldersOf(NOBODY, key) == map[];
    SendersRefineLedger(FRESH, NOBODY, actions, key);
    FailsAtMostOnce(FRESH, History(NOBODY, actions, key), id);
  }

  /** No interleaving of senders gives two of them the same nonce of the same account. */
  lemma SendersNeverShareANonce(actions: seq<Action>, id: Holder, other: Holder)
    requires Executable(NOBODY, actions) && id != other
    ensures var senders := Execute(NOBODY, actions).senders;
      (id in senders && other in senders && !senders[id].GaveUp? && Holds(senders[other], senders[id].key)) ==>
      senders[id].nonce != senders[other].nonce
  {
    var end := Execute(NOBODY, actions);
    if id in end.senders && other in end.senders && !end.senders[id].GaveUp? {
      var key := end.senders[id].key;
      assert HoldersOf(NOBODY, key) == map[];
      SendersRefineLedger(FRESH, NOBODY, actions, key);
      var held := HoldersOf(end, key);
      assert Distinct(held) && id in held;
      assert Holds(end.senders[other], key) ==> other in held;
    }
  }
}
