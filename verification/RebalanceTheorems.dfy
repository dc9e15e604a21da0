/** What the rebalance loop guarantees for every sequence of oracle outcomes. */
module RebalanceTheorems {
  import opened Options
  import opened Rebalance

  // ----- Which steps run --------------------------------------------------------------

  /** The steps a journal shows as started, in order. */
  function Started(events: seq<Event>): seq<nat> {
    if events == [] then []
    else (if events[0].StepStarted? then [events[0].step] else []) + Started(events[1..])
  }

  lemma {:induction false} StartedConcat(a: seq<Event>, b: seq<Event>)
    ensures Started(a + b) == Started(a) + Started(b)
  {
    if a == [] {
      assert a + b == b;
    } else {
      var h := if a[0].StepStarted? then [a[0].step] else [];
      calc {
        Started(a + b);
        { assert (a + b)[0] == a[0] && (a + b)[1..] == a[1..] + b; }
        h + Started(a[1..] + b);
        { StartedConcat(a[1..], b); }
        h + (Started(a[1..]) + Started(b));
        (h + Started(a[1..])) + Started(b);
      }
    }
  }

  lemma {:induction false} NoneStarted(events: seq<Event>)
    requires forall i :: 0 <= i < |events| ==> !events[i].StepStarted?
    ensures Started(events) == []
  {
    if events != [] {
      NoneStarted(events[1..]);
    }
  }

  function Indices(from: nat, until: nat): seq<nat>
    requires from <= until
  {
    seq(until - from, k requires 0 <= k < until - from => from + k)
  }

  /** The first step, from `i` on, after which the pass does not go on. */
  function FirstStop(cfg: Config, outs: seq<Outcome>, i: nat): (r: nat)
    requires i <= |outs|
    ensures i <= r <= |outs|
    ensures forall j :: i <= j < r ==> Continues(cfg, outs[j])
    ensures r < |outs| ==> !Continues(cfg, outs[r])
    decreases |outs| - i
  {
    if i == |outs| || !Continues(cfg, outs[i]) then i else FirstStop(cfg, outs, i + 1)
  }

  lemma StartedInStep(cfg: Config, i: nat, o: Outcome)
    ensures Started(StepEvents(cfg, i, o)) == if !cfg.dryRun && o.valid then [i] else []
  {
    var tail := VerifyEvents(cfg, i, o.verdict);
    NoneStarted(tail);
    StartedConcat([StepStarted(i), StepCompleted(i)], tail);
    assert [StepStarted(i), StepCompleted(i)][1..] == [StepCompleted(i)];
    assert [StepStarted(i), StepFailed(i)][1..] == [StepFailed(i)];
    assert Started([StepCompleted(i)]) == [] && Started([StepFailed(i)]) == [];
  }

  /** How many steps a pass starts: those before the first failure, and the failing one unless validation refused it. */
  function StartCount(cfg: Config, outs: seq<Outcome>, i: nat): (n: nat)
    requires i <= |outs|
    ensures n <= |outs| - i
  {
    var stop := FirstStop(cfg, outs, i);
    if cfg.dryRun then 0
    else if stop < |outs| && outs[stop].valid then stop + 1 - i
    else stop - i
  }

  lemma {:induction false} BodyRunsAPrefix(cfg: Config, outs: seq<Outcome>, i: nat)
    requires i <= |outs|
    ensures Started(Body(cfg, outs, i).0) == Indices(i, i + StartCount(cfg, outs, i))
    decreases |outs| - i
  {
    hide StepEvents, Halts;
    if i < |outs| {
      StartedInStep(cfg, i, outs[i]);
      if Continues(cfg, outs[i]) {
        BodyRunsAPrefix(cfg, outs, i + 1);
        StartedConcat(StepEvents(cfg, i, outs[i]), Body(cfg, outs, i + 1).0);
      }
    }
  }

  /** A live pass starts exactly a prefix of the plan, up to its first failure; a dry run starts nothing. */
  lemma PassRunsAPrefix(cfg: Config, outs: seq<Outcome>, announce: bool)
    ensures Started(PassEvents(cfg, announce, outs)) == Indices(0, StartCount(cfg, outs, 0))
  {
    hide Body, StartCount, Started;
    var open := (if announce then [PlanGenerated] else []) + (if Pauses(cfg) then [TradingPaused] else []);
    var close := if Pauses(cfg) then [TradingResumed] else [];
    var body := Body(cfg, outs, 0).0;
    assert PassEvents(cfg, announce, outs) == open + body + close;
    NoneStarted(open);
    NoneStarted(close);
    StartedConcat(open, body);
    StartedConcat(open + body, close);
    BodyRunsAPrefix(cfg, outs, 0);
  }

  /** The step went well: it was validated, it executed, and verification is off or passed. */
  predicate WentWell(cfg: Config, o: Outcome) {
    o.valid && o.executes && (!cfg.verifies || o.verdict == Passed)
  }

  /** Every step a pass starts has been validated, and all but the last succeeded and verified. */
  lemma OnlyValidatedStepsRun(cfg: Config, outs: seq<Outcome>)
    ensures var n := StartCount(cfg, outs, 0);
      && (forall k :: 0 <= k < n ==> outs[k].valid)
      && (forall k :: 0 <= k < n - 1 ==> outs[k].executes && Accepts(cfg, outs[k].verdict))
      && (!cfg.dryRun && n < |outs| ==> !outs[n].valid || (n > 0 && !WentWell(cfg, outs[n - 1])))
  {
  }

  // ----- The journal of a pass, entry by entry ------------------------------------------------

  /** Starting at `i`, the pass comes to step `k`: a dry run always, a live pass if all steps before went well. */
  predicate Reaches(cfg: Config, outs: seq<Outcome>, i: nat, k: nat)
    requires k <= |outs|
  {
    cfg.dryRun || forall j :: i <= j < k ==> WentWell(cfg, outs[j])
  }

  /** The step that an entry is about. */
  function StepOf(e: Event): Option<nat> {
    match e
    case StepRejected(k) => Some(k)
    case StepStarted(k) => Some(k)
    case StepCompleted(k) => Some(k)
    case StepFailed(k) => Some(k)
    case StepVerified(k) => Some(k)
    case BalanceMismatch(k) => Some(k)
    case VerifyFailed(k) => Some(k)
    case _ => None
  }

  predicate About(events: seq<Event>, k: nat) {
    forall i :: 0 <= i < |events| ==> StepOf(events[i]) == Some(k)
  }

  lemma StepIsAbout(cfg: Config, k: nat, o: Outcome)
    ensures About(StepEvents(cfg, k, o), k)
  {
  }

  lemma NotAmong(events: seq<Event>, k: nat, e: Event)
    requires About(events, k) && StepOf(e) != Some(k)
    ensures multiset(events)[e] == 0
  {
    assert e !in events;
  }

  /** Entries about step `k` are those of the step itself if it is reached, and there are none otherwise. */
  lemma {:induction false} BodyTally(cfg: Config, outs: seq<Outcome>, i: nat, k: nat, e: Event)
    requires i <= |outs| && StepOf(e) == Some(k)
    ensures multiset(Body(cfg, outs, i).0)[e] ==
            if i <= k < |outs| && Reaches(cfg, outs, i, k) then multiset(StepEvents(cfg, k, outs[k]))[e] else 0
    decreases |outs| - i
  {
    hide StepEvents, Halts;
    if i < |outs| {
      StepIsAbout(cfg, i, outs[i]);
      if k != i {
        NotAmong(StepEvents(cfg, i, outs[i]), i, e);
      }
      if Continues(cfg, outs[i]) {
        BodyTally(cfg, outs, i + 1, k, e);
        ReachesOn(cfg, outs, i, k);
      } else if i < k < |outs| {
        assert !WentWell(cfg, outs[i]);
      }
    }
  }

  lemma ReachesOn(cfg: Config, outs: seq<Outcome>, i: nat, k: nat)
    requires i < |outs| && Continues(cfg, outs[i])
    ensures i < k < |outs| ==> (Reaches(cfg, outs, i, k) <==> Reaches(cfg, outs, i + 1, k))
  {
  }

  lemma NoSteps(cfg: Config, outs: seq<Outcome>, i: nat, e: Event)
    requires i <= |outs| && StepOf(e) == None
    ensures multiset(Body(cfg, outs, i).0)[e] == 0
    decreases |outs| - i
  {
    hide StepEvents, Halts, Continues;
    if i < |outs| {
      StepIsAbout(cfg, i, outs[i]);
      NotAmong(StepEvents(cfg, i, outs[i]), i, e);
      NoSteps(cfg, outs, i + 1, e);
    }
  }

  lemma {:induction false} MismatchTally(k: nat, n: nat, e: Event)
    ensures multiset(Mismatches(k, n))[e] == if e == BalanceMismatch(k) then n else 0
  {
    if n > 0 {
      assert Mismatches(k, n) == Mismatches(k, n - 1) + [BalanceMismatch(k)];
      MismatchTally(k, n - 1, e);
    }
  }

  /** What one step journals, as counts of its possible entries. */
  function Expected(cfg: Config, o: Outcome, e: Event): nat
    requires StepOf(e).Some?
  {
    var ran := o.valid && !cfg.dryRun;
    var checked := ran && o.executes && cfg.verifies;
    match e
    case StepRejected(_) => if o.valid then 0 else 1
    case StepStarted(_) => if ran then 1 else 0
    case StepCompleted(_) => if ran && o.executes then 1 else 0
    case StepFailed(_) => if ran && !o.executes then 1 else 0
    case StepVerified(_) => if checked && o.verdict == Passed then 1 else 0
    case BalanceMismatch(_) => if checked && o.verdict.Mismatched? then o.verdict.count else 0
    case VerifyFailed(_) => if checked && o.verdict != Passed then 1 else 0
  }

  lemma VerifyTally(cfg: Config, k: nat, v: Verdict, e: Event)
    ensures multiset(VerifyEvents(cfg, k, v))[e] ==
      match e
      case StepVerified(j) => if j == k && cfg.verifies && v == Passed then 1 else 0
      case BalanceMismatch(j) => if j == k && cfg.verifies && v.Mismatched? then v.count else 0
      case VerifyFailed(j) => if j == k && cfg.verifies && v != Passed then 1 else 0
      case _ => 0
  {
    hide Mismatches;
    if v.Mismatched? {
      MismatchTally(k, v.count, e);
    }
  }

  lemma PairTally(a: Event, b: Event, e: Event)
    ensures multiset([a, b])[e] == (if e == a then 1 else 0) + (if e == b then 1 else 0)
  {
    assert [a, b] == [a] + [b];
  }

  lemma StepTally(cfg: Config, k: nat, o: Outcome, e: Event)
    requires StepOf(e) == Some(k)
    ensures multiset(StepEvents(cfg, k, o))[e] == Expected(cfg, o, e)
  {
    hide VerifyEvents;
    VerifyTally(cfg, k, o.verdict, e);
    PairTally(StepStarted(k), StepCompleted(k), e);
    PairTally(StepStarted(k), StepFailed(k), e);
  }

  /**
   The journal of a pass, entry by entry: the plan is announced if asked, trading is paused and
   resumed once if a live pass is to pause it, and each step journals what befell it if and only
   if the pass comes to it.
   */
  lemma JournalIsExact(cfg: Config, announce: bool, outs: seq<Outcome>, e: Event)
    ensures multiset(PassEvents(cfg, announce, outs))[e] ==
      match e
      case PlanGenerated => if announce then 1 else 0
      case TradingPaused => if !cfg.dryRun && cfg.pauseTrading then 1 else 0
      case TradingResumed => if !cfg.dryRun && cfg.pauseTrading then 1 else 0
      case _ =>
        var k := StepOf(e).value;
        if k < |outs| && Reaches(cfg, outs, 0, k) then Expected(cfg, outs[k], e) else 0
  {
    hide Body, Expected, StepEvents, Reaches;
    if StepOf(e).Some? {
      var k := StepOf(e).value;
      BodyTally(cfg, outs, 0, k, e);
      if k < |outs| {
        StepTally(cfg, k, outs[k], e);
      }
    } else {
      NoSteps(cfg, outs, 0, e);
    }
  }

  lemma {:induction false} StartedIsJournaled(events: seq<Event>, k: nat)
    ensures k in Started(events) <==> multiset(events)[StepStarted(k)] > 0
  {
    if events != [] {
      StartedIsJournaled(events[1..], k);
      assert events == [events[0]] + events[1..];
    }
  }

  /** A live pass starts a step if and only if the step is valid and every step before it went well. */
  lemma StartedExactly(cfg: Config, announce: bool, outs: seq<Outcome>, k: nat)
    requires !cfg.dryRun && k < |outs|
    ensures k in Started(PassEvents(cfg, announce, outs)) <==>
      && outs[k].valid
      && forall j :: 0 <= j < k ==>
           outs[j].valid && outs[j].executes && (!cfg.verifies || outs[j].verdict == Passed)
  {
    hide PassEvents, Started;
    StartedIsJournaled(PassEvents(cfg, announce, outs), k);
    JournalIsExact(cfg, announce, outs, StepStarted(k));
    if forall j :: 0 <= j < k ==> outs[j].valid && outs[j].executes && (!cfg.verifies || outs[j].verdict == Passed) {
      assert forall j :: 0 <= j < k ==> WentWell(cfg, outs[j]);
    }
  }

  /** A step that the pass comes to finds balances that differ. */
  predicate FindsMismatch(cfg: Config, outs: seq<Outcome>, i: nat, k: nat)
    requires i <= k < |outs|
  {
    && !cfg.dryRun && cfg.verifies && Reaches(cfg, outs, i, k)
    && outs[k].valid && outs[k].executes && outs[k].verdict.Mismatched?
  }

  lemma PassedWell(cfg: Config, outs: seq<Outcome>, i: nat, k: nat)
    requires i < k < |outs|
    ensures !cfg.dryRun && Reaches(cfg, outs, i, k) ==> WentWell(cfg, outs[i])
  {
  }

  /** A pass halts the bot if and only if a step that it comes to finds balances that differ. */
  lemma {:induction false} HaltsExactly(cfg: Config, outs: seq<Outcome>, i: nat)
    requires i <= |outs|
    ensures Body(cfg, outs, i).1 <==> exists k :: i <= k < |outs| && FindsMismatch(cfg, outs, i, k)
    decreases |outs| - i
  {
    hide StepEvents;
    if i < |outs| {
      if Continues(cfg, outs[i]) {
        var next := i + 1;
        HaltsExactly(cfg, outs, next);
        if k :| next <= k < |outs| && FindsMismatch(cfg, outs, next, k) {
          assert FindsMismatch(cfg, outs, i, k);
        }
        if k :| i <= k < |outs| && FindsMismatch(cfg, outs, i, k) {
          assert k > i && FindsMismatch(cfg, outs, next, k);
        }
      } else {
        assert Body(cfg, outs, i).1 ==> FindsMismatch(cfg, outs, i, i);
        forall k | i < k < |outs|
          ensures !FindsMismatch(cfg, outs, i, k)
        {
          PassedWell(cfg, outs, i, k);
        }
      }
    }
  }

  // ----- The journal of the loop, turn by turn -------------------------------------------------

  /** Something outside the loop halts the bot before one of these turns. */
  predicate HaltedOutside(turns: seq<Turn>) {
    exists t :: 0 <= t < |turns| && turns[t].halted
  }

  /** A turn makes a pass that ends in a halt. */
  predicate HaltsItself(cfg: Config, turn: Turn) {
    turn.plans != [] && exists k :: 0 <= k < |turn.outs| && FindsMismatch(cfg, turn.outs, 0, k)
  }

  /** The bot is halted by the end of these turns: from outside, or by a pass that found a mismatch. */
  predicate HaltedBy(cfg: Config, turns: seq<Turn>) {
    HaltedOutside(turns) || exists t :: 0 <= t < |turns| && HaltsItself(cfg, turns[t])
  }

  lemma {:induction false} LoopEndsExactly(cfg: Config, key: Option<string>, turns: seq<Turn>)
    ensures LoopEnd(cfg, false, key, turns).0 <==> HaltedBy(cfg, turns)
    decreases |turns|
  {
    hide Body, FindsMismatch;
    if turns != [] {
      HaltedByFirst(cfg, turns);
      HaltsExactly(cfg, turns[0].outs, 0);
      if !turns[0].halted && !HaltsItself(cfg, turns[0]) {
        LoopEndsExactly(cfg, if turns[0].plans == [] then None else Some(turns[0].planKey), turns[1..]);
      } else if !turns[0].halted {
        assert turns[0].plans != [] && Body(cfg, turns[0].outs, 0).1;
        HaltedStays(cfg, Some(turns[0].planKey), turns[1..]);
      }
    }
  }

  lemma HaltedStays(cfg: Config, key: Option<string>, turns: seq<Turn>)
    ensures LoopEnd(cfg, true, key, turns) == (true, key) && LoopEvents(cfg, true, key, turns) == []
  {
  }

  lemma HaltedByFirst(cfg: Config, turns: seq<Turn>)
    requires turns != []
    ensures HaltedBy(cfg, turns) <==> turns[0].halted || HaltsItself(cfg, turns[0]) || HaltedBy(cfg, turns[1..])
  {
    hide HaltsItself;
    var rest := turns[1..];
    if HaltedBy(cfg, rest) {
      var t :| 0 <= t < |rest| && (rest[t].halted || HaltsItself(cfg, rest[t]));
      assert turns[t + 1] == rest[t];
    }
    if HaltedBy(cfg, turns) && !turns[0].halted && !HaltsItself(cfg, turns[0]) {
      var t :| 0 <= t < |turns| && (turns[t].halted || HaltsItself(cfg, turns[t]));
      assert rest[t - 1] == turns[t];
    }
  }

  /** The plan the loop has announced last: that of the turn before, if it had one. */
  function LastPlan(key: Option<string>, turns: seq<Turn>): Option<string> {
    if turns == [] then key
    else if turns[|turns| - 1].plans == [] then None
    else Some(turns[|turns| - 1].planKey)
  }

  /**
   One more turn adds one pass to the loop's journal, unless the bot is halted by then or there
   is nothing to do. The pass announces its plan if and only if the turn before had another one,
   or none.
   */
  lemma {:induction false} LoopGrowsByAPass(cfg: Config, key: Option<string>, turns: seq<Turn>, turn: Turn)
    ensures LoopEvents(cfg, false, key, turns + [turn]) ==
      LoopEvents(cfg, false, key, turns) +
      if HaltedBy(cfg, turns) || turn.halted || turn.plans == [] then []
      else PassEvents(cfg, LastPlan(key, turns) != Some(turn.planKey), turn.outs)
    decreases |turns|
  {
    hide Body, PassEvents, HaltsItself, HaltedBy;
    var all := turns + [turn];
    HaltedByFirst(cfg, all);
    if turns == [] {
      assert all[0] == turn && all[1..] == [];
      NobodyHalts(cfg);
      assert LoopEvents(cfg, Body(cfg, turn.outs, 0).1, Some(turn.planKey), []) == [];
    } else {
      assert all[0] == turns[0] && all[1..] == turns[1..] + [turn];
      HaltedByFirst(cfg, turns);
      HaltsItselfExactly(cfg, turns[0]);
      if turns[0].halted {
      } else if turns[0].plans == [] {
        LastPlanOn(key, turns);
        LoopGrowsByAPass(cfg, None, turns[1..], turn);
      } else {
        var plan := Some(turns[0].planKey);
        LastPlanOn(key, turns);
        if HaltsItself(cfg, turns[0]) {
          HaltedStays(cfg, plan, turns[1..]);
          HaltedStays(cfg, plan, turns[1..] + [turn]);
        } else {
          LoopGrowsByAPass(cfg, plan, turns[1..], turn);
        }
      }
    }
  }

  lemma HaltsItselfExactly(cfg: Config, turn: Turn)
    ensures HaltsItself(cfg, turn) <==> turn.plans != [] && Body(cfg, turn.outs, 0).1
  {
    HaltsExactly(cfg, turn.outs, 0);
  }

  lemma NobodyHalts(cfg: Config)
    ensures !HaltedBy(cfg, [])
  {
  }

  lemma LastPlanOn(key: Option<string>, turns: seq<Turn>)
    requires turns != []
    ensures LastPlan(key, turns) ==
            LastPlan(if turns[0].plans == [] then None else Some(turns[0].planKey), turns[1..])
  {
  }

  // ----- Verification as composed in the source --------------------------------------------

  /** A trade is never accepted when verification is on: no mismatch reads as a failed fetch. */
  lemma TradesAreNeverVerified(cfg: Config, step: RebalanceStep, mismatches: Option<nat>)
    ensures Accepts(cfg, VerdictFor(step, mismatches)) <==> !cfg.verifies || step.Withdraw?
    ensures match VerdictFor(step, mismatches)
            case Passed => step.Withdraw?
            case Mismatched(count) => step.Trade? && mismatches == Some(count)
            case Unavailable => step.Trade? && (mismatches == None || mismatches == Some(0))
  {
  }

  /** So with verification on, the first trade a live pass starts is the last step it runs. */
  lemma FirstTradeEndsThePass(cfg: Config, flat: seq<RebalanceStep>, fetched: seq<Option<nat>>, outs: seq<Outcome>)
    requires |flat| == |outs| == |fetched| && cfg.verifies
    requires forall i :: 0 <= i < |outs| ==> outs[i].verdict == VerdictFor(flat[i], fetched[i])
    ensures var n := StartCount(cfg, outs, 0);
      forall k :: 0 <= k < n && flat[k].Trade? ==> k == n - 1
  {
  }

  // ----- The journal is well bracketed --------------------------------------------------------

  /** What a reader of the journal knows: whether trading is paused, and which step is open or just done. */
  datatype Reader = Reader(paused: bool, open: Option<nat>, done: Option<nat>) | Confused

  const OUTSIDE: Reader := Reader(false, None, None)

  /** `mustPause`: steps may only start while trading is paused. */
  function Read(r: Reader, e: Event, mustPause: bool): Reader {
    if r.Confused? then Confused
    else
      match e
      case PlanGenerated => if r.open == None && !r.paused then r.(done := None) else Confused
      case TradingPaused => if r.open == None && !r.paused then Reader(true, None, None) else Confused
      case TradingResumed => if r.open == None && r.paused then OUTSIDE else Confused
      case StepRejected(_) => if r.open == None then r.(done := None) else Confused
      case StepStarted(i) =>
        if r.open == None && (mustPause ==> r.paused) then Reader(r.paused, Some(i), None) else Confused
      case StepFailed(i) => if r.open == Some(i) then r.(open := None) else Confused
      case StepCompleted(i) => if r.open == Some(i) then Reader(r.paused, None, Some(i)) else Confused
      case StepVerified(i) => if r.done == Some(i) then r.(done := None) else Confused
      case BalanceMismatch(i) => if r.done == Some(i) then r else Confused
      case VerifyFailed(i) => if r.done == Some(i) then r.(done := None) else Confused
  }

  function ReadAll(r: Reader, events: seq<Event>, mustPause: bool): Reader
    decreases |events|
  {
    if events == [] then r else ReadAll(Read(r, events[0], mustPause), events[1..], mustPause)
  }

  lemma {:induction false} ReadConcat(r: Reader, a: seq<Event>, b: seq<Event>, mustPause: bool)
    ensures ReadAll(r, a + b, mustPause) == ReadAll(ReadAll(r, a, mustPause), b, mustPause)
    decreases |a|
  {
    if a == [] {
      assert a + b == b;
    } else {
      assert (a + b)[1..] == a[1..] + b;
      ReadConcat(Read(r, a[0], mustPause), a[1..], b, mustPause);
    }
  }

  lemma ReadOne(r: Reader, e: Event, mustPause: bool)
    ensures ReadAll(r, [e], mustPause) == Read(r, e, mustPause)
  {
  }

  lemma ReadTwo(r: Reader, e: Event, f: Event, mustPause: bool)
    ensures ReadAll(r, [e, f], mustPause) == Read(Read(r, e, mustPause), f, mustPause)
  {
    hide Read;
    assert [e, f][1..] == [f];
    ReadOne(Read(r, e, mustPause), f, mustPause);
  }

  predicate Between(r: Reader, paused: bool) {
    r.Reader? && r.open == None && r.paused == paused
  }

  lemma {:induction false} ReadMismatches(r: Reader, i: nat, count: nat, mustPause: bool)
    requires r.Reader? && r.done == Some(i)
    ensures ReadAll(r, Mismatches(i, count), mustPause) == r
  {
    if count > 0 {
      assert Mismatches(i, count)[1..] == Mismatches(i, count - 1);
      ReadMismatches(r, i, count - 1, mustPause);
    }
  }

  lemma ReadVerify(cfg: Config, r: Reader, i: nat, v: Verdict, mustPause: bool)
    requires Between(r, r.Reader? && r.paused) && r.done == Some(i)
    ensures Between(ReadAll(r, VerifyEvents(cfg, i, v), mustPause), r.paused)
  {
    if cfg.verifies && v.Mismatched? {
      ReadMismatches(r, i, v.count, mustPause);
      ReadConcat(r, Mismatches(i, v.count), [VerifyFailed(i)], mustPause);
      ReadOne(r, VerifyFailed(i), mustPause);
    }
  }

  lemma ReadStep(cfg: Config, r: Reader, i: nat, o: Outcome, mustPause: bool)
    requires Between(r, r.Reader? && r.paused) && (mustPause && !cfg.dryRun ==> r.paused)
    ensures Between(ReadAll(r, StepEvents(cfg, i, o), mustPause), r.paused)
  {
    if o.valid && !cfg.dryRun {
      var last := if o.executes then StepCompleted(i) else StepFailed(i);
      var head := [StepStarted(i), last];
      ReadTwo(r, StepStarted(i), last, mustPause);
      var s := ReadAll(r, head, mustPause);
      if o.executes {
        ReadConcat(r, head, VerifyEvents(cfg, i, o.verdict), mustPause);
        ReadVerify(cfg, s, i, o.verdict, mustPause);
      }
    }
  }

  lemma {:induction false} ReadBody(cfg: Config, r: Reader, outs: seq<Outcome>, i: nat, mustPause: bool)
    requires i <= |outs|
    requires Between(r, r.Reader? && r.paused) && (mustPause && !cfg.dryRun ==> r.paused)
    ensures Between(ReadAll(r, Body(cfg, outs, i).0, mustPause), r.paused)
    decreases |outs| - i
  {
    hide StepEvents, Continues, Halts, Read;
    if i < |outs| {
      var s := ReadAll(r, StepEvents(cfg, i, outs[i]), mustPause);
      ReadStep(cfg, r, i, outs[i], mustPause);
      if Continues(cfg, outs[i]) {
        ReadConcat(r, StepEvents(cfg, i, outs[i]), Body(cfg, outs, i + 1).0, mustPause);
        ReadBody(cfg, s, outs, i + 1, mustPause);
      }
    }
  }

  /**
   However a pass ends, its journal is well bracketed: steps open and close one at a time,
   between the pause and the resume when trading is to be paused, and nothing is left open.
   */
  lemma PassIsBracketed(cfg: Config, announce: bool, outs: seq<Outcome>, r: Reader)
    requires Between(r, false)
    ensures Between(ReadAll(r, PassEvents(cfg, announce, outs), Pauses(cfg)), false)
  {
    hide Body;
    var must := Pauses(cfg);
    var announced := if announce then [PlanGenerated] else [];
    var pausing := if must then [TradingPaused] else [];
    var resuming := if must then [TradingResumed] else [];
    var body := Body(cfg, outs, 0).0;
    var r1 := ReadAll(r, announced, must);
    ReadOne(r, PlanGenerated, must);
    var r2 := ReadAll(r1, pausing, must);
    ReadOne(r1, TradingPaused, must);
    ReadBody(cfg, r2, outs, 0, must);
    ReadOne(ReadAll(r2, body, must), TradingResumed, must);
    ReadConcat(r, announced, pausing, must);
    ReadConcat(r, announced + pausing, body, must);
    ReadConcat(r, announced + pausing + body, resuming, must);
    assert PassEvents(cfg, announce, outs) == announced + pausing + body + resuming;
  }

  /** So is the journal of the whole loop. */
  lemma {:induction false} LoopIsBracketed(cfg: Config, halted: bool, key: Option<string>, turns: seq<Turn>, r: Reader)
    requires Between(r, false)
    ensures Between(ReadAll(r, LoopEvents(cfg, halted, key, turns), Pauses(cfg)), false)
    decreases |turns|
  {
    hide PassEvents, Body, Read;
    if turns != [] && !halted && !turns[0].halted {
      if turns[0].plans == [] {
        LoopIsBracketed(cfg, false, None, turns[1..], r);
      } else {
        var announce := key != Some(turns[0].planKey);
        var halts := Body(cfg, turns[0].outs, 0).1;
        var pass := PassEvents(cfg, announce, turns[0].outs);
        PassIsBracketed(cfg, announce, turns[0].outs, r);
        ReadConcat(r, pass, LoopEvents(cfg, halts, Some(turns[0].planKey), turns[1..]), Pauses(cfg));
        LoopIsBracketed(cfg, halts, Some(turns[0].planKey), turns[1..], ReadAll(r, pass, Pauses(cfg)));
      }
    }
  }

  // ----- A mismatch is the end -----------------------------------------------------------------

  /** No step starts after a balance mismatch. */
  predicate QuietAfterMismatch(events: seq<Event>) {
    forall i, j :: 0 <= i < j < |events| && events[i].BalanceMismatch? ==> !events[j].StepStarted?
  }

  predicate MentionsMismatch(events: seq<Event>) {
    exists i :: 0 <= i < |events| && events[i].BalanceMismatch?
  }

  lemma QuietStep(cfg: Config, i: nat, o: Outcome)
    ensures QuietAfterMismatch(StepEvents(cfg, i, o))
    ensures MentionsMismatch(StepEvents(cfg, i, o)) ==> !cfg.dryRun && o.valid && o.executes && Halts(cfg, o)
  {
  }

  lemma QuietConcat(a: seq<Event>, b: seq<Event>)
    requires QuietAfterMismatch(a) && QuietAfterMismatch(b)
    requires MentionsMismatch(a) ==> forall j :: 0 <= j < |b| ==> !b[j].StepStarted?
    ensures QuietAfterMismatch(a + b)
  {
  }

  lemma {:induction false} QuietBody(cfg: Config, outs: seq<Outcome>, i: nat)
    requires i <= |outs|
    ensures QuietAfterMismatch(Body(cfg, outs, i).0)
    ensures MentionsMismatch(Body(cfg, outs, i).0) ==> Body(cfg, outs, i).1
    decreases |outs| - i
  {
    hide StepEvents, Halts;
    if i < |outs| {
      QuietStep(cfg, i, outs[i]);
      StepHaltsOnly(cfg, outs[i]);
      if Continues(cfg, outs[i]) {
        var a, b := StepEvents(cfg, i, outs[i]), Body(cfg, outs, i + 1).0;
        QuietBody(cfg, outs, i + 1);
        QuietConcat(a, b);
        MentionConcat(a, b);
      }
    }
  }

  lemma MentionConcat(a: seq<Event>, b: seq<Event>)
    ensures MentionsMismatch(a + b) <==> MentionsMismatch(a) || MentionsMismatch(b)
  {
    if i :| 0 <= i < |a| && a[i].BalanceMismatch? {
      assert (a + b)[i].BalanceMismatch?;
    }
    if i :| 0 <= i < |b| && b[i].BalanceMismatch? {
      assert (a + b)[|a| + i].BalanceMismatch?;
    }
  }

  lemma QuietPass(cfg: Config, announce: bool, outs: seq<Outcome>)
    ensures QuietAfterMismatch(PassEvents(cfg, announce, outs))
    ensures MentionsMismatch(PassEvents(cfg, announce, outs)) ==> Body(cfg, outs, 0).1
  {
    hide Body;
    var open := (if announce then [PlanGenerated] else []) + (if Pauses(cfg) then [TradingPaused] else []);
    var close := if Pauses(cfg) then [TradingResumed] else [];
    var body := Body(cfg, outs, 0).0;
    QuietBody(cfg, outs, 0);
    QuietConcat(open, body);
    MentionConcat(open, body);
    QuietConcat(open + body, close);
    MentionConcat(open + body, close);
    assert PassEvents(cfg, announce, outs) == open + body + close;
  }

  /** Over the whole life of the loop, a balance mismatch is never followed by another step. */
  lemma {:induction false} MismatchStopsTheLoop(cfg: Config, halted: bool, key: Option<string>, turns: seq<Turn>)
    ensures QuietAfterMismatch(LoopEvents(cfg, halted, key, turns))
    decreases |turns|
  {
    hide PassEvents, Body, QuietAfterMismatch, MentionsMismatch;
    if turns == [] || halted || turns[0].halted {
      assert QuietAfterMismatch([]) by {
        QuietNothing();
      }
    } else if turns[0].plans == [] {
      MismatchStopsTheLoop(cfg, false, None, turns[1..]);
    } else {
      var announce := key != Some(turns[0].planKey);
      var halts := Body(cfg, turns[0].outs, 0).1;
      var rest := LoopEvents(cfg, halts, Some(turns[0].planKey), turns[1..]);
      QuietPass(cfg, announce, turns[0].outs);
      MismatchStopsTheLoop(cfg, halts, Some(turns[0].planKey), turns[1..]);
      assert halts ==> rest == [];
      QuietConcat(PassEvents(cfg, announce, turns[0].outs), rest);
    }
  }

  lemma QuietNothing()
    ensures QuietAfterMismatch([])
  {
  }
}
