/**
 The auto-rebalance loop: one pass validates, executes and verifies the planned steps in
 order, under a pause of trading, and journals what it does. Validation, execution and
 verification are oracles: each step comes with the outcomes it would meet. The plan map is
 given in the order the pass iterates it.
 */
module Rebalance {
  import opened Options

  datatype RebalanceStep = Trade(name: string) | Withdraw(name: string)

  datatype AssetPlan = AssetPlan(asset: string, steps: seq<RebalanceStep>)

  datatype Config = Config(dryRun: bool, pauseTrading: bool, verifies: bool)

  type pos = n: nat | n > 0 witness 1

  /** The result of verifying balances after a step: fine, no answer, or this many mismatches. */
  datatype Verdict = Passed | Unavailable | Mismatched(count: pos)

  datatype Outcome = Outcome(valid: bool, executes: bool, verdict: Verdict)

  datatype Event =
    | PlanGenerated
    | TradingPaused
    | TradingResumed
    | StepRejected(step: nat)
    | StepStarted(step: nat)
    | StepCompleted(step: nat)
    | StepFailed(step: nat)
    | StepVerified(step: nat)
    | BalanceMismatch(step: nat)
    | VerifyFailed(step: nat)

  function Flatten(plans: seq<AssetPlan>): seq<RebalanceStep> {
    if plans == [] then [] else plans[0].steps + Flatten(plans[1..])
  }

  /** The steps of several plans are those of each, one plan after the other. */
  lemma {:induction false} FlattenConcat(a: seq<AssetPlan>, b: seq<AssetPlan>)
    ensures Flatten(a + b) == Flatten(a) + Flatten(b)
    ensures |a| == 1 ==> Flatten(a) == a[0].steps
  {
    if a == [] {
      assert a + b == b;
    } else {
      assert (a + b)[1..] == a[1..] + b;
      FlattenConcat(a[1..], b);
    }
  }

  // ----- Verification after a step -------------------------------------------------------

  /** The balance check of the exchange: no answer both when the fetch fails and when nothing differs. */
  function VerifyCexBalance(mismatches: Option<nat>): Option<nat> {
    if mismatches.None? || mismatches.value == 0 then None else mismatches
  }

  /** The verdict on a step as the source composes it from the fetched mismatches. */
  function VerdictFor(step: RebalanceStep, mismatches: Option<nat>): Verdict {
    match step
    case Withdraw(_) => Passed
    case Trade(_) =>
      match VerifyCexBalance(mismatches)
      case None => Unavailable
      case Some(n) => if n == 0 then Passed else Mismatched(n)
  }

  predicate Accepts(cfg: Config, v: Verdict) {
    !cfg.verifies || v == Passed
  }

  function Mismatches(i: nat, count: nat): seq<Event> {
    seq(count, _ => BalanceMismatch(i))
  }

  // ----- The pass as a function of its oracles -----------------------------------------------

  predicate Halts(cfg: Config, o: Outcome) {
    cfg.verifies && o.verdict.Mismatched?
  }

  /** The pass goes on after step `i`. */
  predicate Continues(cfg: Config, o: Outcome) {
    cfg.dryRun || (o.valid && o.executes && Accepts(cfg, o.verdict))
  }

  /** What the pass journals for one step. */
  function StepEvents(cfg: Config, i: nat, o: Outcome): seq<Event> {
    if !o.valid then [StepRejected(i)]
    else if cfg.dryRun then []
    else if !o.executes then [StepStarted(i), StepFailed(i)]
    else [StepStarted(i), StepCompleted(i)] + VerifyEvents(cfg, i, o.verdict)
  }

  function VerifyEvents(cfg: Config, i: nat, v: Verdict): seq<Event> {
    if !cfg.verifies then []
    else if Accepts(cfg, v) then [StepVerified(i)]
    else (if v.Mismatched? then Mismatches(i, v.count) else []) + [VerifyFailed(i)]
  }

  /** The steps from `i` on: what they journal, and whether they halt the bot. */
  function Body(cfg: Config, outs: seq<Outcome>, i: nat): (seq<Event>, bool)
    requires i <= |outs|
    decreases |outs| - i
  {
    if i == |outs| then ([], false)
    else if Continues(cfg, outs[i]) then
      var (events, halts) := Body(cfg, outs, i + 1);
      (StepEvents(cfg, i, outs[i]) + events, halts)
    else (StepEvents(cfg, i, outs[i]), outs[i].valid && outs[i].executes && Halts(cfg, outs[i]))
  }

  predicate Pauses(cfg: Config) {
    !cfg.dryRun && cfg.pauseTrading
  }

  /** The journal of a whole pass; `announce` when the plan differs from the last one. */
  function PassEvents(cfg: Config, announce: bool, outs: seq<Outcome>): seq<Event> {
    (if announce then [PlanGenerated] else [])
    + (if Pauses(cfg) then [TradingPaused] else [])
    + Body(cfg, outs, 0).0
    + (if Pauses(cfg) then [TradingResumed] else [])
  }

  // ----- The pause slot and the journal --------------------------------------------------------

  /** Whether trading is paused according to the last entry about it. */
  predicate Paused(journal: seq<Event>) {
    if journal == [] then false
    else
      match journal[|journal| - 1]
      case TradingPaused => true
      case TradingResumed => false
      case _ => Paused(journal[..|journal| - 1])
  }

  predicate Neutral(events: seq<Event>) {
    forall i :: 0 <= i < |events| ==> !events[i].TradingPaused? && !events[i].TradingResumed?
  }

  lemma {:induction false} NeutralKeepsPause(journal: seq<Event>, events: seq<Event>)
    requires Neutral(events)
    ensures Paused(journal + events) == Paused(journal)
  {
    if events == [] {
      assert journal + events == journal;
    } else {
      var front := events[..|events| - 1];
      assert (journal + events)[..|journal + events| - 1] == journal + front;
      NeutralKeepsPause(journal, front);
    }
  }

  lemma StepIsNeutral(cfg: Config, i: nat, o: Outcome)
    ensures Neutral(StepEvents(cfg, i, o))
  {
  }

  lemma {:induction false} BodyIsNeutral(cfg: Config, outs: seq<Outcome>, i: nat)
    requires i <= |outs|
    ensures Neutral(Body(cfg, outs, i).0)
    decreases |outs| - i
  {
    hide StepEvents, Continues;
    if i < |outs| {
      StepIsNeutral(cfg, i, outs[i]);
      BodyIsNeutral(cfg, outs, i + 1);
    }
  }

  // ----- The loop ----------------------------------------------------------------------------------

  /** One turn of the loop: the plans, the oracle outcomes, and whether something else halts the bot first. */
  datatype Turn = Turn(plans: seq<AssetPlan>, planKey: string, outs: seq<Outcome>, halted: bool)

  class RebalanceLoop {
    const cfg: Config
    var pause: Option<string>       // shared with the trading tick
    var activeKey: Option<string>
    var halted: bool                // shared with the rest of the bot
    var journal: seq<Event>

    /** The slot holds a reason exactly while the journal says that trading is paused. */
    predicate Journaled()
      reads this
    {
      pause.Some? <==> Paused(journal)
    }

    constructor (cfg: Config)
      ensures this.cfg == cfg && Journaled()
      ensures pause == None && activeKey == None && !halted && journal == []
    {
      this.cfg := cfg;
      pause, activeKey, halted, journal := None, None, false, [];
    }

    method ClearPause()
      modifies this`pause, this`journal
      ensures pause == None && journal == old(journal) + [TradingResumed]
      ensures Journaled()
    {
      pause := None;
      journal := journal + [TradingResumed];
    }

    method VerifyAfterStep(i: nat, verdict: Verdict) returns (ok: bool)
      modifies this`journal, this`halted
      ensures ok == Accepts(cfg, verdict)
      ensures halted == (old(halted) || (cfg.verifies && verdict.Mismatched?))
      ensures journal + (if ok then [] else [VerifyFailed(i)]) == old(journal) + VerifyEvents(cfg, i, verdict)
    {
      if !cfg.verifies {
        return true;
      }
      match verdict {
        case Unavailable =>
          ok := false;
        case Passed =>
          journal := journal + [StepVerified(i)];
          ok := true;
        case Mismatched(count) =>
          for n := 0 to count
            invariant journal == old(journal) + Mismatches(i, n)
            invariant halted == old(halted)
          {
            journal := journal + [BalanceMismatch(i)];
            assert Mismatches(i, n) + [BalanceMismatch(i)] == Mismatches(i, n + 1);
          }
          halted := true;
          ok := false;
      }
    }

    /** Validates, executes and verifies one step, under the pause if there is to be one; `false` ends the pass. */
    method RunStep(i: nat, o: Outcome) returns (continues: bool)
      requires Pauses(cfg) ==> pause.Some?
      modifies this`journal, this`halted
      ensures continues == Continues(cfg, o)
      ensures journal == old(journal) + StepEvents(cfg, i, o)
      ensures halted == (old(halted) || (!cfg.dryRun && o.valid && o.executes && Halts(cfg, o)))
      ensures old(Journaled()) ==> Journaled()
    {
      hide Paused, Neutral, VerifyEvents;
      StepIsNeutral(cfg, i, o);
      NeutralKeepsPause(journal, StepEvents(cfg, i, o));
      if !o.valid {
        journal := journal + [StepRejected(i)];
        return cfg.dryRun;
      }
      if cfg.dryRun {
        return true;
      }
      journal := journal + [StepStarted(i)];
      if !o.executes {
        journal := journal + [StepFailed(i)];
        return false;
      }
      journal := journal + [StepCompleted(i)];
      ghost var before := journal;
      continues := VerifyAfterStep(i, o.verdict);
      if !continues {
        journal := journal + [VerifyFailed(i)];
      }
      assert journal == before + VerifyEvents(cfg, i, o.verdict);
    }

    /** The nested loops over assets and steps; `false` when a step ended the pass. */
    method RunSteps(plans: seq<AssetPlan>, outs: seq<Outcome>) returns (completed: bool)
      requires |outs| == |Flatten(plans)|
      requires Pauses(cfg) ==> pause.Some?
      modifies this`journal, this`halted
      ensures journal == old(journal) + Body(cfg, outs, 0).0
      ensures halted == (old(halted) || Body(cfg, outs, 0).1)
      ensures completed == forall i :: 0 <= i < |outs| ==> Continues(cfg, outs[i])
      ensures old(Journaled()) ==> Journaled()
    {
      hide StepEvents, Continues, Halts, Paused, Neutral;
      BodyIsNeutral(cfg, outs, 0);
      NeutralKeepsPause(journal, Body(cfg, outs, 0).0);
      ghost var flat := Flatten(plans);
      var n := 0;
      var a := 0;
      while a < |plans|
        invariant 0 <= a <= |plans| && n <= |outs|
        invariant flat[n..] == Flatten(plans[a..])
        invariant journal + Body(cfg, outs, n).0 == old(journal) + Body(cfg, outs, 0).0
        invariant (halted || Body(cfg, outs, n).1) == (old(halted) || Body(cfg, outs, 0).1)
        invariant forall i :: 0 <= i < n ==> Continues(cfg, outs[i])
      {
        var steps := plans[a].steps;
        var b := 0;
        while b < |steps|
          invariant 0 <= b <= |steps| && n <= |outs|
          invariant flat[n..] == steps[b..] + Flatten(plans[a + 1..])
          invariant journal + Body(cfg, outs, n).0 == old(journal) + Body(cfg, outs, 0).0
          invariant (halted || Body(cfg, outs, n).1) == (old(halted) || Body(cfg, outs, 0).1)
          invariant forall i :: 0 <= i < n ==> Continues(cfg, outs[i])
        {
          StepHaltsOnly(cfg, outs[n]);
          var continues := RunStep(n, outs[n]);
          if !continues {
            return false;
          }
          n := n + 1;
          b := b + 1;
        }
        a := a + 1;
      }
      completed := true;
    }

    method RunRebalanceCheck(plans: seq<AssetPlan>, planKey: string, outs: seq<Outcome>)
      requires |outs| == |Flatten(plans)|
      modifies this
      ensures plans == [] ==>
        activeKey == None && pause == old(pause) && halted == old(halted) && journal == old(journal)
      ensures plans != [] ==>
        && activeKey == Some(planKey)
        && pause == (if Pauses(cfg) then None else old(pause))
        && halted == (old(halted) || Body(cfg, outs, 0).1)
        && journal == old(journal) + PassEvents(cfg, old(activeKey) != Some(planKey), outs)
      ensures old(Journaled()) ==> Journaled()
    {
      hide Body, Paused;
      NeutralKeepsPause(journal, [PlanGenerated]);
      if plans == [] {
        activeKey := None;
        return;
      }
      if activeKey != Some(planKey) {
        activeKey := Some(planKey);
        journal := journal + [PlanGenerated];
      }
      var tradingPaused := false;
      if !cfg.dryRun && cfg.pauseTrading {
        pause := Some("rebalance active plan=" + planKey);
        journal := journal + [TradingPaused];
        tradingPaused := true;
      }
      var completed := RunSteps(plans, outs);
      if !completed {
        if tradingPaused {
          ClearPause();
        }
        return;
      }
      if tradingPaused {
        ClearPause();
      }
    }

    /** The loop over its turns; it stops at the first turn that finds the bot halted. */
    method Run(turns: seq<Turn>)
      requires forall t :: 0 <= t < |turns| ==> |turns[t].outs| == |Flatten(turns[t].plans)|
      modifies this
      ensures journal == old(journal) + LoopEvents(cfg, old(halted), old(activeKey), turns)
      ensures halted == LoopEnd(cfg, old(halted), old(activeKey), turns).0
      ensures activeKey == LoopEnd(cfg, old(halted), old(activeKey), turns).1
      ensures pause == old(pause) || (Pauses(cfg) && pause == None)
      ensures old(Journaled()) ==> Journaled()
    {
      hide PassEvents, Body, Flatten;
      var t := 0;
      ghost var all, end := LoopEvents(cfg, halted, activeKey, turns), LoopEnd(cfg, halted, activeKey, turns);
      while t < |turns|
        invariant 0 <= t <= |turns|
        invariant journal + LoopEvents(cfg, halted, activeKey, turns[t..]) == old(journal) + all
        invariant LoopEnd(cfg, halted, activeKey, turns[t..]) == end
        invariant pause == old(pause) || (Pauses(cfg) && pause == None)
        invariant old(Journaled()) ==> Journaled()
      {
        assert turns[t..][0] == turns[t] && turns[t..][1..] == turns[t + 1..];
        halted := halted || turns[t].halted;
        if halted {
          break;
        }
        RunRebalanceCheck(turns[t].plans, turns[t].planKey, turns[t].outs);
        t := t + 1;
      }
    }
  }

  lemma StepHaltsOnly(cfg: Config, o: Outcome)
    ensures !cfg.dryRun && Continues(cfg, o) ==> !Halts(cfg, o)
    ensures !Continues(cfg, o) ==> !cfg.dryRun
  {
  }

  /** The journal of the loop over its turns. */
  function LoopEvents(cfg: Config, halted: bool, key: Option<string>, turns: seq<Turn>): seq<Event>
    decreases |turns|
  {
    if turns == [] || halted || turns[0].halted then []
    else if turns[0].plans == [] then LoopEvents(cfg, false, None, turns[1..])
    else
      PassEvents(cfg, key != Some(turns[0].planKey), turns[0].outs)
      + LoopEvents(cfg, Body(cfg, turns[0].outs, 0).1, Some(turns[0].planKey), turns[1..])
  }

  /** Whether the bot is halted after the loop's turns, and the plan it announced last. */
  function LoopEnd(cfg: Config, halted: bool, key: Option<string>, turns: seq<Turn>): (bool, Option<string>)
    decreases |turns|
  {
    if turns == [] then (halted, key)
    else if halted || turns[0].halted then (true, key)
    else if turns[0].plans == [] then LoopEnd(cfg, false, None, turns[1..])
    else LoopEnd(cfg, Body(cfg, turns[0].outs, 0).1, Some(turns[0].planKey), turns[1..])
  }
}
