/**
 The prologue of the trading tick: it stops the tick while the rebalance loop or the risk
 manager pauses trading, and alerts on changes of the pause reason only.
 */
module TradingPause {
  import opened Options

  const HOURLY_LIMIT := "Hourly trade limit reached"

  datatype Alert = RiskPaused(reason: string) | RiskResumed(reason: string)

  /** Hourly-limit reasons carry a countdown and share one key; other reasons are their own key. */
  function RiskPauseKey(reason: string): string {
    if HOURLY_LIMIT <= reason then HOURLY_LIMIT else reason
  }

  /** The reason that stops a tick, if any: the rebalance pause comes first. */
  function Active(rebalance: Option<string>, risk: Option<string>): Option<string> {
    if rebalance.Some? then rebalance else risk
  }

  function KeyOf(active: Option<string>): Option<string> {
    if active.Some? then Some(RiskPauseKey(active.value)) else None
  }

  /** What one tick alerts when the stored key is `last`. */
  function TickAlerts(last: Option<string>, active: Option<string>): seq<Alert> {
    if active.Some? then (if last == KeyOf(active) then [] else [RiskPaused(active.value)])
    else if last.Some? then [RiskResumed(last.value)]
    else []
  }

  /** A tick that finds the rebalance pause so set and this risk reason goes on to trade. */
  predicate Proceeds(paused: bool, risk: Option<string>) {
    !paused && risk.None?
  }

  class Ticker {
    var last: Option<string>
    var alerts: seq<Alert>

    constructor ()
      ensures last == None && alerts == []
    {
      last, alerts := None, [];
    }

    /** The tick goes on to trade exactly when nothing pauses it. */
    method TickPrologue(rebalance: Option<string>, risk: Option<string>) returns (proceeds: bool)
      modifies this
      ensures proceeds <==> Proceeds(rebalance.Some?, risk)
      ensures last == KeyOf(Active(rebalance, risk))
      ensures alerts == old(alerts) + TickAlerts(old(last), Active(rebalance, risk))
      ensures !proceeds ==>
        var reason := if rebalance.Some? then rebalance.value else risk.value;
        alerts == old(alerts) + if last == old(last) then [] else [RiskPaused(reason)]
      ensures proceeds ==>
        && last == None
        && alerts == old(alerts) + if old(last).Some? then [RiskResumed(old(last).value)] else []
    {
      if rebalance.Some? {
        var key := RiskPauseKey(rebalance.value);
        if last != Some(key) {
          last := Some(key);
          alerts := alerts + [RiskPaused(rebalance.value)];
        }
        return false;
      }
      if risk.Some? {
        var key := RiskPauseKey(risk.value);
        if last != Some(key) {
          last := Some(key);
          alerts := alerts + [RiskPaused(risk.value)];
        }
        return false;
      }
      var resumed := last;
      last := None;
      if resumed.Some? {
        alerts := alerts + [RiskResumed(resumed.value)];
      }
      proceeds := true;
    }
  }

  /**
   Two reasons have the same key if and only if they are the same reason or both report the hourly
   limit, whatever countdown follows; a key is its own key.
   */
  lemma SameKeyExactly(a: string, b: string)
    ensures RiskPauseKey(a) == RiskPauseKey(b) <==>
            a == b || ("Hourly trade limit reached" <= a && "Hourly trade limit reached" <= b)
    ensures RiskPauseKey(RiskPauseKey(a)) == RiskPauseKey(a) <= a
  {
  }

  // ----- Runs of ticks --------------------------------------------------------------------

  /** The stored key after ticks that found these reasons. */
  function Stored(ticks: seq<Option<string>>): Option<string> {
    if ticks == [] then None else KeyOf(ticks[|ticks| - 1])
  }

  /** Everything alerted by a run of ticks. */
  function Log(ticks: seq<Option<string>>): seq<Alert> {
    if ticks == [] then []
    else
      var before := ticks[..|ticks| - 1];
      Log(before) + TickAlerts(Stored(before), ticks[|ticks| - 1])
  }

  /** Any number of ticks in a row, as the method runs them. */
  method RunTicks(ticker: Ticker, inputs: seq<(Option<string>, Option<string>)>)
    requires ticker.last == None
    modifies ticker
    ensures ticker.last == Stored(Reasons(inputs))
    ensures ticker.alerts == old(ticker.alerts) + Log(Reasons(inputs))
  {
    for i := 0 to |inputs|
      invariant ticker.last == Stored(Reasons(inputs[..i]))
      invariant ticker.alerts == old(ticker.alerts) + Log(Reasons(inputs[..i]))
    {
      assert Reasons(inputs[..i + 1])[..i] == Reasons(inputs[..i]);
      var _ := ticker.TickPrologue(inputs[i].0, inputs[i].1);
    }
    assert inputs[..|inputs|] == inputs;
  }

  function Reasons(inputs: seq<(Option<string>, Option<string>)>): seq<Option<string>> {
    seq(|inputs|, i requires 0 <= i < |inputs| => Active(inputs[i].0, inputs[i].1))
  }

  /** The alert stream read on its own, without the ticks behind it. */
  predicate WellFormed(log: seq<Alert>) {
    && (forall i :: 0 <= i < |log| && log[i].RiskResumed? ==>
          i > 0 && log[i - 1].RiskPaused? && log[i].reason == RiskPauseKey(log[i - 1].reason))
    && (forall i :: 0 < i < |log| && log[i].RiskPaused? && log[i - 1].RiskPaused? ==>
          RiskPauseKey(log[i].reason) != RiskPauseKey(log[i - 1].reason))
  }

  /** What the last alert says about the pause. */
  function Announced(log: seq<Alert>): Option<string> {
    if log != [] && log[|log| - 1].RiskPaused? then Some(RiskPauseKey(log[|log| - 1].reason)) else None
  }

  /**
   For every run of ticks: pauses announced in a row have different keys, a resume carries the
   key of the pause right before it, and the last alert tells whether, and why, trading is
   paused now.
   */
  lemma {:induction false} AlertsTellTheTruth(ticks: seq<Option<string>>)
    ensures WellFormed(Log(ticks))
    ensures Announced(Log(ticks)) == Stored(ticks)
  {
    if ticks != [] {
      var before, now := ticks[..|ticks| - 1], ticks[|ticks| - 1];
      AlertsTellTheTruth(before);
      KeyOfKey(before);
      TickKeepsLog(Log(before), Stored(before), now);
    }
  }

  lemma TickKeepsLog(log: seq<Alert>, last: Option<string>, now: Option<string>)
    requires WellFormed(log) && Announced(log) == last
    requires last.Some? ==> RiskPauseKey(last.value) == last.value
    ensures WellFormed(log + TickAlerts(last, now)) && Announced(log + TickAlerts(last, now)) == KeyOf(now)
  {
    hide RiskPauseKey;
    var more := TickAlerts(last, now);
    assert more == [] ==> log + more == log;
  }

  lemma KeyOfKey(ticks: seq<Option<string>>)
    ensures Stored(ticks).Some? ==> RiskPauseKey(Stored(ticks).value) == Stored(ticks).value
  {
  }

  /** How often the pause key changes over a run, counted from an unpaused start. */
  function Changes(ticks: seq<Option<string>>): nat {
    if ticks == [] then 0
    else
      var before := ticks[..|ticks| - 1];
      Changes(before) + (if Stored(ticks) == Stored(before) then 0 else 1)
  }

  /** One alert per change of the key, and none without. */
  lemma {:induction false} OneAlertPerChange(ticks: seq<Option<string>>)
    ensures |Log(ticks)| == Changes(ticks)
  {
    if ticks != [] {
      OneAlertPerChange(ticks[..|ticks| - 1]);
    }
  }
}
