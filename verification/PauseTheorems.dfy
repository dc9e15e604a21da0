/**
 Ticks and the rebalance loop running side by side. The loop's shared pause slot is set
 exactly between the pause and the resume that it journals (`SlotIsThePause`, with
 `RebalanceLoop.Journaled`), and a tick looks at the slot once, in its prologue.
 */
module PauseTheorems {
  import opened Options
  import opened Rebalance
  import opened RebalanceTheorems
  import opened TradingPause

  /** An entry of the loop's journal, or a tick starting or ending. */
  datatype Item = Journal(event: Event) | TickBegin(id: nat, risk: Option<string>) | TickEnd(id: nat)

  /**
   The journal's reader, the ticks that are past their prologue, those that were when trading
   was last paused, and those that have ended since.
   */
  datatype World = World(reader: Reader, trading: set<nat>, atPause: set<nat>, ended: set<nat>)

  const START: World := World(OUTSIDE, {}, {}, {})

  predicate SlotSet(w: World) {
    w.reader.Reader? && w.reader.paused
  }

  function Happens(w: World, item: Item): World {
    match item
    case Journal(e) =>
      var reader := Read(w.reader, e, true);
      if e.TradingPaused? then World(reader, w.trading, w.trading, {}) else w.(reader := reader)
    case TickBegin(id, risk) => if Proceeds(SlotSet(w), risk) then w.(trading := w.trading + {id}) else w
    case TickEnd(id) => w.(trading := w.trading - {id}, ended := w.ended + {id})
  }

  function After(w: World, items: seq<Item>): World
    decreases |items|
  {
    if items == [] then w else After(Happens(w, items[0]), items[1..])
  }

  function JournalOf(items: seq<Item>): seq<Event> {
    if items == [] then []
    else (if items[0].Journal? then [items[0].event] else []) + JournalOf(items[1..])
  }

  lemma {:induction false} ReaderFollowsJournal(w: World, items: seq<Item>)
    ensures After(w, items).reader == ReadAll(w.reader, JournalOf(items), true)
    decreases |items|
  {
    hide Read;
    if items != [] {
      ReaderFollowsJournal(Happens(w, items[0]), items[1..]);
      if items[0].Journal? {
        assert JournalOf(items)[1..] == JournalOf(items[1..]);
      } else {
        assert JournalOf(items) == JournalOf(items[1..]);
      }
    }
  }

  /**
   While the slot is set, the ticks trading are those under way at the pause that have not ended;
   steps are open only then.
   */
  predicate Guarded(w: World) {
    && (SlotSet(w) ==> w.trading == w.atPause - w.ended)
    && (w.reader.Reader? && w.reader.open.Some? ==> SlotSet(w))
  }

  lemma {:induction false} GuardIsKept(w: World, items: seq<Item>)
    requires Guarded(w)
    ensures Guarded(After(w, items))
    decreases |items|
  {
    if items != [] {
      GuardIsKept(Happens(w, items[0]), items[1..]);
    }
  }

  lemma {:induction false} ConfusedStays(events: seq<Event>, mustPause: bool)
    ensures ReadAll(Confused, events, mustPause) == Confused
  {
    if events != [] {
      ConfusedStays(events[1..], mustPause);
    }
  }

  /** A prefix of the loop's journal is always read without confusion. */
  lemma JournalIsReadable(cfg: Config, turns: seq<Turn>, items: seq<Item>)
    requires Pauses(cfg) && JournalOf(items) <= LoopEvents(cfg, false, None, turns)
    ensures After(START, items).reader.Reader? && Guarded(After(START, items))
  {
    hide Read, LoopEvents;
    var all := LoopEvents(cfg, false, None, turns);
    var seen := JournalOf(items);
    LoopIsBracketed(cfg, false, None, turns, OUTSIDE);
    assert all == seen + all[|seen|..];
    ReadConcat(OUTSIDE, seen, all[|seen|..], true);
    ConfusedStays(all[|seen|..], true);
    ReaderFollowsJournal(START, items);
    GuardIsKept(START, items);
  }

  lemma {:induction false} ReaderKnowsPause(events: seq<Event>, mustPause: bool)
    ensures var r := ReadAll(OUTSIDE, events, mustPause); r.Reader? ==> (r.paused <==> Paused(events))
  {
    hide Read;
    if events != [] {
      var front, e := events[..|events| - 1], events[|events| - 1];
      assert events == front + [e];
      ReadConcat(OUTSIDE, front, [e], mustPause);
      ReadOne(ReadAll(OUTSIDE, front, mustPause), e, mustPause);
      ReaderKnowsPause(front, mustPause);
      PauseAfter(ReadAll(OUTSIDE, front, mustPause), e, mustPause);
    }
  }

  lemma PauseAfter(r: Reader, e: Event, mustPause: bool)
    ensures Read(r, e, mustPause).Reader? ==>
      && r.Reader?
      && (Read(r, e, mustPause).paused <==> e.TradingPaused? || (r.paused && !e.TradingResumed?))
  {
  }

  /**
   The slot that ticks find set is the loop's own: in every interleaving it is set exactly while
   the loop's journal says that trading is paused.
   */
  lemma SlotIsThePause(cfg: Config, turns: seq<Turn>, items: seq<Item>)
    requires Pauses(cfg) && JournalOf(items) <= LoopEvents(cfg, false, None, turns)
    ensures SlotSet(After(START, items)) <==> Paused(JournalOf(items))
  {
    hide Read, LoopEvents, Paused, After, ReadAll;
    JournalIsReadable(cfg, turns, items);
    ReaderFollowsJournal(START, items);
    ReaderKnowsPause(JournalOf(items), true);
  }

  /** A tick is trading while a rebalance step runs. */
  predicate Overlaps(w: World) {
    w.reader.Reader? && w.reader.open.Some? && w.trading != {}
  }

  /**
   For every interleaving of ticks with the loop, when trading is to be paused: while a step
   runs, exactly the ticks that were under way at the pause and have not ended are trading. So a
   step overlaps a tick if and only if such a tick is left.
   */
  lemma NoTickEntersDuringAStep(cfg: Config, turns: seq<Turn>, items: seq<Item>)
    requires Pauses(cfg) && JournalOf(items) <= LoopEvents(cfg, false, None, turns)
    ensures var w := After(START, items);
      && w.reader.Reader?
      && (w.reader.open.Some? ==> w.trading == w.atPause - w.ended)
      && (Overlaps(w) <==> w.reader.open.Some? && !(w.atPause <= w.ended))
  {
    hide Read, LoopEvents, After;
    JournalIsReadable(cfg, turns, items);
    var w := After(START, items);
    if w.reader.open.Some? && !(w.atPause <= w.ended) {
      var id :| id in w.atPause && id !in w.ended;
      assert id in w.trading;
    }
  }

  lemma {:induction false} AfterLast(w: World, items: seq<Item>, item: Item)
    ensures After(w, items + [item]) == Happens(After(w, items), item)
    decreases |items|
  {
    if items == [] {
      assert ([] + [item])[1..] == [];
      assert After(Happens(w, item), []) == Happens(w, item);
    } else {
      assert (items + [item])[1..] == items[1..] + [item];
      AfterLast(Happens(w, items[0]), items[1..], item);
    }
  }

  lemma {:induction false} JournalOfLast(items: seq<Item>, e: Event)
    ensures JournalOf(items + [Journal(e)]) == JournalOf(items) + [e]
  {
    var all := items + [Journal(e)];
    if items == [] {
      assert all[1..] == [];
    } else {
      assert all[0] == items[0] && all[1..] == items[1..] + [Journal(e)];
      JournalOfLast(items[1..], e);
      var first := if items[0].Journal? then [items[0].event] else [];
      assert JournalOf(all) == first + (JournalOf(items[1..]) + [e]);
    }
  }

  /**
   The pause does not wait for ticks already under way. A step that the loop starts right after
   pausing overlaps a tick if and only if some tick was under way when it paused.
   */
  lemma FirstStepOverlapsExactly(cfg: Config, turns: seq<Turn>, items: seq<Item>, step: nat)
    requires Pauses(cfg)
    requires JournalOf(items) + [TradingPaused, StepStarted(step)] <= LoopEvents(cfg, false, None, turns)
    ensures var started := items + [Journal(TradingPaused)] + [Journal(StepStarted(step))];
      && JournalOf(started) <= LoopEvents(cfg, false, None, turns)
      && (Overlaps(After(START, started)) <==> After(START, items).trading != {})
  {
    hide Read, LoopEvents, After, JournalOf;
    var paused := items + [Journal(TradingPaused)];
    var started := paused + [Journal(StepStarted(step))];
    JournalOfLast(items, TradingPaused);
    JournalOfLast(paused, StepStarted(step));
    assert JournalOf(started) == JournalOf(items) + [TradingPaused, StepStarted(step)];
    AfterLast(START, items, Journal(TradingPaused));
    AfterLast(START, paused, Journal(StepStarted(step)));
    JournalIsReadable(cfg, turns, started);
    StartedIsOpen(After(START, paused).reader, step);
  }

  lemma StartedIsOpen(r: Reader, step: nat)
    ensures Read(r, StepStarted(step), true).Reader? ==> Read(r, StepStarted(step), true).open == Some(step)
  {
  }

  /**
   Such an overlap is a run of every loop whose first plan starts a step: a tick begins, the
   loop announces, pauses and starts, and the tick trades on.
   */
  lemma TickUnderWayOverlaps(cfg: Config, turns: seq<Turn>, id: nat)
    requires Pauses(cfg) && turns != [] && !turns[0].halted && turns[0].plans != []
    requires turns[0].outs != [] && turns[0].outs[0].valid
    ensures var items := [TickBegin(id, None), Journal(PlanGenerated), Journal(TradingPaused), Journal(StepStarted(0))];
      && JournalOf(items) <= LoopEvents(cfg, false, None, turns)
      && Overlaps(After(START, items)) && id in After(START, items).trading
  {
    var begin := [TickBegin(id, None), Journal(PlanGenerated)];
    assert begin[1..] == [Journal(PlanGenerated)] && begin[1..][1..] == [];
    var w1 := Happens(START, begin[0]);
    var w2 := Happens(w1, begin[1]);
    assert After(w1, begin[1..]) == w2 && After(START, begin) == w2 by {
      assert After(w2, []) == w2;
    }
    assert JournalOf(begin) == [PlanGenerated] by {
      assert JournalOf(begin[1..]) == [PlanGenerated];
    }
    FirstEvents(cfg, turns);
    FirstStepOverlapsExactly(cfg, turns, begin, 0);
    var paused := begin + [Journal(TradingPaused)];
    AfterLast(START, begin, Journal(TradingPaused));
    AfterLast(START, paused, Journal(StepStarted(0)));
    assert paused + [Journal(StepStarted(0))]
        == [TickBegin(id, None), Journal(PlanGenerated), Journal(TradingPaused), Journal(StepStarted(0))];
  }

  lemma FirstEvents(cfg: Config, turns: seq<Turn>)
    requires Pauses(cfg) && turns != [] && !turns[0].halted && turns[0].plans != []
    requires turns[0].outs != [] && turns[0].outs[0].valid
    ensures [PlanGenerated] + [TradingPaused, StepStarted(0)] <= LoopEvents(cfg, false, None, turns)
  {
    var outs := turns[0].outs;
    assert StepEvents(cfg, 0, outs[0])[0] == StepStarted(0);
    assert StepEvents(cfg, 0, outs[0])[..1] <= Body(cfg, outs, 0).0;
    var pass := PassEvents(cfg, true, outs);
    assert pass[0] == PlanGenerated && pass[1] == TradingPaused && pass[2] == StepStarted(0);
    assert pass <= LoopEvents(cfg, false, None, turns);
  }
}
