/** What becomes of the lines typed on the STM32 console: which of them the input handler of
    `event_loop` (common/event.c) runs, over every interleaving with the serial interrupt
    (stm32/console.c). */
module Lines {
  import opened Wrappers
  import opened Ring
  import opened Cmd
  import opened Events
  import opened EventLoop

  /** Enter on an unlocked console while the queue has no room for its two events. */
  predicate Hasty(s: Sys, step: Step)
    requires EventQueue(s.q)
  {
    step == Key(RETURN) && !s.con.locked && s.q.Backlog() > 6
  }

  /** The queue holds one input event if a finished line waits to be run, and none otherwise; and a
      line being run is a finished one. */
  predicate Clean(s: Sys) {
    && EventQueue(s.q) && s.q.tail <= s.q.head && (s.handling ==> s.con.locked)
    && Inputs(Drain(s.q)) == if s.con.locked && !s.handling then 1 else 0
  }

  lemma KeyKeepsCleanIff(s: Sys, ch: int)
    requires Clean(s) && s.q.head + 2 < U32
    ensures Clean(KeyStroke(s, ch)) <==> !Hasty(s, Key(ch))
  {
    if !s.con.locked {
      if ch == RETURN {
        EnterDeliveredOnceIff(s);
      } else {
        PushAddsNoInput(s.q, ConDel);
        PushAddsNoInput(s.q, ConEcho(ch));
      }
    }
  }

  lemma TakeKeepsClean(s: Sys)
    requires Clean(s) && !s.handling
    ensures Clean(Do(s, TakeEvent))
  {
    if Pop(s.q).1.Some? {
      PopShrinks(s.q);
    } else {
      assert Drain(s.q) == [];
    }
  }

  /** Every step but a hasty Enter keeps this, and a hasty Enter does not. */
  lemma StepKeepsCleanIff(s: Sys, step: Step)
    requires Clean(s) && Enabled(s, step)
    ensures Clean(Do(s, step)) <==> !Hasty(s, step)
  {
    match step {
      case Key(ch) => KeyKeepsCleanIff(s, ch);
      case TakeEvent => TakeKeepsClean(s);
      case CommandPush(e) => PushAddsNoInput(s.q, e);
      case InputDone =>
    }
  }

  // ---------------------------------------------------------------- every interleaving

  predicate AlwaysClean(blank: seq<Event>, steps: seq<Step>)
    requires |blank| == MAX_EVENTS
  {
    && (Exec(blank, steps).Some? ==> Clean(Exec(blank, steps).value))
    && (steps == [] || AlwaysClean(blank, steps[..|steps| - 1]))
  }

  predicate NeverHasty(blank: seq<Event>, steps: seq<Step>)
    requires |blank| == MAX_EVENTS
  {
    steps == [] ||
    var before := steps[..|steps| - 1];
    NeverHasty(blank, before) &&
    (Exec(blank, before).Some? ==> !Hasty(Exec(blank, before).value, steps[|steps| - 1]))
  }

  lemma StartIsClean(blank: seq<Event>)
    requires |blank| == MAX_EVENTS
    ensures Clean(Exec(blank, []).value)
  {
    assert Drain(Exec(blank, []).value.q) == [];
  }

  /** Exactly the runs without a hasty Enter are clean all the way. */
  lemma {:induction false} CleanIffNeverHasty(blank: seq<Event>, steps: seq<Step>)
    requires |blank| == MAX_EVENTS && Exec(blank, steps).Some?
    ensures AlwaysClean(blank, steps) <==> NeverHasty(blank, steps)
  {
    if steps == [] {
      StartIsClean(blank);
    } else {
      var before := steps[..|steps| - 1];
      CleanIffNeverHasty(blank, before);
      if AlwaysClean(blank, before) {
        StepKeepsCleanIff(Exec(blank, before).value, steps[|steps| - 1]);
      }
    }
  }

  /** The lines finished by Enter, in order. */
  function Finished(blank: seq<Event>, steps: seq<Step>): seq<Text>
    requires |blank| == MAX_EVENTS
  {
    if steps == [] then []
    else
      var before, step := steps[..|steps| - 1], steps[|steps| - 1];
      Finished(blank, before) +
      match Exec(blank, before)
      case None => []
      case Some(s) => if step == Key(RETURN) && !s.con.locked then [s.con.line] else []
  }

  /** The lines the input handler found when it was entered, in order. */
  function Ran(blank: seq<Event>, steps: seq<Step>): seq<Text>
    requires |blank| == MAX_EVENTS
  {
    if steps == [] then []
    else
      var before, step := steps[..|steps| - 1], steps[|steps| - 1];
      Ran(blank, before) +
      match Exec(blank, before)
      case None => []
      case Some(s) => if step == TakeEvent && Pop(s.q).1 == Some(ConInput) then [s.con.line] else []
  }

  /** The finished line that waits to be run. */
  function Waiting(s: Sys): seq<Text> {
    if s.con.locked && !s.handling then [s.con.line] else []
  }

  /** What one step of a clean console adds to the lines finished and to the lines run. */
  lemma StepMovesLine(s: Sys, step: Step)
    requires Clean(s) && Enabled(s, step)
    ensures var finished := if step == Key(RETURN) && !s.con.locked then [s.con.line] else [];
            var ran := if step == TakeEvent && Pop(s.q).1 == Some(ConInput) then [s.con.line] else [];
            Waiting(s) + finished == ran + Waiting(Do(s, step))
  {
    if step == TakeEvent && Pop(s.q).1.Some? {
      PopShrinks(s.q);
    }
  }

  /** In every run without a hasty Enter, each line finished by Enter is run exactly once, in order
      and as it was finished, and nothing else is run. */
  lemma {:induction false} LinesRunOnce(blank: seq<Event>, steps: seq<Step>)
    requires |blank| == MAX_EVENTS && Exec(blank, steps).Some? && NeverHasty(blank, steps)
    ensures Finished(blank, steps) == Ran(blank, steps) + Waiting(Exec(blank, steps).value)
  {
    if steps != [] {
      var before, step := steps[..|steps| - 1], steps[|steps| - 1];
      LinesRunOnce(blank, before);
      CleanIffNeverHasty(blank, before);
      var s := Exec(blank, before).value;
      StepMovesLine(s, step);
      Regroup(Ran(blank, before), Waiting(s),
              if step == Key(RETURN) && !s.con.locked then [s.con.line] else [],
              if step == TakeEvent && Pop(s.q).1 == Some(ConInput) then [s.con.line] else [],
              Waiting(Do(s, step)));
    }
  }

  lemma Regroup<T>(a: seq<T>, b: seq<T>, c: seq<T>, d: seq<T>, e: seq<T>)
    requires b + c == d + e
    ensures (a + b) + c == (a + d) + e
  {
    assert (a + b) + c == a + (b + c);
    assert (a + d) + e == a + (d + e);
  }

  /** In such a run the handler is entered only on a finished line. */
  lemma EnteredLocked(blank: seq<Event>, steps: seq<Step>)
    requires |blank| == MAX_EVENTS && Exec(blank, steps).Some? && NeverHasty(blank, steps)
    ensures Exec(blank, steps).value.handling ==> Exec(blank, steps).value.con.locked
  {
    CleanIffNeverHasty(blank, steps);
  }

  // ---------------------------------------------------------------- a hasty Enter

  lemma Then(blank: seq<Event>, steps: seq<Step>, s: Sys, step: Step) returns (steps': seq<Step>, s': Sys)
    requires |blank| == MAX_EVENTS && Exec(blank, steps) == Some(s) && EventQueue(s.q) && Enabled(s, step)
    ensures steps' == steps + [step] && s' == Do(s, step) && EventQueue(s'.q)
    ensures Exec(blank, steps') == Some(s')
  {
    steps', s' := steps + [step], Do(s, step);
    assert steps'[..|steps|] == steps;
  }

  /** A console that is open while the queue still holds an input event, as the last to come. */
  predicate Stale(s: Sys) {
    && EventQueue(s.q) && s.q.tail < s.q.head && !s.con.locked && !s.handling && s.con.line == []
    && s.q.Backlog() <= MAX_EVENTS && Newest(s.q) == ConInput && Inputs(Drain(s.q)) == 1
  }

  /** The queue after a hasty Enter, and after its first event has been taken. */
  lemma HastyQueue(s: Sys)
    requires Clean(s) && Enabled(s, Key(RETURN)) && Hasty(s, Key(RETURN))
    ensures var q := KeyStroke(s, RETURN).q;
            && EventQueue(q) && q.tail < q.head == s.q.head + 2 && q.Backlog() == MAX_EVENTS + 1
            && Newest(q) == ConInput && Inputs(Drain(q)) == 2
  {
    EnterDeliveredOnceIff(s);
    PushIsNewest(s.q, ConEcho(NEWLINE));
    PushIsNewest(Push(s.q, ConEcho(NEWLINE)), ConInput);
  }

  lemma OneTaken(q: Queue)
    requires EventQueue(q) && q.tail < q.head && q.Backlog() == MAX_EVENTS + 1
    requires Newest(q) == ConInput && Inputs(Drain(q)) == 2
    ensures var (r, got) := Pop(q);
            && got == Some(ConInput) && EventQueue(r) && r.tail < r.head == q.head
            && r.Backlog() == MAX_EVENTS && Newest(r) == ConInput && Inputs(Drain(r)) == 1
  {
    PopOfNewest(q);
    PopShrinks(q);
  }

  /** The first event out of the over-full queue is the input event, which is served; one more stays
      behind the others. */
  lemma HastyEnterStale(blank: seq<Event>, steps: seq<Step>, s: Sys) returns (steps': seq<Step>, s': Sys)
    requires |blank| == MAX_EVENTS && Exec(blank, steps) == Some(s) && Clean(s)
    requires Enabled(s, Key(RETURN)) && Hasty(s, Key(RETURN))
    ensures steps <= steps' && Exec(blank, steps') == Some(s') && Stale(s') && s'.q.head == s.q.head + 2
  {
    HastyQueue(s);
    steps', s' := Then(blank, steps, s, Key(RETURN));
    OneTaken(s'.q);
    steps', s' := Then(blank, steps', s', TakeEvent);
    steps', s' := Then(blank, steps', s', InputDone);
  }

  /** Taking the events in front leaves the stale one. */
  lemma {:induction false} TakeInFront(blank: seq<Event>, steps: seq<Step>, s: Sys)
    returns (steps': seq<Step>, s': Sys)
    requires |blank| == MAX_EVENTS && Exec(blank, steps) == Some(s) && Stale(s)
    ensures steps <= steps' && Exec(blank, steps') == Some(s') && Stale(s')
    ensures s'.q.Backlog() == 1 && s'.q.head == s.q.head
    decreases s.q.Backlog()
  {
    if s.q.Backlog() == 1 {
      steps', s' := steps, s;
    } else {
      InputIsLast(s.q);
      PopShrinks(s.q);
      steps', s' := Then(blank, steps, s, TakeEvent);
      steps', s' := TakeInFront(blank, steps', s');
    }
  }

  lemma LastCounts(events: seq<Event>)
    requires events != [] && events[|events| - 1] == ConInput
    ensures Inputs(events) >= 1
  {
    InputsSuffix(events, |events| - 1);
    assert events[|events| - 1..] == [ConInput];
    assert Inputs([ConInput]) == 1;
  }

  lemma NewestCounts(q: Queue)
    requires EventQueue(q) && q.tail < q.head && q.Backlog() <= MAX_EVENTS && Newest(q) == ConInput
    ensures Inputs(Drain(q)) >= 1
  {
    var events := Drain(q);
    assert events == q.Live() by {
      DrainShape(q);
    }
    assert |events| == q.head - q.tail && events[|events| - 1] == ConInput;
    LastCounts(events);
  }

  /** If the one input event is the newest of several, the oldest is another one. */
  lemma InputIsLast(q: Queue)
    requires EventQueue(q) && q.tail < q.head && 1 < q.Backlog() <= MAX_EVENTS
    requires Newest(q) == ConInput && Inputs(Drain(q)) == 1
    ensures Pop(q).1.Some? && !Pop(q).1.value.ConInput? && Newest(Pop(q).0) == ConInput
  {
    PopShrinks(q);
    NewestCounts(Pop(q).0);
  }

  /** After every hasty Enter on a clean console, whatever is typed next can be run unfinished: the
      handler is entered on an open console with what has been typed so far. */
  lemma UnfinishedLineRuns(blank: seq<Event>, steps: seq<Step>, s: Sys, ch: int)
    returns (steps': seq<Step>, s': Sys)
    requires |blank| == MAX_EVENTS && Exec(blank, steps) == Some(s) && Clean(s)
    requires Hasty(s, Key(RETURN)) && s.q.head + 4 < U32 && ch != RETURN
    ensures steps <= steps' && Exec(blank, steps') == Some(s')
    ensures s'.handling && !s'.con.locked && s'.con.line == [ch]
  {
    steps', s' := HastyEnterStale(blank, steps, s);
    steps', s' := TakeInFront(blank, steps', s');
    PopOfNewest(s'.q);
    PushAppends(s'.q, ConEcho(ch));
    var one := s'.q;
    PopTakesOldest(one);
    steps', s' := Then(blank, steps', s', Key(ch));
    PopTakesOldest(s'.q);
    assert s'.q.Live()[0] == one.Live()[0];
    steps', s' := Then(blank, steps', s', TakeEvent);
  }

  /** From start-up seven key strokes, Enter and one more key are enough. */
  lemma QuickTypistRunsUnfinished(blank: seq<Event>, key: int, ch: int) returns (steps: seq<Step>, s: Sys)
    requires |blank| == MAX_EVENTS && key != RETURN && key != BACKSPACE && ch != RETURN
    ensures Exec(blank, steps) == Some(s) && s.handling && !s.con.locked && s.con.line == [ch]
  {
    var before := Typed(blank, key, 7);
    steps, s := UnfinishedLineRuns(blank, seq(7, _ => Key(key)), before, ch);
  }
}
