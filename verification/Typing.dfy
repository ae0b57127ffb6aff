/** What the keys struck on the STM32 console do to the line (stm32/console.c, common/console.c) and
    to the events that echo them, over every interleaving with the main loop. */
module Typing {
  import opened Ring
  import opened Cmd
  import opened Console
  import opened Events
  import opened EventLoop
  import opened Lines

  // ---------------------------------------------------------------- what a line should be

  /** The line that the keys make: a backspace takes the last character back, every other key adds
      one while there is room; and so does a backspace with nothing to take back. */
  function Edited(keys: seq<int>): (r: Text)
    ensures |r| <= LINE_SIZE && |r| <= |keys|
  {
    if keys == [] then []
    else
      var line, key := Edited(keys[..|keys| - 1]), keys[|keys| - 1];
      if key == BACKSPACE && line != [] then line[..|line| - 1]
      else if |line| < LINE_SIZE then line + [key] else line
  }

  lemma EditedSnoc(keys: seq<int>, key: int)
    ensures var line := Edited(keys);
            Edited(keys + [key]) == if key == BACKSPACE && line != [] then line[..|line| - 1]
                                    else if |line| < LINE_SIZE then line + [key] else line
  {
    assert (keys + [key])[..|keys|] == keys;
  }

  /** The keys struck on the open console since the line was last emptied. */
  function Keys(blank: seq<Event>, steps: seq<Step>): seq<int>
    requires |blank| == MAX_EVENTS
  {
    if steps == [] then []
    else
      var before := steps[..|steps| - 1];
      match (steps[|steps| - 1], Exec(blank, before))
      case (InputDone, _) => []
      case (Key(ch), Some(s)) => Keys(blank, before) + if !s.con.locked && ch != RETURN then [ch] else []
      case _ => Keys(blank, before)
  }

  /** One key on an open console. */
  lemma KeyEdits(s: Sys, keys: seq<int>, ch: int)
    requires EventQueue(s.q) && s.con.line == Edited(keys) && !s.con.locked && ch != RETURN
    ensures KeyStroke(s, ch).con == Con(false, Edited(keys + [ch]))
  {
    assert (keys + [ch])[..|keys|] == keys;
  }

  /** Over every run the line is what its keys make of it. */
  lemma {:induction false} LineIsEdited(blank: seq<Event>, steps: seq<Step>)
    requires |blank| == MAX_EVENTS && Exec(blank, steps).Some?
    ensures Exec(blank, steps).value.con.line == Edited(Keys(blank, steps))
  {
    if steps != [] {
      var before, step := steps[..|steps| - 1], steps[|steps| - 1];
      LineIsEdited(blank, before);
      var s := Exec(blank, before).value;
      if step.Key? && !s.con.locked && step.ch != RETURN {
        KeyEdits(s, Keys(blank, before), step.ch);
      } else {
        assert Keys(blank, before) + [] == Keys(blank, before);
      }
    }
  }

  /** The lines that the keys before each Enter make. */
  function TypedLines(blank: seq<Event>, steps: seq<Step>): seq<Text>
    requires |blank| == MAX_EVENTS
  {
    if steps == [] then []
    else
      var before, step := steps[..|steps| - 1], steps[|steps| - 1];
      TypedLines(blank, before) +
      match Exec(blank, before)
      case None => []
      case Some(s) => if step == Key(RETURN) && !s.con.locked then [Edited(Keys(blank, before))] else []
  }

  lemma {:induction false} TypedIsFinished(blank: seq<Event>, steps: seq<Step>)
    requires |blank| == MAX_EVENTS && Exec(blank, steps).Some?
    ensures TypedLines(blank, steps) == Finished(blank, steps)
  {
    if steps != [] {
      TypedIsFinished(blank, steps[..|steps| - 1]);
      LineIsEdited(blank, steps[..|steps| - 1]);
    }
  }

  /** In every run in which no Enter meets more than six waiting events, the lines run are the lines
      typed, corrections made, each once and in order, but for one that still waits. */
  lemma TypedLinesRunOnce(blank: seq<Event>, steps: seq<Step>)
    requires |blank| == MAX_EVENTS && Exec(blank, steps).Some? && NeverHasty(blank, steps)
    ensures TypedLines(blank, steps) == Ran(blank, steps) + Waiting(Exec(blank, steps).value)
  {
    TypedIsFinished(blank, steps);
    LinesRunOnce(blank, steps);
  }

  // ---------------------------------------------------------------- corrections

  /** Without a backspace the line is the keys themselves, as far as they fit. */
  lemma {:induction false} UncorrectedIsKept(keys: seq<int>)
    requires BACKSPACE !in keys
    ensures Edited(keys) == First(keys, LINE_SIZE)
  {
    if keys != [] {
      var before := keys[..|keys| - 1];
      UncorrectedIsKept(before);
      assert keys[|keys| - 1] in keys;
      assert keys == before + [keys[|keys| - 1]];
      if |before| >= LINE_SIZE {
        assert keys[..LINE_SIZE] == before[..LINE_SIZE];
      }
    }
  }

  /** A key and a backspace leave the line as it was, if there was room for the key. */
  lemma BackspaceUndoes(s: Sys, ch: int)
    requires EventQueue(s.q) && !s.con.locked && |s.con.line| < LINE_SIZE && ch != RETURN && ch != BACKSPACE
    ensures KeyStroke(KeyStroke(s, ch), BACKSPACE).con == s.con
  {
    assert (s.con.line + [ch])[..|s.con.line|] == s.con.line;
  }

  /** A plain editor, in which a backspace on an empty line does nothing. */
  function Ideal(keys: seq<int>): (r: Text)
    ensures |r| <= |keys|
  {
    if keys == [] then []
    else
      var line, key := Ideal(keys[..|keys| - 1]), keys[|keys| - 1];
      if key == BACKSPACE then (if line == [] then [] else line[..|line| - 1]) else line + [key]
  }

  /** How often that happens. */
  function Idle(keys: seq<int>): nat {
    if keys == [] then 0
    else
      var before := keys[..|keys| - 1];
      Idle(before) + if keys[|keys| - 1] == BACKSPACE && Ideal(before) == [] then 1 else 0
  }

  lemma IdealSnoc(keys: seq<int>, key: int)
    ensures var line := Ideal(keys);
            && Ideal(keys + [key]) == (if key != BACKSPACE then line + [key]
                                       else if line == [] then [] else line[..|line| - 1])
            && Idle(keys + [key]) == Idle(keys) + if key == BACKSPACE && line == [] then 1 else 0
  {
    assert (keys + [key])[..|keys|] == keys;
  }

  /** The backspace that is left in front of the line. */
  function Stray(n: nat): Text {
    if n % 2 == 1 then [BACKSPACE] else []
  }

  lemma Uncons<T>(a: seq<T>, b: seq<T>, x: T)
    ensures a + b + [x] == a + (b + [x])
    ensures b != [] ==> (a + b)[..|a + b| - 1] == a + b[..|b| - 1]
  {
  }

  /** One key in the two editors. */
  predicate Moves(line: Text, ideal: Text, n: nat, key: int, line': Text, ideal': Text, n': nat) {
    && line' == (if key == BACKSPACE && line != [] then line[..|line| - 1] else line + [key])
    && ideal' == (if key != BACKSPACE then ideal + [key] else if ideal == [] then [] else ideal[..|ideal| - 1])
    && n' == n + if key == BACKSPACE && ideal == [] then 1 else 0
  }

  lemma StrayStep(line: Text, ideal: Text, n: nat, key: int, line': Text, ideal': Text, n': nat)
    requires line == Stray(n) + ideal && Moves(line, ideal, n, key, line', ideal', n')
    ensures line' == Stray(n') + ideal'
  {
    Uncons(Stray(n), ideal, key);
  }

  /** Here it puts a backspace at the front of the line, and the next time takes it away again. */
  lemma {:induction false} StrayBackspace(keys: seq<int>)
    requires |keys| <= LINE_SIZE
    ensures Edited(keys) == Stray(Idle(keys)) + Ideal(keys)
  {
    if keys != [] {
      var before, key := keys[..|keys| - 1], keys[|keys| - 1];
      StrayBackspace(before);
      assert Moves(Edited(before), Ideal(before), Idle(before), key, Edited(keys), Ideal(keys), Idle(keys)) by {
        assert keys == before + [key];
        EditedSnoc(before, key);
        IdealSnoc(before, key);
      }
      StrayStep(Edited(before), Ideal(before), Idle(before), key, Edited(keys), Ideal(keys), Idle(keys));
    }
  }

  /** So a line of at most 128 key strokes is what a plain editor makes of it exactly when an even
      number of backspaces met an empty line. */
  lemma EditedIsIdealIff(keys: seq<int>)
    requires |keys| <= LINE_SIZE
    ensures Edited(keys) == Ideal(keys) <==> Idle(keys) % 2 == 0
  {
    StrayBackspace(keys);
  }

  // ---------------------------------------------------------------- the echo

  /** The events that a step should put into the queue. */
  function Sends(keys: seq<int>, locked: bool, step: Step): seq<Event> {
    match step
    case Key(ch) =>
      if locked then []
      else if ch == RETURN then [ConEcho(NEWLINE), ConInput]
      else if ch == BACKSPACE && Edited(keys) != [] then [ConDel]
      else [ConEcho(ch)]
    case CommandPush(e) => [e]
    case TakeEvent => []
    case InputDone => []
  }

  function Sent(blank: seq<Event>, steps: seq<Step>): seq<Event>
    requires |blank| == MAX_EVENTS
  {
    if steps == [] then []
    else
      var before := steps[..|steps| - 1];
      Sent(blank, before) +
      match Exec(blank, before)
      case None => []
      case Some(s) => Sends(Keys(blank, before), s.con.locked, steps[|steps| - 1])
  }

  /** The events that the main loop has taken. */
  function Taken(blank: seq<Event>, steps: seq<Step>): seq<Event>
    requires |blank| == MAX_EVENTS
  {
    if steps == [] then []
    else
      var before := steps[..|steps| - 1];
      Taken(blank, before) +
      match Exec(blank, before)
      case None => []
      case Some(s) =>
        if steps[|steps| - 1].TakeEvent? && Pop(s.q).1.Some? then [Pop(s.q).1.value] else []
  }

  /** Every step finds room for its events. */
  predicate Roomy(blank: seq<Event>, steps: seq<Step>)
    requires |blank| == MAX_EVENTS
  {
    steps == [] ||
    var before := steps[..|steps| - 1];
    Roomy(blank, before) &&
    match Exec(blank, before)
    case None => true
    case Some(s) =>
      s.q.Backlog() + |Sends(Keys(blank, before), s.con.locked, steps[|steps| - 1])| <= MAX_EVENTS
  }

  lemma StepSends(s: Sys, keys: seq<int>, step: Step)
    requires WakeUpQueued(s) && Enabled(s, step) && s.con.line == Edited(keys) && !step.TakeEvent?
    requires s.q.Backlog() + |Sends(keys, s.con.locked, step)| <= MAX_EVENTS
    ensures Drain(Do(s, step).q) == Drain(s.q) + Sends(keys, s.con.locked, step)
  {
    var events := Sends(keys, s.con.locked, step);
    if |events| == 2 {
      PushDrains(s.q, ConEcho(NEWLINE));
      PushDrains(Push(s.q, ConEcho(NEWLINE)), ConInput);
      assert Drain(s.q) + [ConEcho(NEWLINE)] + [ConInput] == Drain(s.q) + [ConEcho(NEWLINE), ConInput];
    } else if |events| == 1 {
      PushDrains(s.q, events[0]);
    } else {
      assert Drain(s.q) + [] == Drain(s.q);
    }
  }

  /** In every run whose steps find room, what was taken and what waits is what was sent, in order:
      each key is echoed once, and a backspace only if it took a character back. */
  lemma {:induction false} EchoInOrder(blank: seq<Event>, steps: seq<Step>)
    requires |blank| == MAX_EVENTS && Exec(blank, steps).Some? && Roomy(blank, steps)
    ensures Taken(blank, steps) + Drain(Exec(blank, steps).value.q) == Sent(blank, steps)
  {
    if steps == [] {
      assert Drain(Exec(blank, steps).value.q) == [];
    } else {
      var before, step := steps[..|steps| - 1], steps[|steps| - 1];
      EchoInOrder(blank, before);
      NoLostWakeUp(blank, before);
      LineIsEdited(blank, before);
      var s := Exec(blank, before).value;
      if step.TakeEvent? {
        TakeMoves(Taken(blank, before), s);
        assert Sent(blank, before) + [] == Sent(blank, before);
      } else {
        StepSends(s, Keys(blank, before), step);
        Regroup(Taken(blank, before), Drain(s.q), Sends(Keys(blank, before), s.con.locked, step), [],
                Drain(Do(s, step).q));
      }
    }
  }

  lemma TakeMoves(taken: seq<Event>, s: Sys)
    requires EventQueue(s.q)
    ensures var got := Pop(s.q).1;
            taken + Drain(s.q) ==
            (taken + if got.Some? then [got.value] else []) + Drain(Do(s, TakeEvent).q)
  {
    if Pop(s.q).1.Some? {
      PopShrinks(s.q);
      assert taken + ([Pop(s.q).1.value] + Drain(Pop(s.q).0)) ==
             (taken + [Pop(s.q).1.value]) + Drain(Pop(s.q).0);
    } else {
      assert taken + [] == taken;
    }
  }
}
