/** The event loop (common/event.c), the command handlers that push events (common/player.c) and
    one turn of the Linux main loop as the console sees it (linux/console.c, linux/main.c). */
module EventLoop {
  import opened Wrappers
  import opened Ring
  import opened Cmd
  import opened Console
  import opened Events
  import opened Libc

  const MAX_VOLUME: nat := 16
  const RADIOS: nat := 16

  /** What the player is told to do. */
  datatype Action = Stop | Play(what: Text) | PlayRadio(choice: nat)

  /** The queue, the console, the token buffer, the volume, and the player calls made so far. */
  datatype App = App(q: Queue, con: Con, tokens: seq<Text>, volume: nat, done: seq<Action>)

  // ---------------------------------------------------------------- volume

  /** `pl_volume_set` with its 8-bit parameter. */
  function VolumeSet(v: int): (r: nat)
    ensures r <= MAX_VOLUME
  {
    var byte := v % 256;
    if byte > MAX_VOLUME then MAX_VOLUME else byte
  }

  /** One step up or down from a legal volume; a step down from zero goes round to the maximum. */
  lemma VolumeStep(v: nat)
    requires v <= MAX_VOLUME
    ensures VolumeSet(v) == v
    ensures VolumeSet(v + 1) == if v == MAX_VOLUME then MAX_VOLUME else v + 1
    ensures VolumeSet(v - 1) == if v == 0 then MAX_VOLUME else v - 1
  {
    assert (v - 1) % 256 == if v == 0 then 255 else v - 1;
  }

  /** `cmd_snd_volume`: a parameter that is a prefix of a keyword counts as that keyword. */
  function VolumeCommand(tokens: seq<Text>, volume: nat): Option<Event>
    requires tokens != []
  {
    if |tokens| != 2 then
      if tokens[0] <= Chars("mute") then Some(VolSet(0)) else None
    else
      var p := tokens[1];
      var v := if p <= Chars("up") || p <= Chars("+") then volume + 1
               else if p <= Chars("down") || p <= Chars("-") then volume - 1
               else if p <= Chars("mute") then 0
               else Atoi(p);
      Some(VolSet(if v < 0 then 0 else if v > MAX_VOLUME then MAX_VOLUME else v))
  }

  // ---------------------------------------------------------------- commands and events

  /** The event the command in the token buffer pushes; a play event carries a pointer to its
      argument, not a copy. */
  function Command(tokens: seq<Text>, volume: nat): (r: Option<Event>)
    ensures r.Some? ==> r.value.PlStop? || r.value.PlPlay? || r.value.VolSet?
    ensures r.Some? && r.value.PlPlay? && r.value.what.Argument? ==> |tokens| == 2 && r.value.what.k == 1
  {
    if tokens == [] then None
    else if tokens[0] == Chars("play") then
      if |tokens| == 2 then Some(PlPlay(Argument(1))) else None
    else if tokens[0] == Chars("stop") then Some(PlStop)
    else if tokens[0] == Chars("svol") || tokens[0] == Chars("mute") then VolumeCommand(tokens, volume)
    else if tokens[0] == Chars("radio") then
      if |tokens| == 2 && 0 <= Atoi(tokens[1]) < RADIOS then Some(PlPlay(Radio(Atoi(tokens[1])))) else None
    else None
  }

  /** `cmd_Argv`, or the fixed table of stations. */
  function Follow(tokens: seq<Text>, what: Pointer): Action {
    match what
    case Radio(choice) => PlayRadio(choice)
    case Argument(k) => Play(if k < |tokens| then tokens[k] else [])
  }

  predicate Ready(a: App) {
    EventQueue(a.q) && a.q.tail <= a.q.head
  }

  /** One case of the switch in `event_loop`, after the event was popped. */
  function Handle(a: App, e: Event): (r: App)
    requires Ready(a)
    ensures EventQueue(r.q)
    ensures a.volume <= MAX_VOLUME ==> r.volume <= MAX_VOLUME
    ensures a.done <= r.done
  {
    match e
    case ConInput =>
      var tokens := Tokens(CString(a.con.line));
      var pushed := Command(tokens, a.volume);
      a.(tokens := tokens, con := FRESH, q := if pushed.Some? then Push(a.q, pushed.value) else a.q)
    case ConEcho(ch) => a
    case ConDel => a
    case PlStop => a.(done := a.done + [Stop])
    case PlPlay(what) => a.(done := a.done + [Follow(a.tokens, what)])
    case VolUp => a.(volume := VolumeSet(a.volume + 1))
    case VolDown => a.(volume := VolumeSet(a.volume - 1))
    case VolSet(par) => a.(volume := VolumeSet(par))
  }

  // ---------------------------------------------------------------- termination

  function Inputs(events: seq<Event>): nat {
    if events == [] then 0 else (if events[0].ConInput? then 1 else 0) + Inputs(events[1..])
  }

  lemma {:induction false} InputsAppend(a: seq<Event>, b: seq<Event>)
    ensures Inputs(a + b) == Inputs(a) + Inputs(b)
  {
    if a == [] {
      assert a + b == b;
    } else {
      InputsAppend(a[1..], b);
      assert (a + b)[1..] == a[1..] + b;
    }
  }

  lemma InputsSuffix(events: seq<Event>, k: nat)
    requires k <= |events|
    ensures Inputs(events[k..]) <= Inputs(events)
  {
    InputsAppend(events[..k], events[k..]);
    assert events[..k] + events[k..] == events;
  }

  lemma SurroundInputs(kept: seq<Event>, e: Event)
    requires !e.ConInput?
    ensures Inputs([e] + kept + [e]) == Inputs(kept)
  {
    InputsAppend([e] + kept, [e]);
    InputsAppend([e], kept);
    assert Inputs([e]) == 0;
  }

  lemma PushOverfullInputs(q: Queue, e: Event)
    requires EventQueue(q) && q.tail <= q.head && q.head + 1 < U32 && !e.ConInput?
    requires q.Backlog() >= MAX_EVENTS
    ensures Inputs(Drain(Push(q, e))) <= Inputs(Drain(q))
  {
    var lost, before, after := q.Backlog() - MAX_EVENTS + 1, Drain(q), Drain(Push(q, e));
    assert lost <= |before| && after == [e] + before[lost..] + [e] by {
      OverfullDrains(q, e);
    }
    InputsSuffix(before, lost);
    SurroundInputs(before[lost..], e);
  }

  /** Pushing anything but an input event never adds to the input events still to come. */
  lemma PushAddsNoInput(q: Queue, e: Event)
    requires EventQueue(q) && q.tail <= q.head && q.head + 1 < U32 && !e.ConInput?
    ensures Inputs(Drain(Push(q, e))) <= Inputs(Drain(q))
  {
    if q.Backlog() < MAX_EVENTS {
      PushDrains(q, e);
      InputsAppend(Drain(q), [e]);
      assert Inputs([e]) == 0;
    } else {
      PushOverfullInputs(q, e);
    }
  }

  lemma SurroundInput(kept: seq<Event>)
    ensures Inputs([ConInput] + kept + [ConInput]) == Inputs(kept) + 2
  {
    InputsAppend([ConInput] + kept, [ConInput]);
    InputsAppend([ConInput], kept);
    assert Inputs([ConInput]) == 1;
  }

  lemma PushInputOverfull(q: Queue)
    requires EventQueue(q) && q.tail <= q.head && q.head + 1 < U32
    requires q.Backlog() >= MAX_EVENTS && Inputs(Drain(q)) == 0
    ensures Inputs(Drain(Push(q, ConInput))) == 2
  {
    var lost := q.Backlog() - MAX_EVENTS + 1;
    OverfullDrains(q, ConInput);
    InputsSuffix(Drain(q), lost);
    SurroundInput(Drain(q)[lost..]);
  }

  /** With no input event waiting, a push of one is delivered once if the queue has room, and twice
      if it has not. */
  lemma PushInput(q: Queue)
    requires EventQueue(q) && q.tail <= q.head && q.head + 1 < U32
    ensures q.Backlog() < MAX_EVENTS ==> Inputs(Drain(Push(q, ConInput))) == Inputs(Drain(q)) + 1
    ensures q.Backlog() >= MAX_EVENTS && Inputs(Drain(q)) == 0 ==> Inputs(Drain(Push(q, ConInput))) == 2
  {
    if q.Backlog() < MAX_EVENTS {
      PushDrains(q, ConInput);
      InputsAppend(Drain(q), [ConInput]);
      assert Inputs([ConInput]) == 1;
    } else if Inputs(Drain(q)) == 0 {
      PushInputOverfull(q);
    }
  }

  /** Enter on an unlocked console puts its echo and the input event into the queue.  With no input
      event waiting, the queue will deliver one if at most six events were waiting, and two if more
      were. */
  lemma EnterDeliveredOnceIff(s: Sys)
    requires EventQueue(s.q) && s.q.tail <= s.q.head && s.q.head + 2 < U32 && !s.con.locked
    ensures var q := KeyStroke(s, RETURN).q;
            && (s.q.Backlog() <= 6 ==> Inputs(Drain(q)) == Inputs(Drain(s.q)) + 1)
            && (Inputs(Drain(s.q)) == 0 ==> Inputs(Drain(q)) == if s.q.Backlog() <= 6 then 1 else 2)
  {
    var q := Push(s.q, ConEcho(NEWLINE));
    PushAddsNoInput(s.q, ConEcho(NEWLINE));
    if s.q.Backlog() <= 6 {
      PushDrains(s.q, ConEcho(NEWLINE));
      InputsAppend(Drain(s.q), [ConEcho(NEWLINE)]);
    }
    PushInput(q);
  }

  /** The console after so many key strokes with no turn of the main loop in between. */
  lemma {:induction false} Typed(blank: seq<Event>, ch: int, n: nat) returns (s: Sys)
    requires |blank| == MAX_EVENTS && n <= MAX_EVENTS && ch != RETURN && ch != BACKSPACE
    ensures Exec(blank, seq(n, _ => Key(ch))) == Some(s) && EventQueue(s.q)
    ensures s.q.head == n && s.q.tail == 0 && !s.con.locked && !s.handling && Inputs(Drain(s.q)) == 0
  {
    if n == 0 {
      s := Exec(blank, []).value;
      assert seq(0, _ => Key(ch)) == [];
      assert Drain(s.q) == [];
    } else {
      var before := Typed(blank, ch, n - 1);
      assert seq(n, _ => Key(ch))[..n - 1] == seq(n - 1, _ => Key(ch));
      s := KeyStroke(before, ch);
      PushAddsNoInput(before.q, ConEcho(ch));
    }
  }

  /** After up to six quick key strokes Enter is delivered once, after seven or eight twice. */
  lemma QuickTypistDeliveredTwice(blank: seq<Event>, ch: int, n: nat) returns (s: Sys)
    requires |blank| == MAX_EVENTS && n <= MAX_EVENTS && ch != RETURN && ch != BACKSPACE
    ensures Exec(blank, seq(n, _ => Key(ch)) + [Key(RETURN)]) == Some(s) && EventQueue(s.q)
    ensures Inputs(Drain(s.q)) == if n <= 6 then 1 else 2
  {
    var before := Typed(blank, ch, n);
    var keys := seq(n, _ => Key(ch));
    assert (keys + [Key(RETURN)])[..n] == keys;
    s := KeyStroke(before, RETURN);
    EnterDeliveredOnceIff(before);
  }

  /** Handling an input event always empties the line, and on an empty line it does nothing else but
      empty the token table. */
  lemma InputOnEmptyLine(a: App)
    requires Ready(a)
    ensures Handle(a, ConInput).con == FRESH
    ensures a.con == FRESH ==> Handle(a, ConInput) == a.(tokens := [])
  {
  }

  lemma PopShrinks(q: Queue)
    requires EventQueue(q) && Pop(q).1.Some?
    ensures var e := Pop(q).1.value;
            && Drain(q) == [e] + Drain(Pop(q).0)
            && Inputs(Drain(q)) == Inputs(Drain(Pop(q).0)) + (if e.ConInput? then 1 else 0)
  {
    assert Drain(q)[1..] == Drain(Pop(q).0);
  }

  /** Room for every event the pending commands may still push. */
  predicate Room(a: App)
    requires Ready(a)
  {
    a.q.head + Inputs(Drain(a.q)) < U32
  }

  /** A command handler pushes at most one event, which is not an input event. */
  lemma CommandDecreases(a: App)
    requires EventQueue(a.q) && a.q.tail <= a.q.head && a.q.head + Inputs(Drain(a.q)) + 1 < U32
    ensures var b := Handle(a, ConInput);
            Ready(b) && Room(b) && Inputs(Drain(b.q)) <= Inputs(Drain(a.q))
  {
    var pushed := Command(Tokens(CString(a.con.line)), a.volume);
    if pushed.Some? {
      PushAddsNoInput(a.q, pushed.value);
    }
  }

  /** One turn of the loop: the pair (input events to come, events to come) decreases. */
  lemma TurnDecreases(a: App)
    requires Ready(a) && Room(a) && Pop(a.q).1.Some?
    ensures var (q, got) := Pop(a.q);
            var b := Handle(a.(q := q), got.value);
            && Ready(b) && Room(b)
            && Inputs(Drain(b.q)) <= Inputs(Drain(a.q))
            && (Inputs(Drain(b.q)) == Inputs(Drain(a.q)) ==> |Drain(b.q)| < |Drain(a.q)|)
  {
    PopShrinks(a.q);
    var (q, got) := Pop(a.q);
    if got.value.ConInput? {
      CommandDecreases(a.(q := q));
    }
  }

  /** `event_loop`.  It terminates from every queue content, over-full ones included, and leaves
      the queue empty. */
  function Loop(a: App): (r: App)
    requires Ready(a) && Room(a)
    ensures Ready(r) && r.q.head == r.q.tail
    ensures a.volume <= MAX_VOLUME ==> r.volume <= MAX_VOLUME
    ensures a.done <= r.done
    decreases Inputs(Drain(a.q)), |Drain(a.q)|
  {
    var (q, got) := Pop(a.q);
    if got.None? then a
    else
      TurnDecreases(a);
      Loop(Handle(a.(q := q), got.value))
  }

  // ---------------------------------------------------------------- one turn of the main loop

  /** One character read by the Linux `host_con_poll`: the newline locks before it is pushed, so it
      is never stored. */
  function PollChar(a: App, ch: int): (r: App)
    requires EventQueue(a.q)
    ensures EventQueue(r.q)
  {
    if a.con.locked then a
    else if ch == NEWLINE then
      a.(con := InputPush(a.con.(locked := true), ch), q := Push(a.q, ConInput))
    else a.(con := InputPush(a.con, ch))
  }

  function Poll(a: App, chars: seq<int>): (r: App)
    requires EventQueue(a.q)
    ensures EventQueue(r.q)
    decreases |chars|
  {
    if chars == [] then a else Poll(PollChar(a, chars[0]), chars[1..])
  }

  /** Nothing queued, nothing locked: the state between two turns. */
  predicate Quiet(a: App) {
    EventQueue(a.q) && a.q.head == a.q.tail && !a.con.locked
  }

  /** What of the typed characters the line editor keeps. */
  function Fill(line: Text, chars: Text): Text
    decreases |chars|
  {
    if chars == [] then line
    else Fill(if |line| >= LINE_SIZE then line else line + [chars[0]], chars[1..])
  }

  function Before(chars: Text): (r: Text)
    ensures r <= chars
  {
    if chars == [] || chars[0] == NEWLINE then [] else [chars[0]] + Before(chars[1..])
  }

  lemma {:induction false} PollLocked(a: App, chars: seq<int>)
    requires EventQueue(a.q) && a.con.locked
    ensures Poll(a, chars) == a
    decreases |chars|
  {
    if chars != [] {
      PollLocked(a, chars[1..]);
    }
  }

  /** The first newline ends the line and queues one event; the rest of the input is dropped. */
  lemma {:induction false} PollShape(a: App, chars: seq<int>)
    requires EventQueue(a.q) && !a.con.locked
    ensures Poll(a, chars) ==
            var con := Con(NEWLINE in chars, Fill(a.con.line, Before(chars)));
            a.(con := con, q := if NEWLINE in chars then Push(a.q, ConInput) else a.q)
    decreases |chars|
  {
    if chars != [] {
      var b := PollChar(a, chars[0]);
      if chars[0] == NEWLINE {
        PollLocked(b, chars[1..]);
      } else {
        PollShape(b, chars[1..]);
      }
    }
  }

  /** The effect of a command at once, with the arguments in the token buffer. */
  function Perform(a: App, command: Option<Event>): App {
    match command
    case None => a
    case Some(PlStop) => a.(done := a.done + [Stop])
    case Some(PlPlay(Radio(choice))) => a.(done := a.done + [PlayRadio(choice)])
    case Some(PlPlay(Argument(_))) => a.(done := a.done + [Play(if |a.tokens| > 1 then a.tokens[1] else [])])
    case Some(VolSet(par)) => a.(volume := VolumeSet(par))
    case Some(_) => a
  }

  /** The same turn with no queue at all: the typed command is run and takes effect at once. */
  function Direct(a: App, chars: seq<int>): App
    requires Quiet(a)
  {
    var line := Fill(a.con.line, Before(chars));
    if NEWLINE !in chars then a.(con := Con(false, line))
    else
      var tokens := Tokens(CString(line));
      Perform(a.(con := FRESH, tokens := tokens), Command(tokens, a.volume))
  }

  lemma OnlyEvent(q: Queue, e: Event)
    requires EventQueue(q) && q.head == q.tail && q.head + 1 < U32
    ensures var r := Push(q, e);
            && r.Backlog() == 1 && Pop(r).1 == Some(e) && Pop(r).0.head == Pop(r).0.tail == q.head + 1
            && Drain(r) == [e]
  {
    PushDrains(q, e);
    PopOfNewest(Push(q, e));
    PushIsNewest(q, e);
  }

  /** `con_poll` followed by `event_loop`. */
  function Turn(a: App, chars: seq<int>): App
    requires Quiet(a) && a.q.head + 2 < U32
  {
    PollShape(a, chars);
    if NEWLINE in chars then OnlyEvent(a.q, ConInput); Loop(Poll(a, chars)) else Loop(Poll(a, chars))
  }

  /** The event that a command pushed is the only one waiting, and is handled before anything can
      overwrite the token buffer it points into. */
  lemma LoopAfterCommand(a: App, command: Option<Event>)
    requires EventQueue(a.q) && a.q.head == a.q.tail && a.q.head + 1 < U32
    requires command.Some? ==>
               && (command.value.PlStop? || command.value.PlPlay? || command.value.VolSet?)
               && (command.value.PlPlay? && command.value.what.Argument? ==> command.value.what.k == 1)
    ensures var b := if command.Some? then a.(q := Push(a.q, command.value)) else a;
            && Ready(b) && Room(b) && b.q.Backlog() <= 1
            && Loop(b) == Perform(a, command).(q := Loop(b).q)
            && Loop(b).q.head <= a.q.head + 1
  {
    if command.Some? {
      var e := command.value;
      OnlyEvent(a.q, e);
      assert Inputs([e]) == 0;
      var b := a.(q := Push(a.q, e));
      assert Loop(b) == Loop(Handle(b.(q := Pop(b.q).0), e));
    }
  }

  lemma PollOneLine(a: App, chars: seq<int>)
    requires Quiet(a) && a.q.head + 2 < U32 && NEWLINE in chars
    ensures var b := Poll(a, chars);
            && Ready(b) && Room(b) && b.q.Backlog() == 1 && Pop(b.q).1 == Some(ConInput)
            && Pop(b.q).0.head == Pop(b.q).0.tail == a.q.head + 1
            && b == a.(con := Con(true, Fill(a.con.line, Before(chars))), q := b.q)
  {
    PollShape(a, chars);
    OnlyEvent(a.q, ConInput);
  }

  /** On Linux the queue is invisible: a turn has the effect of running the typed command directly,
      never has more than one event waiting, and ends with an empty queue. */
  lemma TurnIsDirect(a: App, chars: seq<int>)
    requires Quiet(a) && a.q.head + 2 < U32
    ensures Turn(a, chars) == Direct(a, chars).(q := Turn(a, chars).q)
    ensures Quiet(Turn(a, chars)) && Turn(a, chars).q.head <= a.q.head + 2
    ensures Poll(a, chars).q.Backlog() <= 1
  {
    PollShape(a, chars);
    if NEWLINE in chars {
      PollOneLine(a, chars);
      var b := Poll(a, chars);
      var tokens := Tokens(CString(b.con.line));
      var ran := b.(q := Pop(b.q).0, con := FRESH, tokens := tokens);
      LoopAfterCommand(ran, Command(tokens, a.volume));
      assert Turn(a, chars) == Loop(Handle(b.(q := Pop(b.q).0), ConInput));
    }
  }

  function Turns(a: App, inputs: seq<seq<int>>): (r: App)
    requires Quiet(a) && a.q.head + 2 * |inputs| < U32
    ensures Quiet(r) && r.q.head <= a.q.head + 2 * |inputs|
  {
    if inputs == [] then a
    else
      var b := Turns(a, inputs[..|inputs| - 1]);
      TurnIsDirect(b, inputs[|inputs| - 1]);
      Turn(b, inputs[|inputs| - 1])
  }

  function Directs(a: App, inputs: seq<seq<int>>): (r: App)
    requires Quiet(a)
    ensures r.q == a.q && !r.con.locked
  {
    if inputs == [] then a else Direct(Directs(a, inputs[..|inputs| - 1]), inputs[|inputs| - 1])
  }

  lemma DirectIgnoresQueue(a: App, b: App, chars: seq<int>)
    requires Quiet(a) && Quiet(b) && a == b.(q := a.q)
    ensures Direct(a, chars) == Direct(b, chars).(q := a.q)
  {
  }

  /** And so over every run of turns. */
  lemma {:induction false} TurnsAreDirect(a: App, inputs: seq<seq<int>>)
    requires Quiet(a) && a.q.head + 2 * |inputs| < U32
    ensures Turns(a, inputs) == Directs(a, inputs).(q := Turns(a, inputs).q)
  {
    if inputs != [] {
      var before, last := inputs[..|inputs| - 1], inputs[|inputs| - 1];
      TurnsAreDirect(a, before);
      TurnIsDirect(Turns(a, before), last);
      DirectIgnoresQueue(Turns(a, before), Directs(a, before), last);
    }
  }

  /** The volume stays within its range whatever is typed. */
  lemma {:induction false} VolumeStaysInRange(a: App, inputs: seq<seq<int>>)
    requires Quiet(a) && a.q.head + 2 * |inputs| < U32 && a.volume <= MAX_VOLUME
    ensures Turns(a, inputs).volume <= MAX_VOLUME
  {
    if inputs != [] {
      var before, last := inputs[..|inputs| - 1], inputs[|inputs| - 1];
      VolumeStaysInRange(a, before);
      TurnIsDirect(Turns(a, before), last);
    }
  }
}
