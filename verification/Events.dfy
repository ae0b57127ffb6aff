/** The event queue (common/event.c) with its interrupt-side producer (stm32/console.c).

    The serial interrupt puts key strokes into the line editor and events into the queue; the main
    loop takes events out.  Enter locks the editor until the main loop has run the command.  The
    interrupt is atomic with respect to one push or one pop. */
module Events {
  import opened Wrappers
  import opened Ring
  import opened Cmd
  import opened Console

  const MAX_EVENTS: nat := 8
  const BACKSPACE: int := 8

  /** What the pointer of a play event refers to. */
  datatype Pointer = Argument(k: nat) | Radio(choice: nat)

  datatype Event =
    | ConInput | ConEcho(ch: int) | ConDel
    | PlStop | PlPlay(what: Pointer)
    | VolUp | VolDown | VolSet(par: nat)

  type Queue = State<Event>

  predicate EventQueue(q: Queue) {
    q.Valid() && |q.slots| == MAX_EVENTS
  }

  /** The event pushed last. */
  function Newest(q: Queue): Event
    requires EventQueue(q) && q.head > 0
  {
    q.slots[(q.head - 1) % MAX_EVENTS]
  }

  datatype Sys = Sys(q: Queue, con: Con, handling: bool)

  datatype Step =
    | Key(ch: int)             // usart3_handle_it
    | TakeEvent                // event_pop and the switch of event_loop
    | CommandPush(e: Event)    // a command run by cmd_input pushes an event
    | InputDone                // con_reset after cmd_input

  /** Fewer than 2^32 events since start-up; only an input handler runs commands. */
  predicate Enabled(s: Sys, step: Step) {
    match step
    case Key(ch) => s.q.head + 2 < U32
    case TakeEvent => !s.handling
    case CommandPush(e) => s.handling && !e.ConInput? && s.q.head + 1 < U32
    case InputDone => s.handling
  }

  function KeyStroke(s: Sys, ch: int): (r: Sys)
    requires EventQueue(s.q)
    ensures EventQueue(r.q)
  {
    if s.con.locked then s
    else if ch == RETURN then
      s.(con := s.con.(locked := true), q := Push(Push(s.q, ConEcho(NEWLINE)), ConInput))
    else if ch == BACKSPACE && s.con.line != [] then
      s.(con := InputDel(s.con), q := Push(s.q, ConDel))
    else
      s.(con := InputPush(s.con, ch), q := Push(s.q, ConEcho(ch)))
  }

  function Do(s: Sys, step: Step): (r: Sys)
    requires EventQueue(s.q)
    ensures EventQueue(r.q)
  {
    match step
    case Key(ch) => KeyStroke(s, ch)
    case TakeEvent =>
      var (q, got) := Pop(s.q);
      s.(q := q, handling := got == Some(ConInput))
    case CommandPush(e) => s.(q := Push(s.q, e))
    case InputDone => s.(con := FRESH, handling := false)
  }

  /** A locked console that nobody is serving has its wake-up in the queue, as the newest event. */
  predicate WakeUpQueued(s: Sys) {
    && EventQueue(s.q) && s.q.tail <= s.q.head
    && (s.con.locked && !s.handling ==> s.q.tail < s.q.head && Newest(s.q) == ConInput)
  }

  lemma PushIsNewest(q: Queue, e: Event)
    requires EventQueue(q) && q.tail <= q.head && q.head + 1 < U32
    ensures var r := Push(q, e); r.tail < r.head == q.head + 1 && Newest(r) == e
  {
  }

  /** If only one event is left, or the ring is over-full, a pop takes the newest. */
  lemma PopOfNewest(q: Queue)
    requires EventQueue(q) && q.tail < q.head
    ensures Pop(q).1.Some?
    ensures q.Backlog() == 1 || q.Backlog() == MAX_EVENTS + 1 ==> Pop(q).1 == Some(Newest(q))
  {
    SameSlot(q.tail, MAX_EVENTS);
  }

  lemma StepKeeps(s: Sys, step: Step)
    requires WakeUpQueued(s) && Enabled(s, step)
    ensures WakeUpQueued(Do(s, step))
  {
    match step {
      case Key(ch) =>
        if !s.con.locked {
          if ch == RETURN {
            PushIsNewest(s.q, ConEcho(NEWLINE));
            PushIsNewest(Push(s.q, ConEcho(NEWLINE)), ConInput);
          }
        }
      case TakeEvent =>
        if s.q.tail < s.q.head {
          PopOfNewest(s.q);
        }
      case CommandPush(e) => PushIsNewest(s.q, e);
      case InputDone =>
    }
  }

  function Exec(blank: seq<Event>, steps: seq<Step>): (r: Option<Sys>)
    requires |blank| == MAX_EVENTS
    ensures r.Some? ==> EventQueue(r.value.q)
  {
    if steps == [] then Some(Sys(State(0, 0, blank), FRESH, false))
    else
      match Exec(blank, steps[..|steps| - 1])
      case None => None
      case Some(s) => if Enabled(s, steps[|steps| - 1]) then Some(Do(s, steps[|steps| - 1])) else None
  }

  /** No lost wake-up: over every interleaving of key strokes, pops and commands, queue overflow
      included. */
  lemma {:induction false} NoLostWakeUp(blank: seq<Event>, steps: seq<Step>)
    requires |blank| == MAX_EVENTS && Exec(blank, steps).Some?
    ensures WakeUpQueued(Exec(blank, steps).value)
  {
    if steps != [] {
      NoLostWakeUp(blank, steps[..|steps| - 1]);
      StepKeeps(Exec(blank, steps[..|steps| - 1]).value, steps[|steps| - 1]);
    }
  }

  // ---------------------------------------------------------------- the lock is always released

  function Takes(steps: seq<Step>): nat {
    if steps == [] then 0 else (if steps[0].TakeEvent? then 1 else 0) + Takes(steps[1..])
  }

  /** Somewhere along these steps the input handler is entered. */
  predicate Served(s: Sys, steps: seq<Step>)
    requires EventQueue(s.q)
    decreases |steps|
  {
    s.handling || (steps != [] && Served(Do(s, steps[0]), steps[1..]))
  }

  /** Whatever is typed meanwhile, the input handler runs after at most as many pops as there are
      events waiting, which is at most nine; it then unlocks the console. */
  lemma {:induction false} LockIsServed(s: Sys, steps: seq<Step>)
    requires WakeUpQueued(s) && s.con.locked && !s.handling
    requires forall k :: 0 <= k < |steps| ==> steps[k].Key? || steps[k].TakeEvent?
    requires Takes(steps) >= s.q.Backlog()
    ensures s.q.Backlog() <= MAX_EVENTS + 1 && Served(s, steps)
    decreases |steps|
  {
    var s' := Do(s, steps[0]);
    if steps[0].TakeEvent? {
      PopOfNewest(s.q);
      StepKeeps(s, TakeEvent);
      if !s'.handling {
        LockIsServed(s', steps[1..]);
      }
    } else {
      LockIsServed(s', steps[1..]);
    }
  }

  /** An over-full queue hands out the input event early and keeps it: it will be handled a second
      time, when everything else has been. */
  lemma OverflowServesTwice(s: Sys)
    requires WakeUpQueued(s) && s.con.locked && !s.handling && s.q.Backlog() == MAX_EVENTS + 1
    ensures |Drain(s.q)| == MAX_EVENTS + 1
    ensures Drain(s.q)[0] == ConInput && Drain(s.q)[MAX_EVENTS] == ConInput
  {
    DrainShape(s.q);
    assert s.q.Live()[MAX_EVENTS] == Newest(s.q);
    assert s.q.Live()[1..][MAX_EVENTS - 1] == Newest(s.q);
  }
}
