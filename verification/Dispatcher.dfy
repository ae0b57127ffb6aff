/** `event_push` callers and `event_loop` (common/event.c) over the queue updated in place. */
module Dispatcher {
  import opened Ring
  import opened IoBuffer
  import opened Cmd
  import opened Console
  import opened Events
  import opened EventLoop

  class Main {
    const q: Io<Event>
    var con: Con
    var tokens: seq<Text>
    var volume: nat
    var done: seq<Action>

    ghost predicate Valid()
      reads this, q, q.slots
    {
      q.Valid() && Ready(Model())
    }

    ghost function Model(): App
      reads this, q, q.slots
    {
      App(q.Model(), con, tokens, volume, done)
    }

    constructor ()
      ensures Valid() && fresh(q) && fresh(q.slots) && Quiet(Model()) && q.head == 0
    {
      q := new Io<Event>(MAX_EVENTS, ConDel);
      con, tokens, volume, done := FRESH, [], 8, [];
    }

    method HandleEvent(e: Event)
      requires Valid()
      modifies this, q, q.slots
      ensures q.Valid() && Model() == Handle(old(Model()), e)
    {
      match e {
        case ConInput =>
          tokens := Tokens(CString(con.line));
          var pushed := Command(tokens, volume);
          if pushed.Some? {
            var _ := q.Push(pushed.value);
          }
          con := FRESH;
        case ConEcho(_) =>
        case ConDel =>
        case PlStop => done := done + [Stop];
        case PlPlay(what) => done := done + [Follow(tokens, what)];
        case VolUp => volume := VolumeSet(volume + 1);
        case VolDown => volume := VolumeSet(volume - 1);
        case VolSet(par) => volume := VolumeSet(par);
      }
    }

    /** One turn of the loop: an event is popped and handled, or the queue was empty. */
    method TakeTurn() returns (more: bool)
      requires Valid() && Room(Model())
      modifies this, q, q.slots
      ensures Valid() && Room(Model()) && Loop(Model()) == Loop(old(Model()))
      ensures !more ==> Model() == old(Model()) == Loop(old(Model()))
      ensures more ==> Inputs(Drain(q.Model())) <= Inputs(Drain(old(q.Model())))
      ensures more && Inputs(Drain(q.Model())) == Inputs(Drain(old(q.Model()))) ==>
                |Drain(q.Model())| < |Drain(old(q.Model()))|
    {
      ghost var before := Model();
      var got := q.Pop();
      more := got.Some?;
      if more {
        TurnDecreases(before);
        PopShrinks(before.q);
        HandleEvent(got.value);
      }
    }

    /** Pops and handles until the queue is empty. */
    method EventLoop()
      requires Valid() && Room(Model())
      modifies this, q, q.slots
      ensures Valid() && Model() == Loop(old(Model())) && q.head == q.tail
    {
      ghost var goal := Loop(Model());
      var more := true;
      while more
        invariant Valid() && Room(Model()) && Loop(Model()) == goal
        invariant !more ==> Model() == goal
        decreases Inputs(Drain(q.Model())), |Drain(q.Model())|, more
      {
        more := TakeTurn();
      }
    }
  }
}
