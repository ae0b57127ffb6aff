/** The output ring and the audio DMA together (stm32/sound.c).

    `host_snd_poll` pops a slot, scales it in place and hands its address to the DMA, which goes on
    reading the slot after the ring has forgotten it.  The decoder meanwhile pushes new frames into
    the same four slots, and a push onto an over-full ring drops the oldest frame. */
module DmaRing {
  import opened Ring
  import Dma = AudioDma
  import opened DecodeGate
  import opened Wrappers

  /** Beside the ring and the audio machine: the frames handed over, how many frames pushes have
      dropped, and how many had been dropped when each frame was popped. */
  datatype System<T> = System(ring: State<T>, dma: Dma.State, provided: seq<T>, dropped: nat,
                              lost: seq<nat>)

  datatype Event<T> =
    | PushFrame(frame: T)              // o_push, then the caller fills the slot
    | PopProvide(scaled: T, len: nat)  // o_pop, scale in place, enter ProvideAudioBuffer
    | Audio(e: Dma.Event)              // any step of the hand-over, the stream or the handler

  function Address(slot: nat): nat {
    slot + 1
  }

  predicate MainFree<T>(s: System<T>) {
    s.dma.main.Ready? && s.dma.handler.Out?
  }

  /** A push is taken as long as its counter does not wrap.  Every popped frame is valid and of the
      current rate. */
  predicate Enabled<T>(s: System<T>, e: Event<T>)
    requires OutputRing(s.ring)
  {
    match e
    case PushFrame(f) => MainFree(s) && s.ring.head + 1 < U32
    case PopProvide(f, len) => MainFree(s) && s.ring.head > s.ring.tail
    case Audio(a) => !a.Call? && Dma.Enabled(s.dma, a)
  }

  function Step<T>(s: System<T>, e: Event<T>): (r: System<T>)
    requires OutputRing(s.ring) && Enabled(s, e)
    ensures OutputRing(r.ring)
  {
    match e
    case PushFrame(f) =>
      var drop := if s.ring.Backlog() > OUTPUT_BUFFERS then 1 else 0;
      s.(ring := Push(s.ring, f), dropped := s.dropped + drop)
    case PopProvide(f, len) =>
      var slot := s.ring.tail % OUTPUT_BUFFERS;
      var ring := Pop(s.ring).0;
      System(ring.(slots := ring.slots[slot := f]),
             Dma.Step(s.dma, Dma.Call(Dma.Buffer(Address(slot), len))), s.provided + [f],
             s.dropped, s.lost + [s.dropped])
    case Audio(a) => s.(dma := Dma.Step(s.dma, a))
  }

  /** Every buffer handed over so far, the one still being offered included. */
  function Handed<T>(s: System<T>): seq<Dma.Buffer> {
    s.dma.accepted + Dma.Offered(s.dma)
  }

  function InFlight<T>(s: System<T>): seq<Dma.Buffer> {
    Dma.Active(s.dma) + Dma.Queued(s.dma)
  }

  ghost predicate Owned<T>(s: System<T>, slot: nat) {
    exists b :: b in InFlight(s) && b.samples == Address(slot)
  }

  /** The counter of the ring at which a frame was popped: one for each pop and each drop before. */
  function Position<T>(s: System<T>, k: nat): nat
    requires k < |s.lost|
  {
    k + s.lost[k]
  }

  /** How many frames were dropped since the pop before last (2) or the last pop (1). */
  function Since<T>(s: System<T>, back: nat): int
    requires back > 0
  {
    if back <= |s.lost| then s.dropped - s.lost[|s.lost| - back] else 0
  }

  /** Frames are dropped only while the ring is over-full, so drops since the last pop mean five
      frames waiting, and drops between the last two pops mean at least four. */
  predicate DropsShow<T>(s: System<T>)
    requires OutputRing(s.ring)
  {
    && 0 <= Since(s, 1) && 0 <= Since(s, 2)
    && (Since(s, 1) == 0 || s.ring.Backlog() == OUTPUT_BUFFERS + 1)
    && (|s.lost| >= 2 ==> Since(s, 1) <= Since(s, 2))
    && (|s.lost| < 2 || Since(s, 2) == Since(s, 1) || s.ring.Backlog() >= OUTPUT_BUFFERS)
  }

  ghost predicate Inv<T>(s: System<T>) {
    && OutputRing(s.ring) && s.ring.tail <= s.ring.head
    && Dma.Inv(s.dma) && DropsShow(s)
    && |Handed(s)| == |s.provided| == |s.lost| && s.ring.tail == |s.lost| + s.dropped
    && forall k :: 0 <= k < |s.lost| ==> Handed(s)[k].samples == Address(Position(s, k) % OUTPUT_BUFFERS)
  }

  lemma PushKeeps<T>(s: System<T>, f: T)
    requires Inv(s) && Enabled(s, PushFrame(f))
    ensures Inv(Step(s, PushFrame(f)))
  {
    var s' := Step(s, PushFrame(f));
    assert s'.ring.tail + s'.ring.Backlog() == s'.ring.head;
    forall k | 0 <= k < |s'.lost|
      ensures Handed(s')[k].samples == Address(Position(s', k) % OUTPUT_BUFFERS)
    {
      assert Position(s', k) == Position(s, k);
    }
  }

  lemma PopKeeps<T>(s: System<T>, f: T, len: nat)
    requires Inv(s) && Enabled(s, PopProvide(f, len))
    ensures Inv(Step(s, PopProvide(f, len)))
  {
    var s', b := Step(s, PopProvide(f, len)), Dma.Buffer(Address(s.ring.tail % OUTPUT_BUFFERS), len);
    Dma.StepKeeps(s.dma, Dma.Call(b));
    assert Handed(s') == Handed(s) + [b] by {
      Dma.StepKeepsCalls(s.dma, Dma.Call(b));
    }
    assert DropsShow(s');
    forall k | 0 <= k < |s'.lost|
      ensures Handed(s')[k].samples == Address(Position(s', k) % OUTPUT_BUFFERS)
    {
      if k < |s.lost| {
        assert Position(s', k) == Position(s, k);
      }
    }
  }

  lemma AudioKeeps<T>(s: System<T>, a: Dma.Event)
    requires Inv(s) && Enabled(s, Audio(a))
    ensures Inv(Step(s, Audio(a)))
  {
    var s' := Step(s, Audio(a));
    Dma.StepKeeps(s.dma, a);
    assert Handed(s') == Handed(s) by {
      Dma.StepKeepsCalls(s.dma, a);
    }
    forall k | 0 <= k < |s'.lost|
      ensures Handed(s')[k].samples == Address(Position(s', k) % OUTPUT_BUFFERS)
    {
      assert Position(s', k) == Position(s, k);
    }
  }

  lemma StepKeeps<T>(s: System<T>, e: Event<T>)
    requires Inv(s) && Enabled(s, e)
    ensures Inv(Step(s, e))
  {
    match e {
      case PushFrame(f) => PushKeeps(s, f);
      case PopProvide(f, len) => PopKeeps(s, f, len);
      case Audio(a) => AudioKeeps(s, a);
    }
  }

  /** When the main loop is free, the DMA holds the slots popped last, at most two of them. */
  lemma OwnedAreLastPopped<T>(s: System<T>)
    requires Inv(s) && MainFree(s)
    ensures |InFlight(s)| <= 2 && |s.dma.completed| + |InFlight(s)| == |s.lost|
    ensures forall i :: 0 <= i < |InFlight(s)| ==>
              InFlight(s)[i].samples ==
              Address(Position(s, |s.lost| - |InFlight(s)| + i) % OUTPUT_BUFFERS)
  {
    assert Handed(s) == s.dma.completed + InFlight(s);
    var done := |s.dma.completed|;
    forall i | 0 <= i < |InFlight(s)|
      ensures InFlight(s)[i] == Handed(s)[done + i]
    {
    }
  }

  lemma OwnedIff<T>(s: System<T>, slot: nat)
    requires Inv(s) && MainFree(s)
    ensures var n, p := |InFlight(s)|, |s.lost|;
            && n <= 2 && n <= p
            && (Owned(s, slot) <==>
                || (n >= 1 && slot == Position(s, p - 1) % OUTPUT_BUFFERS)
                || (n == 2 && slot == Position(s, p - 2) % OUTPUT_BUFFERS))
  {
    OwnedAreLastPopped(s);
    var n, flight := |InFlight(s)|, InFlight(s);
    if n >= 1 {
      assert flight[n - 1] in flight;
    }
    if n == 2 {
      assert flight[0] in flight;
    }
  }

  lemma PositionFromTail<T>(s: System<T>, back: nat)
    requires Inv(s) && 0 < back <= |s.lost|
    ensures Position(s, |s.lost| - back) == s.ring.tail - back - Since(s, back)
  {
  }

  /** The slot of the last frame popped lies one behind the tail, that of the frame before two
      behind, and each dropped frame puts them one further back. */
  lemma OwnedSlots<T>(s: System<T>, slot: nat)
    requires Inv(s) && MainFree(s)
    ensures var n, t := |InFlight(s)|, s.ring.tail;
            Owned(s, slot) <==>
            || (n >= 1 && slot == (t - 1 - Since(s, 1)) % OUTPUT_BUFFERS)
            || (n == 2 && slot == (t - 2 - Since(s, 2)) % OUTPUT_BUFFERS)
  {
    OwnedIff(s, slot);
    if |InFlight(s)| >= 1 {
      PositionFromTail(s, 1);
    }
    if |InFlight(s)| == 2 {
      PositionFromTail(s, 2);
    }
  }

  // ---------------------------------------------------------------- who overwrites what

  /** The slot that a push or a pop writes. */
  function Target<T>(s: System<T>, e: Event<T>): nat
    requires !e.Audio?
  {
    (if e.PushFrame? then s.ring.head else s.ring.tail) % OUTPUT_BUFFERS
  }

  /** The table of overwriting pushes: `b` frames waiting, `n` in flight, and so many frames dropped
      since the last pop and since the pop before. */
  predicate PushHits(b: nat, n: nat, one: int, two: int) {
    || (b == 2 && n == 2)
    || (b == 3 && n >= 1)
    || (b == 4 && n == 2 && two % 4 == 2)
    || (b == 5 && n >= 1 && one % 4 == 2)
    || (b == 5 && n == 2 && two % 4 == 1)
  }

  /** The table of overwriting pops; each of them takes dropped frames. */
  predicate PopHits(b: nat, n: nat, one: int, two: int) {
    || (b == 4 && n == 2 && two % 4 == 2)
    || (b == 5 && n >= 1 && one % 4 == 3)
    || (b == 5 && n == 2 && two % 4 == 2)
  }

  /** A push overwrites a slot the DMA still owns. */
  predicate PushClobbers<T>(s: System<T>)
    requires OutputRing(s.ring)
  {
    PushHits(s.ring.Backlog(), |InFlight(s)|, Since(s, 1), Since(s, 2))
  }

  /** A pop scales a slot the DMA still owns. */
  predicate PopClobbers<T>(s: System<T>)
    requires OutputRing(s.ring)
  {
    PopHits(s.ring.Backlog(), |InFlight(s)|, Since(s, 1), Since(s, 2))
  }

  predicate Clobbers<T>(s: System<T>, e: Event<T>)
    requires OutputRing(s.ring)
  {
    (e.PushFrame? && PushClobbers(s)) || (e.PopProvide? && PopClobbers(s))
  }

  /** The last slots popped, seen from `d` in front of the tail. */
  predicate Meets(t: int, d: nat, n: nat, one: int, two: int) {
    || (n >= 1 && (t + d) % 4 == (t - 1 - one) % 4)
    || (n == 2 && (t + d) % 4 == (t - 2 - two) % 4)
  }

  lemma SlotDistance(t: int, d: nat, back: int)
    ensures (t + d) % 4 == (t - back) % 4 <==> (d + back) % 4 == 0
  {
  }

  lemma Residue(x: int, c: nat)
    requires c < 8
    ensures (c + x) % 4 == 0 <==> x % 4 == (8 - c) % 4
  {
  }

  lemma MeetsPush(t: int, b: nat, n: nat, one: int, two: int)
    requires b <= 5 && n <= 2 && one >= 0 && (one == 0 || b == 5)
    requires n == 2 ==> two >= one && (two == one || b >= 4)
    ensures Meets(t, b, n, one, two) <==> PushHits(b, n, one, two)
  {
    SlotDistance(t, b, 1 + one);
    Residue(one, b + 1);
    SlotDistance(t, b, 2 + two);
    Residue(two, b + 2);
  }

  lemma MeetsPop(t: int, b: nat, n: nat, one: int, two: int)
    requires b <= 5 && n <= 2 && one >= 0 && (one == 0 || b == 5)
    requires n == 2 ==> two >= one && (two == one || b >= 4)
    ensures Meets(t, 0, n, one, two) <==> PopHits(b, n, one, two)
  {
    SlotDistance(t, 0, 1 + one);
    Residue(one, 1);
    SlotDistance(t, 0, 2 + two);
    Residue(two, 2);
  }

  lemma PushClobbersIff<T>(s: System<T>, f: T)
    requires Inv(s) && Enabled(s, PushFrame(f))
    ensures Owned(s, Target(s, PushFrame(f))) <==> PushClobbers(s)
  {
    OwnedSlots(s, Target(s, PushFrame(f)));
    OwnedAreLastPopped(s);
    MeetsPush(s.ring.tail, s.ring.Backlog(), |InFlight(s)|, Since(s, 1), Since(s, 2));
  }

  lemma PopClobbersIff<T>(s: System<T>, f: T, len: nat)
    requires Inv(s) && Enabled(s, PopProvide(f, len))
    ensures Owned(s, Target(s, PopProvide(f, len))) <==> PopClobbers(s)
  {
    OwnedSlots(s, Target(s, PopProvide(f, len)));
    OwnedAreLastPopped(s);
    MeetsPop(s.ring.tail, s.ring.Backlog(), |InFlight(s)|, Since(s, 1), Since(s, 2));
  }

  // ---------------------------------------------------------------- every interleaving

  function Exec<T>(blank: seq<T>, es: seq<Event<T>>): (r: Option<System<T>>)
    requires |blank| == OUTPUT_BUFFERS
    ensures r.Some? ==> OutputRing(r.value.ring)
  {
    if es == [] then Some(System(State(0, 0, blank), Dma.INITIAL, [], 0, []))
    else
      match Exec(blank, es[..|es| - 1])
      case None => None
      case Some(s) => if Enabled(s, es[|es| - 1]) then Some(Step(s, es[|es| - 1])) else None
  }

  lemma {:induction false} RunKeeps<T>(blank: seq<T>, es: seq<Event<T>>)
    requires |blank| == OUTPUT_BUFFERS && Exec(blank, es).Some?
    ensures Inv(Exec(blank, es).value)
  {
    if es != [] {
      RunKeeps(blank, es[..|es| - 1]);
      StepKeeps(Exec(blank, es[..|es| - 1]).value, es[|es| - 1]);
    }
  }

  /** Every slot the DMA has yet to finish still holds what was handed over. */
  ghost predicate Intact<T>(s: System<T>)
    requires Inv(s)
  {
    forall k :: |s.dma.completed| <= k < |s.provided| ==>
                  s.ring.slots[Position(s, k) % OUTPUT_BUFFERS] == s.provided[k]
  }

  /** The frames the DMA has yet to finish are the last ones handed over, and their slots are its. */
  lemma UnfinishedAreOwned<T>(s: System<T>, k: nat)
    requires Inv(s) && MainFree(s) && |s.dma.completed| <= k < |s.provided|
    ensures Owned(s, Position(s, k) % OUTPUT_BUFFERS)
  {
    OwnedAreLastPopped(s);
    assert InFlight(s)[k - |s.dma.completed|] in InFlight(s);
  }

  lemma PushKeepsIntact<T>(s: System<T>, f: T)
    requires Inv(s) && Intact(s) && Enabled(s, PushFrame(f)) && !PushClobbers(s)
    requires Inv(Step(s, PushFrame(f)))
    ensures Intact(Step(s, PushFrame(f)))
  {
    PushClobbersIff(s, f);
    forall k | |s.dma.completed| <= k < |s.provided|
      ensures Position(s, k) % OUTPUT_BUFFERS != s.ring.head % OUTPUT_BUFFERS
    {
      UnfinishedAreOwned(s, k);
    }
  }

  lemma PopKeepsIntact<T>(s: System<T>, f: T, len: nat)
    requires Inv(s) && Intact(s) && Enabled(s, PopProvide(f, len)) && !PopClobbers(s)
    requires Inv(Step(s, PopProvide(f, len)))
    ensures Intact(Step(s, PopProvide(f, len)))
  {
    PopClobbersIff(s, f, len);
    var s' := Step(s, PopProvide(f, len));
    forall k | |s.dma.completed| <= k < |s'.provided|
      ensures s'.ring.slots[Position(s', k) % OUTPUT_BUFFERS] == s'.provided[k]
    {
      if k < |s.provided| {
        UnfinishedAreOwned(s, k);
        assert Position(s', k) == Position(s, k);
      } else {
        assert Position(s', k) == s.ring.tail;
      }
    }
  }

  lemma SameSlots<T>(s: System<T>, s': System<T>)
    requires Inv(s) && Inv(s') && Intact(s)
    requires s'.ring.slots == s.ring.slots && s'.lost == s.lost && s'.provided == s.provided
    requires |s.dma.completed| <= |s'.dma.completed|
    ensures Intact(s')
  {
    forall k | |s'.dma.completed| <= k < |s.provided|
      ensures s'.ring.slots[Position(s', k) % OUTPUT_BUFFERS] == s'.provided[k]
    {
      assert Position(s', k) == Position(s, k);
    }
  }

  lemma AudioKeepsIntact<T>(s: System<T>, a: Dma.Event)
    requires Inv(s) && Intact(s) && Enabled(s, Audio(a)) && Inv(Step(s, Audio(a)))
    ensures Intact(Step(s, Audio(a)))
  {
    Dma.CompletedGrows(s.dma, a);
    SameSlots(s, Step(s, Audio(a)));
  }

  lemma StepKeepsIntact<T>(s: System<T>, e: Event<T>)
    requires Inv(s) && Intact(s) && Enabled(s, e) && !Clobbers(s, e)
    ensures Inv(Step(s, e)) && Intact(Step(s, e))
  {
    StepKeeps(s, e);
    match e {
      case PushFrame(f) => PushKeepsIntact(s, f);
      case PopProvide(f, len) => PopKeepsIntact(s, f, len);
      case Audio(a) => AudioKeepsIntact(s, a);
    }
  }

  lemma OwnedIsUnfinished<T>(s: System<T>, slot: nat) returns (k: nat)
    requires Inv(s) && MainFree(s) && Owned(s, slot)
    ensures |s.dma.completed| <= k < |s.provided| && Position(s, k) % OUTPUT_BUFFERS == slot
  {
    OwnedAreLastPopped(s);
    var b :| b in InFlight(s) && b.samples == Address(slot);
    var i :| 0 <= i < |InFlight(s)| && InFlight(s)[i] == b;
    k := |s.lost| - |InFlight(s)| + i;
    assert Address(Position(s, k) % OUTPUT_BUFFERS) == Address(slot);
  }

  /** A push that clobbers does damage, unless the frame happens to be the one being played. */
  lemma ClobberingPushDamages<T>(s: System<T>, f: T)
    requires Inv(s) && Intact(s) && Enabled(s, PushFrame(f)) && PushClobbers(s)
    ensures Inv(Step(s, PushFrame(f)))
    ensures Intact(Step(s, PushFrame(f))) <==> s.ring.slots[Target(s, PushFrame(f))] == f
  {
    StepKeeps(s, PushFrame(f));
    var s', slot := Step(s, PushFrame(f)), Target(s, PushFrame(f));
    assert Owned(s, slot) by {
      PushClobbersIff(s, f);
    }
    var k := OwnedIsUnfinished(s, slot);
    assert s.provided[k] == s.ring.slots[slot];
    if s.ring.slots[slot] == f {
      SameSlots(s, s');
    } else {
      assert s'.ring.slots[Position(s', k) % OUTPUT_BUFFERS] == f != s'.provided[k];
    }
  }

  /** No push and no pop of the run wrote a slot of the DMA. */
  predicate Safe<T>(blank: seq<T>, es: seq<Event<T>>)
    requires |blank| == OUTPUT_BUFFERS
  {
    es == [] ||
    var before := es[..|es| - 1];
    Safe(blank, before) &&
    (Exec(blank, before).Some? ==> !Clobbers(Exec(blank, before).value, es[|es| - 1]))
  }

  /** In such a run the DMA plays exactly what was handed over. */
  lemma {:induction false} PlayedIntact<T>(blank: seq<T>, es: seq<Event<T>>)
    requires |blank| == OUTPUT_BUFFERS && Exec(blank, es).Some? && Safe(blank, es)
    ensures Inv(Exec(blank, es).value) && Intact(Exec(blank, es).value)
  {
    if es != [] {
      var before := es[..|es| - 1];
      PlayedIntact(blank, before);
      StepKeepsIntact(Exec(blank, before).value, es[|es| - 1]);
    }
  }

  /** Whenever the run pushes a frame, at most one waits. */
  predicate Shallow<T>(blank: seq<T>, es: seq<Event<T>>)
    requires |blank| == OUTPUT_BUFFERS
  {
    es == [] ||
    var before := es[..|es| - 1];
    Shallow(blank, before) &&
    (es[|es| - 1].PushFrame? && Exec(blank, before).Some? ==> Exec(blank, before).value.ring.Backlog() <= 1)
  }

  /** That is enough, for the pops as well. */
  lemma {:induction false} ShallowPushesAreSafe<T>(blank: seq<T>, es: seq<Event<T>>)
    requires |blank| == OUTPUT_BUFFERS && Shallow(blank, es)
    ensures Safe(blank, es)
    ensures Exec(blank, es).Some? ==> Exec(blank, es).value.ring.Backlog() <= 2
  {
    if es != [] {
      ShallowPushesAreSafe(blank, es[..|es| - 1]);
    }
  }

  // ---------------------------------------------------------------- it does happen

  lemma Then<T>(blank: seq<T>, es: seq<Event<T>>, s: System<T>, e: Event<T>)
    returns (es': seq<Event<T>>, s': System<T>)
    requires |blank| == OUTPUT_BUFFERS && Exec(blank, es) == Some(s) && Safe(blank, es)
    requires OutputRing(s.ring) && Enabled(s, e) && !Clobbers(s, e)
    ensures OutputRing(s'.ring) && s' == Step(s, e) && Exec(blank, es') == Some(s') && Safe(blank, es')
  {
    es', s' := es + [e], Step(s, e);
    assert es'[..|es'| - 1] == es;
  }

  /** Steps of the main loop with no interrupt in between. */
  lemma AudioSteps<T>(blank: seq<T>, es: seq<Event<T>>, s: System<T>, n: nat)
    returns (es': seq<Event<T>>, s': System<T>)
    requires |blank| == OUTPUT_BUFFERS && Exec(blank, es) == Some(s) && Safe(blank, es)
    requires OutputRing(s.ring) && Dma.CanStep(s.dma, n)
    ensures OutputRing(s'.ring) && Exec(blank, es') == Some(s') && Safe(blank, es')
    ensures s' == s.(dma := Dma.Steps(s.dma, n))
    decreases n
  {
    if n == 0 {
      es', s' := es, s;
    } else {
      var es1, s1 := AudioSteps(blank, es, s, n - 1);
      es', s' := Then(blank, es1, s1, Audio(Dma.MainStep));
    }
  }

  /** Pop a frame and hand it over with no interrupt in between. */
  lemma PlayOne<T>(blank: seq<T>, es: seq<Event<T>>, s: System<T>, f: T)
    returns (es': seq<Event<T>>, s': System<T>)
    requires |blank| == OUTPUT_BUFFERS && Exec(blank, es) == Some(s) && Safe(blank, es)
    requires OutputRing(s.ring) && MainFree(s) && s.ring.head > s.ring.tail && s.dma.nextSamples == 0
    requires !PopClobbers(s)
    ensures OutputRing(s'.ring) && Exec(blank, es') == Some(s') && MainFree(s') && Safe(blank, es')
    ensures s'.ring.head == s.ring.head && s'.ring.tail == s.ring.tail + 1
    ensures s'.dropped == s.dropped && s'.lost == s.lost + [s.dropped]
    ensures var b := Dma.Buffer(Address(s.ring.tail % OUTPUT_BUFFERS), 1);
            s'.dma == Dma.HandedOver(s.dma.(main := Dma.AtTest(b)), b)
  {
    es', s' := Then(blank, es, s, PopProvide(f, 1));
    Dma.Uninterrupted(s'.dma);
    es', s' := AudioSteps(blank, es', s', if s'.dma.running then 6 else 8);
  }

  lemma PushOne<T>(blank: seq<T>, es: seq<Event<T>>, s: System<T>, f: T)
    returns (es': seq<Event<T>>, s': System<T>)
    requires |blank| == OUTPUT_BUFFERS && Exec(blank, es) == Some(s) && Safe(blank, es)
    requires OutputRing(s.ring) && MainFree(s) && s.ring.head + 1 < U32 && s.ring.tail <= s.ring.head
    requires !PushClobbers(s)
    ensures OutputRing(s'.ring) && Exec(blank, es') == Some(s') && MainFree(s') && Safe(blank, es')
    ensures var drop := if s.ring.head - s.ring.tail > OUTPUT_BUFFERS then 1 else 0;
            && s'.ring.head == s.ring.head + 1 && s'.ring.tail == s.ring.tail + drop
            && s'.dropped == s.dropped + drop && s'.lost == s.lost && s'.dma == s.dma
  {
    es', s' := Then(blank, es, s, PushFrame(f));
  }

  /** Two frames pushed and handed over one after the other: both are in flight. */
  lemma TwoInFlight<T>(blank: seq<T>, f: T) returns (es: seq<Event<T>>, s: System<T>)
    requires |blank| == OUTPUT_BUFFERS
    ensures OutputRing(s.ring) && Exec(blank, es) == Some(s) && Safe(blank, es)
    ensures MainFree(s) && s.ring.head == 2 && s.ring.tail == 2 && |InFlight(s)| == 2
  {
    es, s := [], Exec<T>(blank, []).value;
    es, s := PushOne(blank, es, s, f);
    es, s := PlayOne(blank, es, s, f);
    es, s := PushOne(blank, es, s, f);
    es, s := PlayOne(blank, es, s, f);
  }

  /** A decoding pass of three frames behind a busy DMA does overwrite what is being played. */
  lemma ThirdFrameClobbers<T>(blank: seq<T>, f: T) returns (es: seq<Event<T>>, s: System<T>)
    requires |blank| == OUTPUT_BUFFERS
    ensures OutputRing(s.ring) && Exec(blank, es) == Some(s) && Safe(blank, es)
    ensures Enabled(s, PushFrame(f)) && Owned(s, Target(s, PushFrame(f)))
  {
    es, s := TwoInFlight(blank, f);
    es, s := PushOne(blank, es, s, f);
    es, s := PushOne(blank, es, s, f);
    RunKeeps(blank, es);
    PushClobbersIff(s, f);
  }

  /** With the DMA idle any number of frames up to five can be pushed. */
  lemma {:induction false} PushedIdle<T>(blank: seq<T>, f: T, n: nat) returns (es: seq<Event<T>>, s: System<T>)
    requires |blank| == OUTPUT_BUFFERS && n <= 5
    ensures OutputRing(s.ring) && Exec(blank, es) == Some(s) && Safe(blank, es)
    ensures s.ring.head == n && s.ring.tail == 0 && s.dropped == 0 && s.lost == [] && s.dma == Dma.INITIAL
  {
    if n == 0 {
      es, s := [], Exec<T>(blank, []).value;
    } else {
      es, s := PushedIdle(blank, f, n - 1);
      assert InFlight(s) == [];
      es, s := PushOne(blank, es, s, f);
    }
  }

  /** Five frames, of which one is popped and playing. */
  lemma FourBehindOne<T>(blank: seq<T>, f: T) returns (es: seq<Event<T>>, s: System<T>)
    requires |blank| == OUTPUT_BUFFERS
    ensures OutputRing(s.ring) && Exec(blank, es) == Some(s) && Safe(blank, es)
    ensures MainFree(s) && s.ring.head == 5 && s.ring.tail == 1 && s.dropped == 0 && s.lost == [0]
    ensures s.dma.running && s.dma.nextSamples == 0 && s.dma.active.Some?
  {
    es, s := PushedIdle(blank, f, 5);
    assert InFlight(s) == [];
    es, s := PlayOne(blank, es, s, f);
  }

  lemma NoHitYet(b: nat, n: nat, one: int, two: int)
    requires b >= 4 && n <= 1 && 0 <= one < 2
    ensures !PushHits(b, n, one, two)
  {
  }

  /** One more frame behind the one that is playing. */
  lemma PushBehindOne<T>(blank: seq<T>, es: seq<Event<T>>, s: System<T>, f: T)
    returns (es': seq<Event<T>>, s': System<T>)
    requires |blank| == OUTPUT_BUFFERS && Exec(blank, es) == Some(s) && Safe(blank, es)
    requires OutputRing(s.ring) && MainFree(s) && s.ring.head < 8 && s.dma.nextSamples == 0
    requires s.ring.tail + 4 <= s.ring.head && s.lost == [0] && s.dropped < 2
    ensures OutputRing(s'.ring) && Exec(blank, es') == Some(s') && MainFree(s') && Safe(blank, es')
    ensures var drop := if s.ring.head - s.ring.tail > OUTPUT_BUFFERS then 1 else 0;
            && s'.ring.head == s.ring.head + 1 && s'.ring.tail == s.ring.tail + drop
            && s'.dropped == s.dropped + drop && s'.lost == s.lost && s'.dma == s.dma
  {
    assert !PushClobbers(s) by {
      assert Since(s, 1) == s.dropped && |InFlight(s)| <= 1;
      NoHitYet(s.ring.Backlog(), |InFlight(s)|, Since(s, 1), Since(s, 2));
    }
    es', s' := PushOne(blank, es, s, f);
  }

  /** Three more frames drop two of those waiting. */
  lemma TwoDropped<T>(blank: seq<T>, f: T) returns (es: seq<Event<T>>, s: System<T>)
    requires |blank| == OUTPUT_BUFFERS
    ensures OutputRing(s.ring) && Exec(blank, es) == Some(s) && Safe(blank, es)
    ensures MainFree(s) && s.ring.head == 8 && s.ring.tail == 3 && s.dropped == 2 && s.lost == [0]
    ensures s.dma.running && s.dma.nextSamples == 0 && s.dma.active.Some?
  {
    es, s := FourBehindOne(blank, f);
    es, s := PushBehindOne(blank, es, s, f);
    es, s := PushBehindOne(blank, es, s, f);
    es, s := PushBehindOne(blank, es, s, f);
  }

  /** Then one more push is the first to overwrite the frame being played ... */
  lemma DroppingPushClobbers<T>(blank: seq<T>, f: T) returns (es: seq<Event<T>>, s: System<T>)
    requires |blank| == OUTPUT_BUFFERS
    ensures OutputRing(s.ring) && Exec(blank, es) == Some(s) && Safe(blank, es)
    ensures s.ring.Backlog() == 5 && Enabled(s, PushFrame(f)) && Owned(s, Target(s, PushFrame(f)))
  {
    es, s := TwoDropped(blank, f);
    RunKeeps(blank, es);
    PushClobbersIff(s, f);
  }

  /** ... and of two pops in its place the second scales the frame being played once more. */
  lemma PopAfterDropsClobbers<T>(blank: seq<T>, f: T) returns (es: seq<Event<T>>, s: System<T>)
    requires |blank| == OUTPUT_BUFFERS
    ensures OutputRing(s.ring) && Exec(blank, es) == Some(s) && Safe(blank, es)
    ensures Enabled(s, PopProvide(f, 1)) && Owned(s, Target(s, PopProvide(f, 1)))
  {
    es, s := TwoDropped(blank, f);
    es, s := PlayOne(blank, es, s, f);
    RunKeeps(blank, es);
    PopClobbersIff(s, f, 1);
  }
}
