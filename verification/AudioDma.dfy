/** The double-buffered audio output of libs/Audio/Audio.c.

    Two parties share four static variables: the main loop, which hands over buffers, and the
    transfer-complete interrupt handler, which starts the buffer that was queued.  The model is a
    state machine at the grain of one shared access per step.  The interrupt handler may start
    between any two steps of the main loop while the interrupt is enabled, and the transfer may
    complete at any time it is active. */
module AudioDma {
  import opened Wrappers

  /** An address (zero is the null pointer) and a transfer count. */
  datatype Buffer = Buffer(samples: nat, length: nat)

  /** Where the main loop stands in `ProvideAudioBuffer`. */
  datatype Main =
    | Ready
    | AtTest(b: Buffer)     // about to read NextBufferSamples
    | AtWfi(b: Buffer)      // found it set, about to wait for an interrupt
    | Asleep(b: Buffer)
    | AtDisable(b: Buffer)  // found it clear, about to disable the interrupt
    | AtSamples(b: Buffer)
    | AtLength(b: Buffer)
    | AtRunning(b: Buffer)  // about to read DMARunning
    | AtProgram(b: Buffer)  // about to program and enable the stream
    | AtCommit(b: Buffer)   // about to update the shared variables
    | AtEnable(b: Buffer)

  datatype Handler = Out | Entered | Programmed

  datatype State = State(
    // shared variables
    nextSamples: nat, nextLength: nat, bufferNumber: nat, running: bool,
    // interrupt controller and DMA stream
    irqEnabled: bool, pending: bool, active: Option<Buffer>,
    // program points
    main: Main, handler: Handler,
    // history
    accepted: seq<Buffer>, programmed: seq<Buffer>, completed: seq<Buffer>, served: nat)

  /** The state `InitializeAudio` and `PlayAudioWithCallback` leave. */
  const INITIAL := State(0, 0, 0, false, true, false, None, Ready, Out, [], [], [], 0)

  datatype Event =
    | Call(b: Buffer)    // the main loop enters ProvideAudioBuffer
    | MainStep
    | Complete           // the stream transfers its last sample
    | Interrupt          // the handler is entered
    | HandlerStep
    | OtherInterrupt     // any other interrupt ends the wait

  predicate Enabled(s: State, e: Event) {
    match e
    case Call(b) => s.main.Ready? && s.handler.Out? && b.samples != 0
    case MainStep => s.handler.Out? && !s.main.Ready? && !s.main.Asleep?
    case Complete => s.active.Some?
    case Interrupt => s.pending && s.irqEnabled && s.handler.Out?
    case HandlerStep => !s.handler.Out?
    case OtherInterrupt => s.main.Asleep? && s.handler.Out?
  }

  /** The register writes of `StartAudioDMAAndRequestBuffers`. */
  function Program(s: State): State {
    var b := Buffer(s.nextSamples, s.nextLength);
    s.(active := Some(b), programmed := s.programmed + [b])
  }

  /** Its updates of the shared variables; the callback only toggles a LED. */
  function Commit(s: State): State {
    s.(nextSamples := 0, bufferNumber := 1 - s.bufferNumber % 2, running := true)
  }

  function Leave(s: State): State {
    s.(handler := Out, served := s.served + 1,
       main := if s.main.Asleep? then AtTest(s.main.b) else s.main)
  }

  function DoMain(s: State): State {
    match s.main
    case Ready => s
    case Asleep(b) => s
    case AtTest(b) => if s.nextSamples != 0 then s.(main := AtWfi(b), served := 0)
                      else s.(main := AtDisable(b))
    case AtWfi(b) => s.(main := Asleep(b))
    case AtDisable(b) => s.(main := AtSamples(b), irqEnabled := false)
    case AtSamples(b) => s.(main := AtLength(b), nextSamples := b.samples)
    case AtLength(b) => s.(main := AtRunning(b), nextLength := b.length, accepted := s.accepted + [b])
    case AtRunning(b) => s.(main := if s.running then AtEnable(b) else AtProgram(b))
    case AtProgram(b) => Program(s).(main := AtCommit(b))
    case AtCommit(b) => Commit(s).(main := AtEnable(b))
    case AtEnable(b) => s.(main := Ready, irqEnabled := true)
  }

  function DoHandler(s: State): State {
    match s.handler
    case Out => s
    case Entered => if s.nextSamples != 0 then Program(s).(handler := Programmed)
                    else Leave(s.(running := false))
    case Programmed => Leave(Commit(s))
  }

  function Step(s: State, e: Event): State
    requires Enabled(s, e)
  {
    match e
    case Call(b) => s.(main := AtTest(b))
    case MainStep => DoMain(s)
    case Complete => s.(active := None, pending := true, completed := s.completed + [s.active.value])
    case Interrupt => s.(handler := Entered, pending := false)
    case HandlerStep => DoHandler(s)
    case OtherInterrupt => s.(main := AtTest(s.main.b))
  }

  // ---------------------------------------------------------------- what every step keeps

  predicate Open(m: Main) {
    m.Ready? || m.AtTest? || m.AtWfi? || m.Asleep? || m.AtDisable?
  }

  /** The buffer handed over but not yet given to the stream. */
  function Queued(s: State): seq<Buffer> {
    if s.nextSamples == 0 || s.main.AtLength? || s.main.AtCommit? || s.handler.Programmed? then []
    else [Buffer(s.nextSamples, s.nextLength)]
  }

  function Active(s: State): seq<Buffer> {
    if s.active.Some? then [s.active.value] else []
  }

  predicate Busy(s: State) {
    s.active.Some? || s.pending || s.handler.Entered?
  }

  /** DMARunning mirrors the stream, and the interrupt is masked exactly inside the section. */
  predicate Control(s: State) {
    && (s.irqEnabled <==> Open(s.main))
    && (!s.handler.Out? ==> s.irqEnabled)
    && !(s.active.Some? && s.pending)
    && (s.handler.Entered? ==> s.active.None? && !s.pending)
    && (s.handler.Programmed? ==> Busy(s) && s.nextSamples != 0)
    && (if s.main.AtCommit? then !s.running && Busy(s) else s.running <==> Busy(s))
  }

  /** What the hand-over variables hold at each point of the main loop. */
  predicate HandOver(s: State) {
    && (!s.main.Ready? ==> s.main.b.samples != 0)
    && (s.main.AtDisable? || s.main.AtSamples? ==> s.nextSamples == 0)
    && (s.main.AtLength? ==> s.nextSamples == s.main.b.samples)
    && (s.main.AtRunning? || s.main.AtProgram? || s.main.AtCommit? ==>
          Buffer(s.nextSamples, s.nextLength) == s.main.b)
    && (s.main.AtProgram? ==> !s.running)
    && (s.main.AtEnable? ==> s.running)
    && (Open(s.main) && s.nextSamples != 0 ==> s.running)
  }

  predicate Conserved(s: State) {
    && s.programmed + Queued(s) == s.accepted
    && s.completed + Active(s) == s.programmed
    && s.bufferNumber ==
       (|s.programmed| + (if s.main.AtCommit? || s.handler.Programmed? then 1 else 0)) % 2
  }

  /** How many times the handler has run since the test that sent the main loop to wait. */
  predicate Waiting(s: State) {
    s.main.AtWfi? || s.main.Asleep? ==>
      && (s.served == 0 ==> s.nextSamples != 0)
      && (s.served == 1 ==> s.nextSamples == 0 && s.running && !s.handler.Programmed?)
      && (s.served >= 2 ==> s.nextSamples == 0 && !s.running)
  }

  predicate Inv(s: State) {
    Control(s) && HandOver(s) && Conserved(s) && Waiting(s)
  }

  lemma MainStepKeeps(s: State)
    requires Inv(s) && Enabled(s, MainStep)
    ensures Inv(DoMain(s))
  {
    assert s.completed + Active(s) + [s.main.b] == s.completed + (Active(s) + [s.main.b]);
  }

  lemma HandlerStepKeeps(s: State)
    requires Inv(s) && Enabled(s, HandlerStep)
    ensures Inv(DoHandler(s))
  {
  }

  lemma StepKeeps(s: State, e: Event)
    requires Inv(s) && Enabled(s, e)
    ensures Inv(Step(s, e))
  {
    match e {
      case MainStep => MainStepKeeps(s);
      case HandlerStep => HandlerStepKeeps(s);
      case _ =>
    }
  }

  // ---------------------------------------------------------------- every interleaving

  /** The state after a run from initialisation; `None` if some event could not happen. */
  function Exec(es: seq<Event>): Option<State> {
    if es == [] then Some(INITIAL)
    else
      match Exec(es[..|es| - 1])
      case None => None
      case Some(s) => if Enabled(s, es[|es| - 1]) then Some(Step(s, es[|es| - 1])) else None
  }

  lemma {:induction false} RunKeeps(es: seq<Event>)
    requires Exec(es).Some?
    ensures Inv(Exec(es).value)
  {
    if es != [] {
      RunKeeps(es[..|es| - 1]);
      StepKeeps(Exec(es[..|es| - 1]).value, es[|es| - 1]);
    }
  }

  function Calls(es: seq<Event>): seq<Buffer> {
    if es == [] then []
    else Calls(es[..|es| - 1]) + (if es[|es| - 1].Call? then [es[|es| - 1].b] else [])
  }

  /** The buffer of a call still on its way to being accepted. */
  function Offered(s: State): seq<Buffer> {
    if s.main.AtTest? || s.main.AtWfi? || s.main.Asleep? || s.main.AtDisable? || s.main.AtSamples?
       || s.main.AtLength?
    then [s.main.b] else []
  }

  lemma CompletedGrows(s: State, e: Event)
    requires Enabled(s, e)
    ensures s.completed <= Step(s, e).completed
  {
  }

  /** Only a call adds to the buffers accepted or on offer. */
  lemma StepKeepsCalls(s: State, e: Event)
    requires Inv(s) && Enabled(s, e)
    ensures var s' := Step(s, e);
            s'.accepted + Offered(s') == s.accepted + Offered(s) + (if e.Call? then [e.b] else [])
  {
  }

  lemma {:induction false} CallsAreAccepted(es: seq<Event>)
    requires Exec(es).Some?
    ensures Exec(es).value.accepted + Offered(Exec(es).value) == Calls(es)
  {
    if es != [] {
      var before := es[..|es| - 1];
      CallsAreAccepted(before);
      RunKeeps(before);
      StepKeepsCalls(Exec(before).value, es[|es| - 1]);
    }
  }

  /** Over every interleaving each buffer offered is programmed into the stream exactly once, in
      the order offered: completed, active, queued and still offered make up all the calls, with
      at most one active and one queued.  Outside the masked section a queued buffer implies that
      DMARunning is set and that the interrupt which will start it is on its way. */
  lemma ExactlyOnceInOrder(es: seq<Event>)
    requires Exec(es).Some?
    ensures var s := Exec(es).value;
            && s.completed + Active(s) + Queued(s) + Offered(s) == Calls(es)
            && s.programmed == s.completed + Active(s)
            && |Active(s)| <= 1 && |Queued(s)| <= 1
            && (Open(s.main) && Queued(s) != [] ==> s.running && Busy(s))
  {
    RunKeeps(es);
    CallsAreAccepted(es);
  }

  // ---------------------------------------------------------------- waiting for an interrupt

  /** A sleeping main loop has a transfer-complete interrupt coming exactly when DMARunning is set,
      that is, when the handler ran less than twice between the failed test and now.  Otherwise
      nothing but an unrelated interrupt can happen. */
  lemma WakeUpComingIff(es: seq<Event>)
    requires Exec(es).Some? && Exec(es).value.main.Asleep? && Exec(es).value.handler.Out?
    ensures var s := Exec(es).value;
            && (Enabled(s, Complete) || Enabled(s, Interrupt) <==> s.running)
            && (!s.running <==> forall e :: Enabled(s, e) ==> e.OtherInterrupt?)
            && (s.running <==> s.served < 2)
  {
    RunKeeps(es);
    var s := Exec(es).value;
    if s.running {
      assert Enabled(s, Complete) || Enabled(s, Interrupt);
    }
  }

  lemma Then(es: seq<Event>, s: State, e: Event) returns (es': seq<Event>, s': State)
    requires Exec(es) == Some(s) && Enabled(s, e)
    ensures es' == es + [e] && s' == Step(s, e) && Exec(es') == Some(s')
  {
    es', s' := es + [e], Step(s, e);
    assert es'[..|es'| - 1] == es;
  }

  /** `n` steps of the main loop with no interrupt in between. */
  function Steps(s: State, n: nat): State {
    if n == 0 then s else DoMain(Steps(s, n - 1))
  }

  predicate CanStep(s: State, n: nat) {
    n != 0 ==> CanStep(s, n - 1) && Enabled(Steps(s, n - 1), MainStep)
  }

  lemma {:induction false} MainSteps(es: seq<Event>, s: State, n: nat)
    returns (es': seq<Event>, s': State)
    requires Exec(es) == Some(s) && CanStep(s, n)
    ensures s' == Steps(s, n) && Exec(es') == Some(s')
  {
    if n == 0 {
      es', s' := es, s;
    } else {
      var es1, s1 := MainSteps(es, s, n - 1);
      es', s' := Then(es1, s1, MainStep);
    }
  }

  /** A call that is not interrupted queues its buffer behind a running stream, or starts it. */
  function HandedOver(s: State, b: Buffer): State {
    var t := s.(main := Ready, irqEnabled := true, nextLength := b.length,
                accepted := s.accepted + [b]);
    if s.running then t.(nextSamples := b.samples)
    else t.(nextSamples := 0, bufferNumber := 1 - s.bufferNumber % 2, running := true,
            active := Some(b), programmed := s.programmed + [b])
  }

  /** The state with the new buffer stored and the interrupt masked. */
  function Stored(s: State, b: Buffer): State {
    s.(main := AtRunning(b), irqEnabled := false, nextSamples := b.samples, nextLength := b.length,
       accepted := s.accepted + [b])
  }

  lemma Advance(s: State, n: nat, t: State) returns (t': State)
    requires CanStep(s, n) && t == Steps(s, n) && Enabled(t, MainStep)
    ensures CanStep(s, n + 1) && t' == Steps(s, n + 1) && t' == DoMain(t)
  {
    t' := DoMain(t);
  }

  lemma StoreSteps(s: State)
    requires s.main.AtTest? && s.handler.Out? && s.nextSamples == 0
    ensures CanStep(s, 4) && Steps(s, 4) == Stored(s, s.main.b)
  {
    var t := Advance(s, 0, s);
    t := Advance(s, 1, t);
    t := Advance(s, 2, t);
    t := Advance(s, 3, t);
  }

  /** From there a running stream needs two more steps. */
  lemma QueueSteps(s: State, t: State)
    requires CanStep(s, 4) && t == Steps(s, 4) && t.main.AtRunning? && t.handler.Out? && t.running
    ensures CanStep(s, 6) && Steps(s, 6) == t.(main := Ready, irqEnabled := true)
  {
    var u := Advance(s, 4, t);
    u := Advance(s, 5, u);
  }

  /** An idle one needs four. */
  lemma StartSteps(s: State, t: State)
    requires CanStep(s, 4) && t == Steps(s, 4) && t.main.AtRunning? && t.handler.Out? && !t.running
    ensures CanStep(s, 8) && Steps(s, 8) == Commit(Program(t)).(main := Ready, irqEnabled := true)
  {
    var u := Advance(s, 4, t);
    u := Advance(s, 5, u);
    u := Advance(s, 6, u);
    u := Advance(s, 7, u);
  }

  lemma Uninterrupted(s: State)
    requires s.main.AtTest? && s.handler.Out? && s.nextSamples == 0
    ensures var n := if s.running then 6 else 8;
            CanStep(s, n) && Steps(s, n) == HandedOver(s, s.main.b)
  {
    StoreSteps(s);
    if s.running {
      QueueSteps(s, Stored(s, s.main.b));
    } else {
      StartSteps(s, Stored(s, s.main.b));
    }
  }

  /** A call that sleeps with the stream running, or has been woken and will pass its test. */
  predicate WillPass(s: State) {
    || (s.main.Asleep? && s.running)
    || (s.main.AtTest? && s.nextSamples == 0 && !s.handler.Programmed?)
  }

  /** How many events can happen before the main loop has passed its test. */
  function Rank(s: State): nat {
    var coming := if s.active.Some? then 3 else if s.pending then 2 else if s.handler.Entered? then 1 else 0;
    if s.handler.Programmed? then coming + 2
    else if s.nextSamples != 0 then coming + 5
    else coming + 1
  }

  /** Every event but an unrelated interrupt brings the main loop nearer to passing its test, and
      there always is one. */
  lemma WaitAdvances(s: State, e: Event)
    requires Inv(s) && WillPass(s)
    ensures Rank(s) <= 8
    ensures Enabled(s, Complete) || Enabled(s, Interrupt) || Enabled(s, HandlerStep) || Enabled(s, MainStep)
    ensures Enabled(s, e) && !e.OtherInterrupt? ==>
              var s' := Step(s, e);
              s'.main == AtDisable(s.main.b) || (WillPass(s') && s'.main.b == s.main.b && Rank(s') < Rank(s))
  {
  }

  /** Along these events the main loop passes its test. */
  predicate Passes(s: State, es: seq<Event>, b: Buffer)
    decreases |es|
  {
    s.main == AtDisable(b) || (es != [] && Enabled(s, es[0]) && Passes(Step(s, es[0]), es[1..], b))
  }

  /** These events can happen one after the other, and none is an unrelated interrupt. */
  predicate Follows(s: State, es: seq<Event>)
    decreases |es|
  {
    es == [] || (Enabled(s, es[0]) && !es[0].OtherInterrupt? && Follows(Step(s, es[0]), es[1..]))
  }

  /** While the stream runs, the wait ends whatever happens: every continuation of eight events
      without an unrelated interrupt takes the main loop past its test. */
  lemma {:induction false} WaitAlwaysEnds(s: State, es: seq<Event>)
    requires Inv(s) && WillPass(s) && Follows(s, es) && |es| >= Rank(s)
    ensures Rank(s) <= 8 && Passes(s, es, s.main.b)
    decreases |es|
  {
    WaitAdvances(s, es[0]);
    var s' := Step(s, es[0]);
    if s'.main != AtDisable(s.main.b) {
      StepKeeps(s, es[0]);
      WaitAlwaysEnds(s', es[1..]);
    }
  }

  /** Such a continuation exists from every state on the way. */
  lemma {:induction false} GoOn(es: seq<Event>, s: State) returns (es': seq<Event>)
    requires Exec(es) == Some(s) && Inv(s) && WillPass(s)
    ensures es <= es' && forall k :: |es| <= k < |es'| ==> !es'[k].OtherInterrupt?
    ensures Exec(es').Some? && Exec(es').value.main == AtDisable(s.main.b)
    decreases Rank(s)
  {
    var e := if Enabled(s, Complete) then Complete else if Enabled(s, Interrupt) then Interrupt
             else if Enabled(s, HandlerStep) then HandlerStep else MainStep;
    WaitAdvances(s, e);
    var es1, s1 := Then(es, s, e);
    if s1.main == AtDisable(s.main.b) {
      es' := es1;
    } else {
      StepKeeps(s, e);
      es' := GoOn(es1, s1);
    }
  }

  /** While the wake-up is coming, it suffices: some continuation with no unrelated interrupt lets
      the waiting call pass its test. */
  lemma WaitEnds(es: seq<Event>) returns (es': seq<Event>)
    requires Exec(es).Some? && Exec(es).value.main.Asleep? && Exec(es).value.handler.Out?
    requires Exec(es).value.served < 2
    ensures es <= es' && forall k :: |es| <= k < |es'| ==> !es'[k].OtherInterrupt?
    ensures Exec(es').Some? && Exec(es').value.main == AtDisable(Exec(es).value.main.b)
  {
    RunKeeps(es);
    es' := GoOn(es, Exec(es).value);
  }

  /** An unrelated interrupt always ends the sleep, and a stranded call then passes its test. */
  lemma UnrelatedWakes(s: State)
    requires Inv(s) && s.main.Asleep? && s.handler.Out?
    ensures Enabled(s, OtherInterrupt)
    ensures var s' := Step(s, OtherInterrupt);
            && s'.main == AtTest(s.main.b) && Enabled(s', MainStep)
            && (!s.running ==> Step(s', MainStep).main == AtDisable(s.main.b))
  {
  }

  /** A first buffer is playing and a second one queued. */
  lemma BothBusy(b: Buffer) returns (es: seq<Event>, s: State)
    requires b.samples != 0
    ensures Exec(es) == Some(s) && s.main.Ready? && s.handler.Out? && s.irqEnabled && !s.pending
    ensures s.running && s.active.Some? && s.nextSamples == b.samples
  {
    es, s := [], INITIAL;
    es, s := Then(es, s, Call(b));
    Uninterrupted(s);
    es, s := MainSteps(es, s, 8);
    es, s := Then(es, s, Call(b));
    Uninterrupted(s);
    es, s := MainSteps(es, s, 6);
  }

  /** The other case happens: both buffers finish between the test and the wait. */
  lemma SleepCanBeStranded() returns (es: seq<Event>)
    ensures Exec(es).Some? && Exec(es).value.main.Asleep? && Exec(es).value.handler.Out?
    ensures Exec(es).value.served == 2
  {
    var b, s := Buffer(1, 1), INITIAL;
    es, s := BothBusy(b);
    es, s := Then(es, s, Call(b));
    es, s := Then(es, s, MainStep);
    es, s := Then(es, s, Complete);
    es, s := Then(es, s, Interrupt);
    es, s := Then(es, s, HandlerStep);
    es, s := Then(es, s, HandlerStep);
    es, s := Then(es, s, Complete);
    es, s := Then(es, s, Interrupt);
    es, s := Then(es, s, HandlerStep);
    es, s := Then(es, s, MainStep);
  }
}
