/** The player's life cycle: `pl_play`, `pl_stop` and `pl_poll` (common/player.c) over the file
    layer (common/fs.c), the decoder state (common/libmad.c), the network state, the sound loop
    (linux/sound.c) and the fill level of the two rings (common/iobuffer.c).

    A run is any sequence of these operations, so it covers the order of `frame` on both platforms
    and the answers that the STM32 network client gets in between.  The sound loop is that of
    Linux. */
module Player {
  import opened Wrappers
  import opened Ring
  import opened DecodeGate
  import opened Files
  import Headers = Riff

  const BUFFERS: nat := 4

  datatype PlState = Stopped | Playing | Buffering
  datatype Source = NoSource | NetSource | FileSource
  datatype MadState = MadUnknown | MadInit | MadDone | MadError
  datatype NetState = NetClosed | NetPending | NetOpen | NetError
  datatype SndState = SndInit | SndPlaying | SndPause | SndError
  datatype MadCall = CallInit | CallDone

  /** A ring seen only through its counters. */
  type Level = State<()>

  const EMPTY: Level := State(0, 0, [(), (), (), ()])

  datatype Sys = Sys(
    pl: PlState, source: Source, fs: Fs, net: NetState, snd: SndState, mad: MadState,
    input: Level, output: Level,
    calls: seq<MadCall>)

  /** After `init`; the sound device may have failed to open. */
  function Start(snd: SndState): Sys {
    Sys(Stopped, NoSource, CLOSED, NetClosed, snd, MadUnknown, EMPTY, EMPTY, [])
  }

  predicate Active(pl: PlState) {
    pl == Playing || pl == Buffering
  }

  predicate Shapes(s: Sys) {
    && Shape(s.fs)
    && s.input.Valid() && |s.input.slots| == BUFFERS
    && OutputRing(s.output)
  }

  // ---------------------------------------------------------------- operations

  function PlStop(s: Sys): (r: Sys)
    requires Shapes(s)
    ensures Shapes(r)
  {
    if Active(s.pl) then
      s.(fs := FsStop(s.fs), net := NetClosed, mad := MadDone, calls := s.calls + [CallDone], pl := Stopped)
    else s
  }

  /** What is to be played: a stream with the outcome of `net_open`, or a file name. */
  datatype What = Stream(net: NetState) | FileName(name: Name)

  /** The first half of `pl_play`: whatever played is stopped, the rings and the decoder are set
      up anew. */
  function Prepare(s: Sys): (r: Sys)
    requires Shapes(s)
    ensures Shapes(r)
  {
    var p := PlStop(s);
    p.(input := EMPTY, output := EMPTY, mad := MadInit, calls := p.calls + [CallInit])
  }

  function PlPlay(s: Sys, what: What): (r: Sys)
    requires Shapes(s)
    ensures Shapes(r)
  {
    var p := Prepare(s);
    match what
    case Stream(net) => p.(source := NetSource, net := net, pl := Buffering)
    case FileName(name) =>
      var q := p.(source := FileSource, fs := FsPlay(p.fs, name));
      match q.fs.kind
      case Riff => q.(pl := Playing)
      case Mp3 => q.(pl := Buffering)
      case Unknown => PlStop(q)
      case Missing => PlStop(q)
  }

  function Resume(s: Sys): (r: Sys)
    requires Shapes(s)
    ensures Shapes(r)
  {
    if s.pl == Buffering && s.input.Free() == 0 then s.(pl := Playing) else s
  }

  predicate Failed(s: Sys) {
    s.net == NetError || s.snd == SndError || s.mad == MadError
  }

  /** The source has nothing more to give. */
  predicate Ended(s: Sys) {
    (s.source == FileSource && s.fs.state == Closed) || (s.source == NetSource && s.net == NetClosed)
  }

  function Starve(s: Sys): (r: Sys)
    requires Shapes(s)
    ensures Shapes(r)
  {
    if s.pl == Playing && s.input.Used() == 0 && s.output.Used() == 0 then s.(pl := Buffering) else s
  }

  /** `pl_poll`; the states of the other modules are read once, at its start. */
  function PlPoll(s: Sys): (r: Sys)
    requires Shapes(s)
    ensures Shapes(r)
  {
    if !Active(s.pl) then s
    else if Failed(s) || Ended(s) then PlStop(Resume(s))
    else Starve(Resume(s))
  }

  /** `fs_poll`, where reading the file yields data or the end of the file. */
  function FsPoll(s: Sys, data: bool): (r: Sys)
    requires Shapes(s)
    ensures Shapes(r)
  {
    if s.fs.handle == -1 then s
    else if s.fs.kind == Riff && s.output.Free() != 0 then
      s.(output := Push(s.output, ()), fs := if data then s.fs else FsStop(s.fs))
    else if s.fs.kind == Mp3 && s.input.Free() != 0 then
      s.(input := Push(s.input, ()), fs := if data then s.fs else FsStop(s.fs))
    else s
  }

  /** `net_poll`: a packet may arrive, and the connection may fail. */
  function NetPoll(s: Sys, packet: bool, failure: bool): (r: Sys)
    requires Shapes(s)
    ensures Shapes(r)
  {
    if s.net != NetOpen || s.input.Free() < 1 then s
    else
      s.(input := if packet then Push(s.input, ()) else s.input, net := if failure then NetError else NetOpen)
  }

  /** The answer that turns a pending connection of the STM32 client into an open or a failed one. */
  function NetAnswer(s: Sys, ok: bool): (r: Sys)
    requires Shapes(s)
    ensures Shapes(r)
  {
    if s.net == NetPending then s.(net := if ok then NetOpen else NetError) else s
  }

  /** `libmad_loop`, in which the decoder yields some frames and may end in error. */
  function MadLoop(s: Sys, frames: seq<()>, failure: bool): (r: Sys)
    requires Shapes(s)
    ensures Shapes(r)
  {
    if s.mad != MadInit || s.pl == Buffering || s.input.Used() == 0 || !GateOpen(s.output) then s
    else
      s.(input := Pop(s.input).0, output := PushAll(s.output, frames),
         mad := if failure then MadError else MadInit)
  }

  /** What becomes of one popped output buffer. */
  datatype Fate = Fine | Bogus | Failure

  function Written(snd: SndState, f: Fate): SndState {
    match f
    case Fine => SndPlaying
    case Bogus => if snd == SndPlaying then SndPause else snd
    case Failure => SndError
  }

  /** `host_snd_loop` on Linux. */
  function SndLoop(s: Sys, fates: seq<Fate>): (r: Sys)
    requires Shapes(s)
    ensures Shapes(r) && r == s.(snd := r.snd, output := r.output) && r.output.head == s.output.head
    decreases s.output.Backlog()
  {
    if s.snd == SndError then s
    else if s.output.Used() == 0 then s.(snd := if s.snd == SndPlaying then SndPause else s.snd)
    else if s.pl != Playing then s
    else
      var (output, got) := Pop(s.output);
      if got.None? then s.(snd := SndError)
      else
        var t := s.(output := output, snd := Written(s.snd, if fates == [] then Fine else fates[0]));
        if output.Used() == 0 then t else SndLoop(t, if fates == [] then [] else fates[1..])
  }

  datatype Op =
    | Play(what: What) | Stop | Poll
    | FilePoll(data: bool) | NetworkPoll(packet: bool, failure: bool) | NetworkAnswer(ok: bool)
    | Decode(frames: seq<()>, failure: bool) | Sound(fates: seq<Fate>)

  function Step(s: Sys, op: Op): (r: Sys)
    requires Shapes(s)
    ensures Shapes(r)
  {
    match op
    case Play(what) => PlPlay(s, what)
    case Stop => PlStop(s)
    case Poll => PlPoll(s)
    case FilePoll(data) => FsPoll(s, data)
    case NetworkPoll(packet, failure) => NetPoll(s, packet, failure)
    case NetworkAnswer(ok) => NetAnswer(s, ok)
    case Decode(frames, failure) => MadLoop(s, frames, failure)
    case Sound(fates) => SndLoop(s, fates)
  }

  function Run(snd: SndState, ops: seq<Op>): (r: Sys)
    ensures Shapes(r)
  {
    if ops == [] then Start(snd) else Step(Run(snd, ops[..|ops| - 1]), ops[|ops| - 1])
  }

  // ---------------------------------------------------------------- the joint invariant

  /** `libmad_done` is never called twice without `libmad_init` in between, nor before it. */
  predicate Bracketed(calls: seq<MadCall>) {
    forall k :: 0 <= k < |calls| && calls[k] == CallDone ==> k > 0 && calls[k - 1] == CallInit
  }

  /** The file and the connection being played belong to an active player with that source. */
  predicate Sources(s: Sys) {
    && (s.fs.handle != -1 ==> Active(s.pl) && s.source == FileSource)
    && (s.net != NetClosed ==> Active(s.pl) && s.source == NetSource)
  }

  predicate DecoderOpen(s: Sys) {
    s.mad == MadInit || s.mad == MadError
  }

  /** An active player has an initialised decoder, and the decoder's state tells the last call. */
  predicate DecoderReady(s: Sys) {
    && (Active(s.pl) ==> DecoderOpen(s))
    && Bracketed(s.calls)
    && (DecoderOpen(s) <==> s.calls != [] && s.calls[|s.calls| - 1] == CallInit)
  }

  /** Guarded producers never over-fill a ring. */
  predicate Levels(s: Sys)
    requires Shapes(s)
  {
    s.input.Backlog() <= BUFFERS && (s.pl == Buffering ==> s.output.Backlog() <= BUFFERS)
  }

  predicate Inv(s: Sys) {
    Shapes(s) && FsInv(s.fs) && Sources(s) && DecoderReady(s) && Levels(s)
  }

  lemma StopKeepsInv(s: Sys)
    requires Inv(s)
    ensures Inv(PlStop(s)) && !Active(PlStop(s).pl) && PlStop(s).fs.handle == -1
    ensures PlStop(s).fs.leaked == s.fs.leaked && PlStop(s).net == NetClosed
  {
    StopKeeps(s.fs);
  }

  lemma PrepareKeepsInv(s: Sys)
    requires Inv(s)
    ensures Inv(Prepare(s)) && !Active(Prepare(s).pl) && Prepare(s).mad == MadInit
    ensures Prepare(s).fs.handle == -1 && Prepare(s).net == NetClosed
    ensures Prepare(s).fs.leaked == s.fs.leaked && Prepare(s).fs.kind == s.fs.kind
  {
    StopKeepsInv(s);
    StopKeeps(s.fs);
  }

  lemma PlayKeepsInv(s: Sys, what: What)
    requires Inv(s)
    ensures Inv(PlPlay(s, what)) && s.fs.leaked <= PlPlay(s, what).fs.leaked
  {
    PrepareKeepsInv(s);
    if what.FileName? {
      PlayKeeps(Prepare(s).fs, what.name);
    }
  }

  lemma ResumeKeepsInv(s: Sys)
    requires Inv(s)
    ensures Inv(Resume(s)) && Resume(s).fs == s.fs
  {
  }

  lemma PollKeepsInv(s: Sys)
    requires Inv(s)
    ensures Inv(PlPoll(s)) && s.fs.leaked <= PlPoll(s).fs.leaked
  {
    ResumeKeepsInv(s);
    StopKeepsInv(Resume(s));
  }

  lemma FsPollKeepsInv(s: Sys, data: bool)
    requires Inv(s)
    ensures Inv(FsPoll(s, data)) && s.fs.leaked <= FsPoll(s, data).fs.leaked
  {
    FreeTest(s.input);
    FreeTest(s.output);
    StopKeeps(s.fs);
  }

  lemma RestKeepsInv(s: Sys, op: Op)
    requires Inv(s) && (op.NetworkPoll? || op.NetworkAnswer? || op.Decode? || op.Sound?)
    ensures Inv(Step(s, op)) && Step(s, op).fs == s.fs
  {
    FreeTest(s.input);
  }

  lemma StepKeepsInv(s: Sys, op: Op)
    requires Inv(s)
    ensures Inv(Step(s, op)) && s.fs.leaked <= Step(s, op).fs.leaked
  {
    match op {
      case Play(what) => PlayKeepsInv(s, what);
      case Stop => StopKeepsInv(s);
      case Poll => PollKeepsInv(s);
      case FilePoll(data) => FsPollKeepsInv(s, data);
      case NetworkPoll(packet, failure) => RestKeepsInv(s, op);
      case NetworkAnswer(ok) => RestKeepsInv(s, op);
      case Decode(frames, failure) => RestKeepsInv(s, op);
      case Sound(fates) => RestKeepsInv(s, op);
    }
  }

  /** Over every run: a file is open for playing exactly when the file layer says so, then it names
      an open slot and the player is active with a file source; an active player has an initialised
      decoder, which is never finished twice; and the open slots are the file being played plus one
      for every RIFF file rejected after it was opened. */
  lemma {:induction false} LifeCycle(snd: SndState, ops: seq<Op>)
    ensures Inv(Run(snd, ops))
  {
    if ops != [] {
      LifeCycle(snd, ops[..|ops| - 1]);
      StepKeepsInv(Run(snd, ops[..|ops| - 1]), ops[|ops| - 1]);
    }
  }

  // ---------------------------------------------------------------- decoders left open

  /** Init and done take turns. */
  predicate Alternates(calls: seq<MadCall>) {
    forall k :: 0 < k < |calls| ==> calls[k] != calls[k - 1]
  }

  /** A file that `fs_play` will play: there is a slot, it is found, and it is an MP3 file or a RIFF
      file with a good header. */
  predicate Playable(leaked: nat, n: Name) {
    && leaked < MAX_OPEN_FILES
    && (n.first.host || n.first.res.Some?) && (n.second.host || n.second.res.Some?)
    && (n.kind == Mp3 || (n.kind == Riff && n.headerOk))
  }

  /** A play leaves the decoder open in a stopped player exactly when its file cannot be played
      and no earlier file was: the stop that should finish the decoder finds the player stopped. */
  lemma InitLeftOpenIff(s: Sys, what: What)
    requires Inv(s)
    ensures var p := PlPlay(s, what);
            && DecoderOpen(p)
            && (!Active(p.pl) <==> && what.FileName? && !Playable(s.fs.leaked, what.name)
                                   && s.fs.kind != Riff && s.fs.kind != Mp3)
  {
    PrepareKeepsInv(s);
    if what.FileName? {
      PlayKeeps(Prepare(s).fs, what.name);
    }
  }

  /** A play in such a state. */
  predicate Reopens(s: Sys, op: Op) {
    op.Play? && !Active(s.pl) && DecoderOpen(s)
  }

  lemma AlternatesSnoc(calls: seq<MadCall>, c: MadCall)
    ensures Alternates(calls + [c]) <==> Alternates(calls) && (calls == [] || calls[|calls| - 1] != c)
  {
    var longer := calls + [c];
    assert forall k :: 0 <= k < |calls| ==> longer[k] == calls[k];
    if Alternates(longer) && calls != [] {
      assert longer[|calls|] != longer[|calls| - 1];
    }
  }

  /** The only calls of a step: a done if it stops an active player, then an init if it is a play. */
  lemma StepCalls(s: Sys, op: Op)
    requires Shapes(s)
    ensures var r := Step(s, op).calls;
            var done := s.calls + [CallDone];
            if op.Play? then r == (if Active(s.pl) then done else s.calls) + [CallInit]
            else r == s.calls || (Active(s.pl) && r == done)
  {
  }

  lemma StepAlternatesIff(s: Sys, op: Op)
    requires Inv(s)
    ensures s.calls <= Step(s, op).calls
    ensures Alternates(Step(s, op).calls) <==> Alternates(s.calls) && !Reopens(s, op)
  {
    StepCalls(s, op);
    AlternatesSnoc(s.calls, CallDone);
    AlternatesSnoc(s.calls, CallInit);
    AlternatesSnoc(s.calls + [CallDone], CallInit);
  }

  predicate NeverReopens(snd: SndState, ops: seq<Op>) {
    ops == [] ||
    (NeverReopens(snd, ops[..|ops| - 1]) && !Reopens(Run(snd, ops[..|ops| - 1]), ops[|ops| - 1]))
  }

  /** Over every run, init and done take turns exactly when no play found a decoder left open. */
  lemma {:induction false} DecoderAlternatesIff(snd: SndState, ops: seq<Op>)
    ensures Alternates(Run(snd, ops).calls) <==> NeverReopens(snd, ops)
  {
    if ops != [] {
      var before := ops[..|ops| - 1];
      DecoderAlternatesIff(snd, before);
      LifeCycle(snd, before);
      StepAlternatesIff(Run(snd, before), ops[|ops| - 1]);
    }
  }

  /** A file that is not there. */
  const ABSENT := Play(FileName(Name(Try(false, None), Unknown, Try(false, None), false)))

  /** Asking for it twice initialises the decoder twice. */
  lemma InitTwice(snd: SndState)
    ensures Run(snd, [ABSENT, ABSENT]).calls == [CallInit, CallInit]
  {
    assert [ABSENT, ABSENT][..1] == [ABSENT] && [ABSENT][..0] == [];
    var s0, s1 := Run(snd, []), Run(snd, [ABSENT]);
    LifeCycle(snd, []);
    PrepareKeepsInv(s0);
    PlayKeeps(Prepare(s0).fs, ABSENT.what.name);
    InitLeftOpenIff(s0, ABSENT.what);
    StepCalls(s0, ABSENT);
    StepCalls(s1, ABSENT);
  }

  // ---------------------------------------------------------------- stale types and leaked slots

  lemma FailedPlay(s: Sys, name: Name)
    requires Inv(s) && PlPlay(s, FileName(name)).fs.handle == -1
    ensures var p := PlPlay(s, FileName(name));
            && Inv(p) && p.fs.kind == s.fs.kind && p.source == FileSource
            && (Active(p.pl) <==> p.fs.kind == Riff || p.fs.kind == Mp3)
  {
    PrepareKeepsInv(s);
    PlayKeeps(Prepare(s).fs, name);
    PlayKeepsInv(s, FileName(name));
  }

  /** A name that could not be opened may leave the player active on the type of an earlier file;
      the next poll stops it. */
  lemma FailedPlayIsRepaired(s: Sys, name: Name)
    requires Inv(s) && PlPlay(s, FileName(name)).fs.handle == -1
    ensures var p := PlPlay(s, FileName(name));
            && (Active(p.pl) <==> s.fs.kind == Riff || s.fs.kind == Mp3)
            && PlPoll(p).pl == Stopped
  {
    FailedPlay(s, name);
  }

  function After(s: Sys, ops: seq<Op>): (r: Sys)
    requires Shapes(s)
    ensures Shapes(r)
  {
    if ops == [] then s else Step(After(s, ops[..|ops| - 1]), ops[|ops| - 1])
  }

  lemma LeakBound(fs: Fs)
    requires FsInv(fs)
    ensures fs.leaked <= MAX_OPEN_FILES && (fs.leaked == MAX_OPEN_FILES ==> fs.handle == -1)
  {
  }

  /** A RIFF file that is found, opened, rejected for its header and then forgotten. */
  predicate Rejected(n: Name) {
    && n.kind == Riff && !n.headerOk
    && (n.first.host || n.first.res.Some?) && (n.second.host || n.second.res.Some?)
  }

  /** Playing one uses up a slot, whatever was going on. */
  lemma RejectedLeaks(s: Sys, n: Name)
    requires Inv(s) && Rejected(n)
    ensures var p := PlPlay(s, FileName(n));
            && Inv(p)
            && p.fs.leaked == (if s.fs.leaked < MAX_OPEN_FILES then s.fs.leaked + 1 else MAX_OPEN_FILES)
  {
    PlayKeepsInv(s, FileName(n));
    PrepareKeepsInv(s);
    LeakBound(s.fs);
    PlayKeeps(Prepare(s).fs, n);
  }

  /** What the header walk says of the bytes at the start of the file. */
  predicate Describes(n: Name, w: Headers.Bytes)
    requires |w| == Headers.WINDOW
  {
    && n.kind == Riff && (n.first.host || n.first.res.Some?) && (n.second.host || n.second.res.Some?)
    && (n.headerOk <==> Headers.Walk(w, Headers.HEADER, None).Accepted?)
  }

  /** A file with a serialised header is rejected, and leaks its slot, exactly when some chunk has
      an odd size or its last format is not one the player plays. */
  lemma RejectedIff(n: Name, w: Headers.Bytes, chunks: Headers.Chunks)
    requires Headers.IsHeader(w, chunks) && Describes(n, w)
    ensures Rejected(n) <==>
            !chunks.AllEven() ||
            !Headers.Meaning(chunks.LastFormat(None), Headers.HEADER + chunks.Size()).Accepted?
  {
    Headers.HeaderRoundTrip(w, chunks);
  }

  lemma AfterNext(s: Sys, ops: seq<Op>, op: Op)
    requires Shapes(s)
    ensures After(s, ops + [op]) == Step(After(s, ops), op)
  {
    assert (ops + [op])[..|ops|] == ops;
  }

  /** Three such files are enough. */
  lemma LeaksHappen(s: Sys, a: Name, b: Name, c: Name)
    requires Inv(s) && Rejected(a) && Rejected(b) && Rejected(c)
    ensures After(s, [Play(FileName(a))] + [Play(FileName(b))] + [Play(FileName(c))]).fs.leaked == MAX_OPEN_FILES
  {
    var p, q, r := Play(FileName(a)), Play(FileName(b)), Play(FileName(c));
    AfterNext(s, [p] + [q], r);
    AfterNext(s, [p], q);
    assert After(s, [p]) == Step(s, p);
    RejectedLeaks(s, a);
    RejectedLeaks(After(s, [p]), b);
    RejectedLeaks(After(s, [p] + [q]), c);
  }

  /** Slots are leaked for good, and three leaks use up the table: no file plays ever after. */
  lemma {:induction false} LeaksAreForever(s: Sys, more: seq<Op>)
    requires Inv(s)
    ensures Inv(After(s, more))
    ensures s.fs.leaked <= After(s, more).fs.leaked <= MAX_OPEN_FILES
    ensures s.fs.leaked == MAX_OPEN_FILES ==> After(s, more).fs.handle == -1
  {
    if more != [] {
      var before := more[..|more| - 1];
      LeaksAreForever(s, before);
      StepKeepsInv(After(s, before), more[|more| - 1]);
    }
    LeakBound(After(s, more).fs);
  }

  // ---------------------------------------------------------------- buffering

  lemma SndLoopBuffering(s: Sys, fates: seq<Fate>)
    requires Shapes(s) && s.pl != Playing
    ensures SndLoop(s, fates).output == s.output
  {
  }

  /** Without a new play command, buffering ends only at a poll that finds the input ring holding
      exactly its maximum, and starts only at a poll that finds both rings empty. */
  lemma Hysteresis(s: Sys, op: Op)
    requires Inv(s) && !op.Play?
    ensures s.pl == Buffering && Step(s, op).pl == Playing ==> op.Poll? && s.input.Backlog() == BUFFERS
    ensures s.pl == Playing && Step(s, op).pl == Buffering ==>
              op.Poll? && s.input.Backlog() == 0 && s.output.Backlog() == 0
    ensures s.pl == Stopped ==> Step(s, op).pl == Stopped
    ensures op.Poll? && s.pl == Buffering && s.input.Backlog() == BUFFERS ==> Step(s, op).pl != Buffering
    ensures op.Poll? && s.pl == Playing && !Failed(s) && !Ended(s) ==>
              (Step(s, op).pl == Buffering <==> s.input.Backlog() == 0 && s.output.Backlog() == 0)
  {
    FreeTest(s.input);
  }

  /** A poll stops an active player exactly on an error or when the source has ended. */
  lemma PollStopsIff(s: Sys)
    requires Inv(s) && Active(s.pl)
    ensures PlPoll(s).pl == Stopped <==> Failed(s) || Ended(s)
    ensures PlPoll(s).pl == Stopped ==> PlPoll(s).mad == MadDone && PlPoll(s).net == NetClosed
    ensures PlPoll(s).pl == Stopped ==> PlPoll(s).fs.state == Closed && PlPoll(s).fs.handle == -1
  {
    ResumeKeepsInv(s);
    StopKeepsInv(Resume(s));
  }

  /** `libmad_loop` gets past its tests. */
  predicate Decodes(s: Sys)
    requires Shapes(s)
  {
    && s.mad == MadInit && s.pl != Buffering && s.input.Backlog() > 0
    && (s.output.Backlog() == 0 || s.output.Backlog() == BUFFERS + 1)
  }

  /** A decoding pass takes one input buffer and puts every frame it yields into the output ring,
      where at most five can wait; without a pass nothing changes. */
  lemma DecoderFills(s: Sys, frames: seq<()>, failure: bool)
    requires Inv(s) && s.input.tail <= s.input.head && s.output.head + |frames| < U32
    ensures var r := MadLoop(s, frames, failure);
            if Decodes(s) then
              && r.input.head == s.input.head && r.input.tail == s.input.tail + 1
              && r.output.head == s.output.head + |frames|
              && r.output.Backlog() == (if s.output.Backlog() + |frames| <= 5 then s.output.Backlog() + |frames| else 5)
              && r == s.(input := r.input, output := r.output, mad := if failure then MadError else MadInit)
            else r == s
  {
    GateExact(s.output);
    PushAllLevel(s.output, frames);
  }

  /** In a playing frame the sound loop empties the output ring unless the device fails. */
  lemma {:induction false} SoundDrains(s: Sys, fates: seq<Fate>)
    requires Inv(s) && s.pl == Playing && s.snd != SndError && s.output.tail <= s.output.head
    requires Failure !in fates
    ensures SndLoop(s, fates).output.Backlog() == 0 && SndLoop(s, fates).snd != SndError
    decreases s.output.Backlog()
  {
    if s.output.Used() != 0 {
      var fate, rest := if fates == [] then Fine else fates[0], if fates == [] then [] else fates[1..];
      var t := s.(output := Pop(s.output).0, snd := Written(s.snd, fate));
      assert fates != [] ==> fates[0] in fates;
      if t.output.Used() != 0 {
        SoundDrains(t, rest);
      }
    }
  }

  /** While buffering, no step takes anything out of either ring. */
  lemma BufferingKeepsTails(s: Sys, op: Op)
    requires Inv(s) && s.pl == Buffering && !op.Play?
    ensures Step(s, op).input.tail == s.input.tail && Step(s, op).output.tail == s.output.tail
  {
    FreeTest(s.input);
    FreeTest(s.output);
    if op.Sound? {
      SndLoopBuffering(s, op.fates);
    }
  }

  /** So over a whole buffering period, however long, playback resumes at the next unplayed data. */
  lemma {:induction false} BufferingPeriod(s: Sys, ops: seq<Op>)
    requires Inv(s) && forall k :: 0 <= k < |ops| ==> !ops[k].Play?
    requires forall k :: 0 <= k < |ops| ==> After(s, ops[..k]).pl == Buffering
    ensures Inv(After(s, ops))
    ensures After(s, ops).input.tail == s.input.tail && After(s, ops).output.tail == s.output.tail
  {
    if ops != [] {
      var before, last := ops[..|ops| - 1], ops[|ops| - 1];
      forall k | 0 <= k < |before|
        ensures After(s, before[..k]).pl == Buffering
      {
        assert before[..k] == ops[..k];
      }
      BufferingPeriod(s, before);
      StepKeepsInv(After(s, before), last);
      BufferingKeepsTails(After(s, before), last);
    }
  }

  // ---------------------------------------------------------------- the end of a file

  /** One `frame` in which no command is given. */
  function Frame(s: Sys, data: bool, packet: bool, netFailure: bool, frames: seq<()>, failure: bool,
                 fates: seq<Fate>): (r: Sys)
    requires Shapes(s)
    ensures Shapes(r)
  {
    PlPoll(SndLoop(MadLoop(NetPoll(FsPoll(s, data), packet, netFailure), frames, failure), fates))
  }

  /** The frame that meets the end of an MP3 file stops the player at once.  Its input ring then
      holds no fewer buffers than before, the empty one pushed at the end of the file among them.
      What is lost with them is said in `Playback`. */
  lemma EndOfFileCutsShort(s: Sys, packet: bool, netFailure: bool, frames: seq<()>, failure: bool,
                           fates: seq<Fate>)
    requires Inv(s) && s.fs.handle != -1 && s.fs.kind == Mp3 && s.input.Free() != 0
    ensures var r := Frame(s, false, packet, netFailure, frames, failure, fates);
            r.pl == Stopped && r.input.Backlog() >= s.input.Backlog()
  {
    var a := FsPoll(s, false);
    FsPollKeepsInv(s, false);
    assert a.input.Backlog() == s.input.Backlog() + 1 && a.fs.state == Closed by {
      FreeTest(s.input);
      StopKeeps(s.fs);
    }
    assert NetPoll(a, packet, netFailure) == a;
    var c := MadLoop(a, frames, failure);
    RestKeepsInv(a, Decode(frames, failure));
    assert c.input.Backlog() >= s.input.Backlog() && c.pl == s.pl && c.fs == a.fs;
    var d := SndLoop(c, fates);
    RestKeepsInv(c, Op.Sound(fates));
    PollStopsIff(d);
    PollKeepsInput(d);
  }

  lemma PollKeepsInput(s: Sys)
    requires Shapes(s)
    ensures PlPoll(s).input == s.input
  {
  }
}
