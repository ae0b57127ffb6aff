/** An MP3 file from `pl_play` to the frame that stops the player: the player of `Player` and the
    bytes of `Stream`, frame by frame (linux/main.c, stm32/main.c).

    `Player` knows the input ring by its counters and `Stream` by its contents.  Here they are one
    ring, and whether the decoder runs in a frame is no longer a free choice. */
module Playback {
  import opened Wrappers
  import opened Ring
  import opened DecodeGate
  import P = Player
  import S = Stream
  import F = Files
  import Sound

  datatype Song = Song(sys: P.Sys, pipe: S.Pipe)

  /** What decoder and sound device do in one frame: bytes consumed, frames synthesised, a decoder
      failure, and the fate of each output buffer. */
  datatype Tick = Tick(k: nat, frames: seq<()>, failure: bool, fates: seq<P.Fate>)

  predicate Shapes(g: Song) {
    P.Shapes(g.sys) && S.Shape(g.pipe)
  }

  predicate HasData(p: S.Pipe) {
    p.pos < |p.file|
  }

  /** `fs_poll` as the pipe sees it. */
  function Polled(g: Song): S.Pipe
    requires Shapes(g)
  {
    if g.sys.fs.handle == -1 then g.pipe else S.Poll(g.pipe)
  }

  /** The tests of `libmad_loop`, beside the one for input. */
  predicate DecoderRuns(s: P.Sys)
    requires P.Shapes(s)
  {
    s.mad == P.MadInit && s.pl != P.Buffering && GateOpen(s.output)
  }

  /** Whether they let the decoder run in the next frame. */
  predicate Gate(g: Song)
    requires Shapes(g)
  {
    DecoderRuns(P.FsPoll(g.sys, HasData(g.pipe)))
  }

  function Decoded(g: Song, k: nat): (r: S.Pipe)
    requires Shapes(g)
    ensures S.Shape(r) && r.file == g.pipe.file
  {
    S.Pass(Polled(g), k, Gate(g))
  }

  /** One `frame` in which no command is given. */
  function Frame(g: Song, t: Tick): (r: Song)
    requires Shapes(g)
    ensures Shapes(r) && r.pipe.file == g.pipe.file
  {
    var pipe := Decoded(g, t.k);
    Song(P.Frame(g.sys, HasData(g.pipe), false, false, t.frames, t.failure || pipe.failed, t.fates), pipe)
  }

  predicate Blank(slots: seq<seq<byte>>) {
    |slots| == S.INPUT_BUFFERS
  }

  /** `pl_play` found and opened an MP3 file. */
  predicate Starts(s: P.Sys, name: F.Name) {
    P.Inv(s) && name.kind == F.Mp3 && P.PlPlay(s, P.FileName(name)).fs.handle != -1
  }

  function Frames(g: Song, ticks: seq<Tick>): (r: Song)
    requires Shapes(g)
    ensures Shapes(r) && r.pipe.file == g.pipe.file
  {
    if ticks == [] then g else Frame(Frames(g, ticks[..|ticks| - 1]), ticks[|ticks| - 1])
  }

  /** The song that `pl_play` begins. */
  function Begin(s: P.Sys, name: F.Name, file: seq<byte>, blank: seq<seq<byte>>): (r: Song)
    requires Starts(s, name) && Blank(blank)
    ensures Shapes(r) && r.pipe.file == file
  {
    Song(P.PlPlay(s, P.FileName(name)), S.Run(file, blank, []))
  }

  function Run(s: P.Sys, name: F.Name, file: seq<byte>, blank: seq<seq<byte>>, ticks: seq<Tick>): (r: Song)
    requires Starts(s, name) && Blank(blank)
    ensures Shapes(r) && r.pipe.file == file
  {
    Frames(Begin(s, name, file, blank), ticks)
  }

  // ---------------------------------------------------------------- one ring

  /** The two views of the input ring agree. */
  predicate Same(l: P.Level, r: State<seq<byte>>) {
    && l.Valid() && r.Valid() && |l.slots| == |r.slots| == S.INPUT_BUFFERS
    && l.head == r.head && l.tail == r.tail
  }

  lemma SameStays(l: P.Level, r: State<seq<byte>>, chunk: seq<byte>)
    requires Same(l, r)
    ensures Same(Push(l, ()), Push(r, chunk)) && Same(Pop(l).0, Pop(r).0)
    ensures l.Free() == r.Free() && l.Used() == r.Used() && l.Backlog() == r.Backlog()
  {
  }

  // ---------------------------------------------------------------- what every frame keeps

  /** How many chunks the file has. */
  function Chunks(file: seq<byte>): nat {
    (|file| + S.INPUT_BUFFER_SIZE - 1) / S.INPUT_BUFFER_SIZE
  }

  /** How many of them the decoder ever gets. */
  function Reached(file: seq<byte>): nat {
    if Chunks(file) < S.INPUT_BUFFERS then 0 else Chunks(file) - 2
  }

  predicate CutOff(p: S.Pipe) {
    |p.consumed| <= S.INPUT_BUFFER_SIZE * Reached(p.file)
  }

  /** Nothing leaves the ring before it has been full, and from then on three chunks are waiting
      after every frame. */
  predicate Phase(pl: P.PlState, p: S.Pipe)
    requires S.Shape(p)
  {
    && (pl == P.Buffering ==> p.ring.tail == 0 && p.ring.head < S.INPUT_BUFFERS)
    && (pl == P.Playing ==> p.ring.head >= S.INPUT_BUFFERS && p.ring.head >= p.ring.tail + 3)
  }

  /** A file that is being played. */
  predicate Live(g: Song)
    requires Shapes(g)
  {
    && g.sys.source == P.FileSource && g.sys.fs.kind == F.Mp3 && g.sys.fs.handle != -1
    && g.sys.mad == P.MadInit && g.pipe.open && !g.pipe.failed
    && S.Reading(g.pipe) && Phase(g.sys.pl, g.pipe)
  }

  predicate Inv(g: Song) {
    && P.Inv(g.sys) && S.Inv(g.pipe) && Same(g.sys.input, g.pipe.ring)
    && CutOff(g.pipe) && (if P.Active(g.sys.pl) then Live(g) else g.sys.mad == P.MadDone)
  }

  /** A number of chunks is at most that of the file if the one before its last starts inside. */
  lemma ChunkBound(file: seq<byte>, n: nat)
    requires n > 0 ==> S.INPUT_BUFFER_SIZE * (n - 1) < |file|
    ensures n <= Chunks(file)
    ensures S.INPUT_BUFFER_SIZE * n >= |file| ==> n == Chunks(file)
  {
  }

  /** What a frame does to the pipe of a file that is being played. */
  lemma PipeFrame(p: S.Pipe, k: nat, gate: bool, pl: P.PlState)
    requires S.Inv(p) && p.open && !p.failed && S.Reading(p) && Phase(pl, p) && P.Active(pl)
    requires gate ==> pl == P.Playing
    ensures var q := S.Poll(p); var r := S.Pass(q, k, gate);
            && S.Inv(r) && CutOff(r)
            && (q.open && !r.failed ==> r.open && S.Reading(r))
            && (q.open <==> HasData(p) || p.ring.Backlog() == S.INPUT_BUFFERS)
            && (q.open && pl == P.Playing ==> Phase(pl, r))
            && (pl == P.Buffering ==> r == q && r.ring.tail == 0 && r.ring.head == p.ring.head + 1)
  {
    var q := S.Poll(p);
    var r := S.Pass(q, k, gate);
    S.PollKeeps(p);
    S.PollReads(p);
    S.PassKeeps(q, k, gate);
    if q.open {
      S.PassReads(q, k, gate);
    }
    PipeCutOff(p, k, gate, pl);
  }

  /** A pass consumes no more than the window and the oldest chunk. */
  lemma PassTakes(p: S.Pipe, k: nat, gate: bool)
    requires S.Inv(p) && !p.failed && p.ring.Backlog() > 0
    ensures |S.Pass(p, k, gate).consumed| <= |p.consumed| + |p.window| + (if gate then |p.ring.Live()[0]| else 0)
    ensures !gate ==> S.Pass(p, k, gate) == p
  {
    PopTakesOldest(p.ring);
  }

  lemma ClosedGateTakes(p: S.Pipe, k: nat)
    requires S.Inv(p) && !p.failed
    ensures |S.Pass(S.Poll(p), k, false).consumed| == |p.consumed|
  {
  }

  lemma OpenGateTakes(p: S.Pipe, k: nat)
    requires S.Inv(p) && p.open && !p.failed && S.Reading(p) && p.ring.Backlog() > 0
    ensures |S.Pass(S.Poll(p), k, true).consumed| <= S.INPUT_BUFFER_SIZE * (p.ring.tail + 1)
  {
    S.PollKeeps(p);
    OldestStays(p);
    PassTakes(S.Poll(p), k, true);
  }

  /** What the decoder may have got of a file that is being played. */
  lemma WithinReach(p: S.Pipe, pl: P.PlState)
    requires S.Shape(p) && S.Reading(p) && Phase(pl, p) && P.Active(pl)
    ensures p.ring.tail <= Reached(p.file)
    ensures pl == P.Playing ==> p.ring.tail < Reached(p.file)
  {
    ChunkBound(p.file, p.ring.head);
  }

  lemma PipeCutOff(p: S.Pipe, k: nat, gate: bool, pl: P.PlState)
    requires S.Inv(p) && p.open && !p.failed && S.Reading(p) && Phase(pl, p) && P.Active(pl)
    requires gate ==> pl == P.Playing
    ensures CutOff(S.Pass(S.Poll(p), k, gate))
  {
    WithinReach(p, pl);
    if gate {
      OpenGateTakes(p, k);
    } else {
      ClosedGateTakes(p, k);
    }
  }

  lemma OldestStays(p: S.Pipe)
    requires S.Inv(p) && p.open && S.Reading(p) && p.ring.Backlog() > 0
    ensures S.Poll(p).ring.Backlog() > 0 && |S.Poll(p).ring.Live()[0]| <= S.INPUT_BUFFER_SIZE
    ensures S.Poll(p).window == p.window && S.Poll(p).consumed == p.consumed
  {
    FreeTest(p.ring);
    if p.ring.Free() != 0 {
      var n := S.Min(S.INPUT_BUFFER_SIZE, |p.file| - p.pos);
      PushAppends(p.ring, p.file[p.pos..p.pos + n]);
    }
    assert S.Poll(p).ring.Live()[0] == p.ring.Live()[0];
  }

  // ---------------------------------------------------------------- the frame

  /** `fs_poll` of a file that is being played. */
  lemma FilePolled(g: Song)
    requires Inv(g) && P.Active(g.sys.pl)
    ensures var a, q := P.FsPoll(g.sys, HasData(g.pipe)), S.Poll(g.pipe);
            && P.Inv(a) && Same(a.input, q.ring)
            && a == g.sys.(input := a.input, fs := a.fs)
            && (a.fs.state == F.Closed <==> !q.open) && (q.open ==> a.fs == g.sys.fs)
  {
    P.FsPollKeepsInv(g.sys, HasData(g.pipe));
    F.StopKeeps(g.sys.fs);
    S.PollReads(g.pipe);
    SameStays(g.sys.input, g.pipe.ring, []);
    var n := S.Min(S.INPUT_BUFFER_SIZE, |g.pipe.file| - g.pipe.pos);
    SameStays(g.sys.input, g.pipe.ring, g.pipe.file[g.pipe.pos..g.pipe.pos + n]);
  }

  /** `libmad_loop` on both views. */
  lemma PassOnBoth(a: P.Sys, q: S.Pipe, t: Tick)
    requires P.Inv(a) && S.Shape(q) && Same(a.input, q.ring) && a.mad == P.MadInit && !q.failed
    ensures var pipe := S.Pass(q, t.k, DecoderRuns(a));
            var c := P.MadLoop(a, t.frames, t.failure || pipe.failed);
            && P.Inv(c) && Same(c.input, pipe.ring)
            && c == a.(input := c.input, output := c.output, mad := c.mad)
            && (pipe.failed ==> c.mad == P.MadError)
  {
    var pipe := S.Pass(q, t.k, DecoderRuns(a));
    var c := P.MadLoop(a, t.frames, t.failure || pipe.failed);
    assert P.Inv(c) by {
      P.RestKeepsInv(a, P.Decode(t.frames, t.failure || pipe.failed));
    }
    assert a.input.Used() == q.ring.Used() && Same(Pop(a.input).0, Pop(q.ring).0) by {
      SameStays(a.input, q.ring, []);
    }
    PassPops(q, t.k, DecoderRuns(a));
  }

  lemma PassPops(q: S.Pipe, k: nat, gate: bool)
    requires S.Shape(q) && !q.failed
    ensures S.Pass(q, k, gate).ring == if gate && q.ring.Used() != 0 then Pop(q.ring).0 else q.ring
    ensures S.Pass(q, k, gate).failed ==> gate && q.ring.Used() != 0
  {
  }

  /** `pl_poll` at the end of the frame. */
  lemma PolledPlayer(d: P.Sys)
    requires P.Inv(d) && P.Active(d.pl) && d.source == P.FileSource
    ensures var e := P.PlPoll(d);
            && P.Inv(e) && e.input == d.input
            && (P.Active(e.pl) ==> !P.Failed(d) && d.fs.state == F.Open && e == d.(pl := e.pl))
            && (d.fs.state == F.Closed ==> e.pl == P.Stopped) && (!P.Active(e.pl) ==> e.mad == P.MadDone)
            && (P.Active(e.pl) && d.pl == P.Buffering ==>
                  e.pl == if d.input.Backlog() == 4 then P.Playing else P.Buffering)
            && (P.Active(e.pl) && d.pl == P.Playing && d.input.Backlog() > 0 ==> e.pl == P.Playing)
  {
    P.PollKeepsInv(d);
    FreeTest(d.input);
  }

  /** A frame of a file that is being played, up to `snd_loop`. */
  lemma BeforeSound(g: Song, t: Tick) returns (c: P.Sys)
    requires Inv(g) && P.Active(g.sys.pl)
    ensures var q := S.Poll(g.pipe); var pipe := S.Pass(q, t.k, Gate(g));
            && P.Inv(c) && Same(c.input, pipe.ring)
            && Frame(g, t) == Song(P.PlPoll(P.SndLoop(c, t.fates)), pipe)
            && c == P.MadLoop(P.FsPoll(g.sys, HasData(g.pipe)), t.frames, t.failure || pipe.failed)
            && c.pl == g.sys.pl && c.source == P.FileSource
            && (c.fs.state == F.Closed <==> !q.open) && (q.open ==> c.fs == g.sys.fs)
            && (pipe.failed ==> c.mad == P.MadError)
  {
    FilePolled(g);
    var a, q := P.FsPoll(g.sys, HasData(g.pipe)), S.Poll(g.pipe);
    assert P.NetPoll(a, false, false) == a;
    PassOnBoth(a, q, t);
    c := P.MadLoop(a, t.frames, t.failure || S.Pass(q, t.k, Gate(g)).failed);
  }

  lemma GateMeansPlaying(g: Song)
    requires Inv(g) && P.Active(g.sys.pl)
    ensures Gate(g) ==> g.sys.pl == P.Playing
  {
  }

  /** The same, up to `pl_poll`. */
  lemma BeforePoll(g: Song, t: Tick) returns (d: P.Sys)
    requires Inv(g) && P.Active(g.sys.pl)
    ensures var q := S.Poll(g.pipe); var pipe := S.Pass(q, t.k, Gate(g));
            && P.Inv(d) && Same(d.input, pipe.ring)
            && Frame(g, t) == Song(P.PlPoll(d), pipe)
            && d.pl == g.sys.pl && d.source == P.FileSource
            && (d.fs.state == F.Closed <==> !q.open) && (q.open ==> d.fs == g.sys.fs)
            && (pipe.failed ==> P.Failed(d))
  {
    var c := BeforeSound(g, t);
    P.RestKeepsInv(c, P.Sound(t.fates));
    d := P.SndLoop(c, t.fates);
  }

  lemma LiveFrame(g: Song, t: Tick)
    requires Inv(g) && P.Active(g.sys.pl)
    ensures Inv(Frame(g, t))
    ensures !HasData(g.pipe) && g.pipe.ring.Backlog() < S.INPUT_BUFFERS ==> Frame(g, t).sys.pl == P.Stopped
    ensures g.sys.pl == P.Buffering && P.Active(Frame(g, t).sys.pl) ==>
              Frame(g, t).pipe.ring.head == g.pipe.ring.head + 1
  {
    var d := BeforePoll(g, t);
    PolledPlayer(d);
    GateMeansPlaying(g);
    PipeFrame(g.pipe, t.k, Gate(g), g.sys.pl);
  }

  lemma IdleFrame(g: Song, t: Tick)
    requires Inv(g) && !P.Active(g.sys.pl)
    ensures Frame(g, t).pipe == g.pipe && Inv(Frame(g, t)) && !P.Active(Frame(g, t).sys.pl)
  {
    P.RestKeepsInv(g.sys, P.Sound(t.fates));
  }

  lemma FrameKeeps(g: Song, t: Tick)
    requires Inv(g)
    ensures Inv(Frame(g, t))
  {
    if P.Active(g.sys.pl) {
      LiveFrame(g, t);
    } else {
      IdleFrame(g, t);
    }
  }

  lemma BeginKeeps(s: P.Sys, name: F.Name, file: seq<byte>, blank: seq<seq<byte>>)
    requires Starts(s, name) && Blank(blank) && |file| < 0x8000_0000
    ensures Inv(Begin(s, name, file, blank)) && Begin(s, name, file, blank).sys.pl == P.Buffering
    ensures Begin(s, name, file, blank).pipe == S.Run(file, blank, [])
  {
    P.PlayKeepsInv(s, P.FileName(name));
    P.PrepareKeepsInv(s);
    F.PlayKeeps(P.Prepare(s).fs, name);
    S.EveryByteAccounted(file, blank, []);
    S.ReadsInChunks(file, blank, []);
  }

  lemma {:induction false} FramesKeep(g: Song, ticks: seq<Tick>)
    requires Inv(g)
    ensures Inv(Frames(g, ticks))
  {
    if ticks != [] {
      FramesKeep(g, ticks[..|ticks| - 1]);
      FrameKeeps(Frames(g, ticks[..|ticks| - 1]), ticks[|ticks| - 1]);
    }
  }

  lemma RunKeeps(s: P.Sys, name: F.Name, file: seq<byte>, blank: seq<seq<byte>>, ticks: seq<Tick>)
    requires Starts(s, name) && Blank(blank) && |file| < 0x8000_0000
    ensures Inv(Run(s, name, file, blank, ticks))
  {
    BeginKeeps(s, name, file, blank);
    FramesKeep(Begin(s, name, file, blank), ticks);
  }

  /** Whatever the decoder and the sound device do, the decoder never sees the last two chunks of an
      MP3 file, and nothing at all of a file of less than four chunks.  So it consumes the whole file
      only if the file is empty. */
  lemma EndIsNeverPlayed(s: P.Sys, name: F.Name, file: seq<byte>, blank: seq<seq<byte>>, ticks: seq<Tick>)
    requires Starts(s, name) && Blank(blank) && |file| < 0x8000_0000
    ensures var g := Run(s, name, file, blank, ticks);
            && |g.pipe.consumed| <= S.INPUT_BUFFER_SIZE * Reached(file)
            && (g.pipe.consumed == file <==> file == [])
  {
    RunKeeps(s, name, file, blank, ticks);
  }

  lemma ClosedIsWhole(p: S.Pipe)
    requires S.Inv(p) && !p.open && !p.failed
    ensures p.consumed + p.window + S.Flat(p.ring.Live()) == p.file
  {
    assert p.file[..p.pos] == p.file;
  }

  lemma LastPass(p: S.Pipe, k: nat, gate: bool)
    requires S.Inv(p) && p.open && !p.failed && S.Reading(p) && !HasData(p)
    requires p.ring.Backlog() < S.INPUT_BUFFERS
    ensures var r := S.Pass(S.Poll(p), k, gate);
            !r.failed ==> r.consumed + r.window + S.Flat(r.ring.Live()) == p.file
  {
    S.PollReads(p);
    S.PollKeeps(p);
    S.PassKeeps(S.Poll(p), k, gate);
    var r := S.Pass(S.Poll(p), k, gate);
    if !r.failed {
      ClosedIsWhole(r);
    }
  }

  lemma LastFrame(g: Song, t: Tick)
    requires Inv(g) && P.Active(g.sys.pl) && !HasData(g.pipe) && g.pipe.ring.Backlog() < S.INPUT_BUFFERS
    ensures var r := Frame(g, t);
            && r.sys.pl == P.Stopped
            && (!r.pipe.failed ==> r.pipe.consumed + r.pipe.window + S.Flat(r.pipe.ring.Live()) == g.pipe.file)
  {
    LiveFrame(g, t);
    LastPass(g.pipe, t.k, Gate(g));
  }

  /** The poll that finds the file read to its end stops the player, and the bytes then waiting are
      those that follow what was consumed. */
  lemma StopsWithTheRest(s: P.Sys, name: F.Name, file: seq<byte>, blank: seq<seq<byte>>, ticks: seq<Tick>,
                         t: Tick)
    requires Starts(s, name) && Blank(blank) && |file| < 0x8000_0000
    requires var g := Run(s, name, file, blank, ticks);
             P.Active(g.sys.pl) && !HasData(g.pipe) && g.pipe.ring.Backlog() < S.INPUT_BUFFERS
    ensures var r := Frame(Run(s, name, file, blank, ticks), t);
            && r.sys.pl == P.Stopped
            && (!r.pipe.failed ==> r.pipe.consumed + r.pipe.window + S.Flat(r.pipe.ring.Live()) == file)
  {
    var g := Run(s, name, file, blank, ticks);
    RunKeeps(s, name, file, blank, ticks);
    LastFrame(g, t);
  }

  /** A file of less than four chunks that has been playing for `n` frames. */
  predicate Unheard(g: Song, n: nat)
    requires Shapes(g)
  {
    && g.pipe.consumed == []
    && (P.Active(g.sys.pl) ==> g.sys.pl == P.Buffering && g.pipe.ring.head == n)
    && (n > Chunks(g.pipe.file) ==> !P.Active(g.sys.pl))
  }

  lemma ShortFrame(g: Song, t: Tick, n: nat)
    requires Inv(g) && Chunks(g.pipe.file) < S.INPUT_BUFFERS && Unheard(g, n)
    ensures Unheard(Frame(g, t), n + 1)
  {
    FrameKeeps(g, t);
    if P.Active(g.sys.pl) {
      LiveFrame(g, t);
      var r := Frame(g, t);
      ChunkBound(g.pipe.file, g.pipe.ring.head);
      if P.Active(r.sys.pl) {
        ChunkBound(g.pipe.file, r.pipe.ring.head);
      }
    } else {
      IdleFrame(g, t);
    }
  }

  lemma {:induction false} ShortFrames(g: Song, ticks: seq<Tick>)
    requires Inv(g) && Chunks(g.pipe.file) < S.INPUT_BUFFERS && Unheard(g, 0)
    ensures Unheard(Frames(g, ticks), |ticks|)
  {
    if ticks != [] {
      var before := ticks[..|ticks| - 1];
      FramesKeep(g, before);
      ShortFrames(g, before);
      ShortFrame(Frames(g, before), ticks[|ticks| - 1], |before|);
    }
  }

  /** A file of less than four chunks is over, unheard, one frame after its last chunk was read. */
  lemma ShortFileIsSilent(s: P.Sys, name: F.Name, file: seq<byte>, blank: seq<seq<byte>>, ticks: seq<Tick>)
    requires Starts(s, name) && Blank(blank) && Chunks(file) < S.INPUT_BUFFERS
    ensures Unheard(Run(s, name, file, blank, ticks), |ticks|)
  {
    BeginKeeps(s, name, file, blank);
    ShortFrames(Begin(s, name, file, blank), ticks);
  }

  // ---------------------------------------------------------------- the bound is reached

  /** A frame in which the decoder takes everything it is given and yields nothing to be played. */
  const BEST := Tick(S.INPUT_BUFFER_SIZE, [], false, [])

  predicate Calm(s: P.Sys) {
    s.output.head == s.output.tail && s.snd != P.SndError
  }

  /** Everything the decoder was given has been consumed. */
  predicate Best(g: Song, h: nat, t: nat) {
    && Inv(g) && P.Active(g.sys.pl) && Calm(g.sys) && S.FullBefore(g.pipe)
    && g.pipe.ring.head == h && g.pipe.ring.tail == t
    && g.pipe.window == [] && |g.pipe.consumed| == S.INPUT_BUFFER_SIZE * t
  }

  /** The player's half of such a frame, up to `pl_poll`. */
  lemma BestBeforePoll(g: Song) returns (d: P.Sys)
    requires Inv(g) && P.Active(g.sys.pl) && Calm(g.sys)
    ensures var q := S.Poll(g.pipe); var pipe := S.Pass(q, S.INPUT_BUFFER_SIZE, Gate(g));
            && P.Inv(d) && P.Active(d.pl) && d.source == P.FileSource && Calm(d)
            && Frame(g, BEST) == Song(P.PlPoll(d), pipe)
            && (d.fs.state == F.Open <==> q.open) && (!pipe.failed ==> !P.Failed(d))
  {
    var c := BeforeSound(g, BEST);
    d := P.SndLoop(c, []);
    BestSound(g, c);
    P.RestKeepsInv(c, P.Sound([]));
  }

  /** The decoder runs whenever the player is playing, and nothing but the end of the file stops the
      player. */
  lemma BestSys(g: Song)
    requires Inv(g) && P.Active(g.sys.pl) && Calm(g.sys)
    ensures Gate(g) <==> g.sys.pl == P.Playing
    ensures var q := S.Poll(g.pipe); var r := Frame(g, BEST);
            && r.pipe == S.Pass(q, S.INPUT_BUFFER_SIZE, Gate(g))
            && Calm(r.sys) && (!r.pipe.failed ==> (P.Active(r.sys.pl) <==> q.open))
  {
    BestGate(g);
    var d := BestBeforePoll(g);
    BestPoll(d);
  }

  lemma BestGate(g: Song)
    requires Inv(g) && P.Active(g.sys.pl) && Calm(g.sys)
    ensures Gate(g) <==> g.sys.pl == P.Playing
  {
    FilePolled(g);
    GateExact(P.FsPoll(g.sys, HasData(g.pipe)).output);
  }

  lemma BestSound(g: Song, c: P.Sys)
    requires Inv(g) && P.Active(g.sys.pl) && Calm(g.sys)
    requires c == P.MadLoop(P.FsPoll(g.sys, HasData(g.pipe)), [], Frame(g, BEST).pipe.failed) && P.Inv(c)
    ensures Calm(P.SndLoop(c, []))
    ensures !Frame(g, BEST).pipe.failed ==> !P.Failed(P.SndLoop(c, []))
  {
    FilePolled(g);
  }

  lemma BestPoll(d: P.Sys)
    requires P.Inv(d) && P.Active(d.pl) && d.source == P.FileSource && Calm(d)
    ensures Calm(P.PlPoll(d))
    ensures !P.Failed(d) ==> (P.Active(P.PlPoll(d).pl) <==> d.fs.state == F.Open)
  {
    P.PollStopsIff(d);
  }

  lemma BestBuffering(g: Song, h: nat)
    requires Best(g, h, 0) && h < S.INPUT_BUFFERS <= Chunks(g.pipe.file)
    ensures Best(Frame(g, BEST), h + 1, 0)
  {
    BestSys(g);
    LiveFrame(g, BEST);
    ChunkBound(g.pipe.file, h);
    S.PollReads(g.pipe);
    S.PollFull(g.pipe);
  }

  /** The chunks before the last are full. */
  lemma InsideFile(file: seq<byte>, n: nat)
    requires n < Chunks(file)
    ensures S.INPUT_BUFFER_SIZE * n < |file|
  {
  }

  lemma BestPass(g: Song, h: nat, t: nat)
    requires Best(g, h, t) && h >= S.INPUT_BUFFERS && t + 1 < Chunks(g.pipe.file)
    ensures var r := Frame(g, BEST).pipe;
            && !r.failed && r.window == [] && S.FullBefore(r) && r.ring.tail == t + 1
            && r.ring.head == S.Poll(g.pipe).ring.head
            && |r.consumed| == S.INPUT_BUFFER_SIZE * (t + 1)
  {
    BestSys(g);
    S.PollKeeps(g.pipe);
    S.PollReads(g.pipe);
    S.PollFull(g.pipe);
    InsideFile(g.pipe.file, t + 1);
    OldestStays(g.pipe);
    S.PassAll(S.Poll(g.pipe));
  }

  lemma BestPlaying(g: Song, h: nat, t: nat)
    requires Best(g, h, t) && S.INPUT_BUFFERS <= h <= Chunks(g.pipe.file) && t + 3 <= h
    requires h < Chunks(g.pipe.file) || h == t + S.INPUT_BUFFERS
    ensures Best(Frame(g, BEST), if h == t + S.INPUT_BUFFERS then h else h + 1, t + 1)
  {
    BestPass(g, h, t);
    BestSys(g);
    LiveFrame(g, BEST);
    S.PollReads(g.pipe);
    if h < Chunks(g.pipe.file) {
      InsideFile(g.pipe.file, h);
    }
  }

  /** The ring after `j` such frames: it fills up, gives one chunk, and then takes and gives one in
      every frame. */
  predicate BestAfter(g: Song, j: nat) {
    if j <= S.INPUT_BUFFERS then Best(g, j, 0) else Best(g, j - 1, j - 4)
  }

  lemma BestNext(g: Song, j: nat)
    requires BestAfter(g, j) && S.INPUT_BUFFERS <= Chunks(g.pipe.file) && j <= Chunks(g.pipe.file)
    ensures BestAfter(Frame(g, BEST), j + 1)
  {
    if j < S.INPUT_BUFFERS {
      BestBuffering(g, j);
    } else if j == S.INPUT_BUFFERS {
      BestPlaying(g, j, 0);
    } else {
      BestPlaying(g, j - 1, j - 4);
    }
  }

  /** One more such frame. */
  lemma Then(g: Song, ticks: seq<Tick>, r: Song) returns (ticks': seq<Tick>, r': Song)
    requires Shapes(g) && r == Frames(g, ticks)
    ensures r' == Frames(g, ticks') && r' == Frame(r, BEST)
  {
    ticks', r' := ticks + [BEST], Frame(r, BEST);
    assert ticks'[..|ticks|] == ticks;
  }

  lemma Advance(r: Song, r': Song, j: nat)
    requires BestAfter(r, j) && S.INPUT_BUFFERS <= Chunks(r.pipe.file) && j <= Chunks(r.pipe.file)
    requires r' == Frame(r, BEST)
    ensures BestAfter(r', j + 1) && r'.pipe.file == r.pipe.file
  {
    BestNext(r, j);
  }

  lemma {:induction false} BestFrames(g: Song, j: nat) returns (ticks: seq<Tick>, r: Song)
    requires Best(g, 0, 0) && S.INPUT_BUFFERS <= Chunks(g.pipe.file) && j <= Chunks(g.pipe.file) + 1
    ensures r == Frames(g, ticks) && BestAfter(r, j) && r.pipe.file == g.pipe.file
  {
    if j == 0 {
      ticks, r := [], g;
    } else {
      var before, b := BestFrames(g, j - 1);
      ticks, r := Then(g, before, b);
      Advance(b, r, j - 1);
    }
  }

  lemma BestBegin(s: P.Sys, name: F.Name, file: seq<byte>, blank: seq<seq<byte>>)
    requires Starts(s, name) && Blank(blank) && |file| < 0x8000_0000 && s.snd != P.SndError
    ensures Best(Begin(s, name, file, blank), 0, 0)
  {
    BeginKeeps(s, name, file, blank);
  }

  lemma LastBestFrame(r: Song, r': Song)
    requires BestAfter(r, Chunks(r.pipe.file) + 1) && S.INPUT_BUFFERS <= Chunks(r.pipe.file)
    requires r' == Frame(r, BEST)
    ensures |r'.pipe.consumed| == S.INPUT_BUFFER_SIZE * Reached(r.pipe.file)
  {
    BestPass(r, Chunks(r.pipe.file), Chunks(r.pipe.file) - 3);
  }

  lemma AllBestFrames(g: Song) returns (ticks: seq<Tick>)
    requires Best(g, 0, 0) && S.INPUT_BUFFERS <= Chunks(g.pipe.file)
    ensures |Frames(g, ticks).pipe.consumed| == S.INPUT_BUFFER_SIZE * Reached(g.pipe.file)
  {
    var before, r := BestFrames(g, Chunks(g.pipe.file) + 1);
    var r';
    ticks, r' := Then(g, before, r);
    LastBestFrame(r, r');
  }

  /** The bound is the best there is: for every file there is a run that reaches it. */
  lemma BoundIsReached(s: P.Sys, name: F.Name, file: seq<byte>, blank: seq<seq<byte>>) returns (ticks: seq<Tick>)
    requires Starts(s, name) && Blank(blank) && |file| < 0x8000_0000 && s.snd != P.SndError
    ensures |Run(s, name, file, blank, ticks).pipe.consumed| == S.INPUT_BUFFER_SIZE * Reached(file)
  {
    if Chunks(file) < S.INPUT_BUFFERS {
      ticks := [];
      ShortFileIsSilent(s, name, file, blank, ticks);
    } else {
      BestBegin(s, name, file, blank);
      ticks := AllBestFrames(Begin(s, name, file, blank));
    }
  }

  // ---------------------------------------------------------------- what is heard

  predicate NoFailure(ticks: seq<Tick>) {
    forall k :: 0 <= k < |ticks| ==> !Sound.Fails(ticks[k].fates, 0, 5)
  }

  function Total(ticks: seq<Tick>): nat {
    if ticks == [] then 0 else Total(ticks[..|ticks| - 1]) + |ticks[|ticks| - 1].frames|
  }

  /** The frames synthesised: those of the turns in which the decoder took an input buffer. */
  function Synthesised(g: Song, ticks: seq<Tick>): (r: nat)
    requires Shapes(g)
    ensures r <= Total(ticks)
  {
    if ticks == [] then 0
    else
      var before, t := ticks[..|ticks| - 1], ticks[|ticks| - 1];
      var took := Frames(g, ticks).pipe.ring.tail != Frames(g, before).pipe.ring.tail;
      Synthesised(g, before) + if took then |t.frames| else 0
  }

  /** The sound loop leaves the output ring empty, having been given all that was decoded. */
  lemma HeardBeforePoll(a: P.Sys, t: Tick, failure: bool)
    requires P.Inv(a) && P.Active(a.pl) && Calm(a) && a.input.tail <= a.input.head
    requires a.output.head + |t.frames| < U32 && !Sound.Fails(t.fates, 0, 5)
    ensures var c := P.MadLoop(a, t.frames, failure); var d := P.SndLoop(c, t.fates);
            && Calm(d)
            && d.output.head == a.output.head + (if c.input.tail != a.input.tail then |t.frames| else 0)
  {
    P.DecoderFills(a, t.frames, failure);
    var c := P.MadLoop(a, t.frames, failure);
    if c.output.Backlog() == 0 {
      Sound.SoundRests(c, t.fates);
    } else {
      assert !Sound.Fails(t.fates, 0, c.output.Backlog());
      Sound.SoundPlays(c, t.fates);
    }
  }

  lemma PollKeepsOutput(d: P.Sys)
    requires P.Shapes(d)
    ensures P.PlPoll(d).output == d.output && P.PlPoll(d).snd == d.snd
  {
  }

  lemma HeardFrame(g: Song, t: Tick)
    requires Inv(g) && Calm(g.sys) && g.sys.output.head + |t.frames| < U32 && !Sound.Fails(t.fates, 0, 5)
    ensures var r := Frame(g, t);
            && Calm(r.sys)
            && r.sys.output.head == g.sys.output.head + (if r.pipe.ring.tail != g.pipe.ring.tail then |t.frames| else 0)
  {
    if P.Active(g.sys.pl) {
      var c := BeforeSound(g, t);
      FilePolled(g);
      S.PollKeeps(g.pipe);
      S.PollReads(g.pipe);
      var a := P.FsPoll(g.sys, HasData(g.pipe));
      HeardBeforePoll(a, t, t.failure || S.Pass(S.Poll(g.pipe), t.k, Gate(g)).failed);
      PollKeepsOutput(P.SndLoop(c, t.fates));
    } else {
      Sound.SoundRests(g.sys, t.fates);
      IdleFrame(g, t);
    }
  }

  lemma {:induction false} HeardFrames(g: Song, ticks: seq<Tick>)
    requires Inv(g) && Calm(g.sys) && g.sys.output.head + Total(ticks) < U32 && NoFailure(ticks)
    ensures var r := Frames(g, ticks).sys;
            Calm(r) && r.output.head == g.sys.output.head + Synthesised(g, ticks)
  {
    if ticks != [] {
      var before := ticks[..|ticks| - 1];
      HeardFrames(g, before);
      FramesKeep(g, before);
      HeardFrame(Frames(g, before), ticks[|ticks| - 1]);
    }
  }

  /** After every frame of every run with a working device, all frames synthesised so far have been
      through the output ring and none is left in it. */
  lemma EveryFrameIsHeard(s: P.Sys, name: F.Name, file: seq<byte>, blank: seq<seq<byte>>, ticks: seq<Tick>)
    requires Starts(s, name) && Blank(blank) && |file| < 0x8000_0000 && s.snd != P.SndError
    requires Total(ticks) < U32 && NoFailure(ticks)
    ensures var g := Begin(s, name, file, blank); var r := Run(s, name, file, blank, ticks).sys;
            r.output.head == r.output.tail == Synthesised(g, ticks) && r.snd != P.SndError
  {
    BestBegin(s, name, file, blank);
    HeardFrames(Begin(s, name, file, blank), ticks);
    BeginOutput(s, name, file, blank);
  }

  lemma BeginOutput(s: P.Sys, name: F.Name, file: seq<byte>, blank: seq<seq<byte>>)
    requires Starts(s, name) && Blank(blank)
    ensures Begin(s, name, file, blank).sys.output == P.EMPTY
  {
  }
}
