/** A WAV file from `pl_play` on, frame by frame (linux/main.c).

    A WAV file goes straight into the output ring.  The sound loop empties that ring in the first
    frame, `pl_poll` then takes the player for starving, and it leaves buffering again only when the
    input ring is full, which a WAV file never uses. */
module Wave {
  import opened Ring
  import P = Player
  import F = Files
  import Sound

  /** The player, and how many buffers of the file are still to be read. */
  datatype Song = Song(sys: P.Sys, left: nat)

  predicate Shapes(g: Song) {
    P.Shapes(g.sys)
  }

  /** One `frame` in which no command is given. */
  function Frame(g: Song, fates: seq<P.Fate>): (r: Song)
    requires Shapes(g)
    ensures Shapes(r)
  {
    var sys := P.Frame(g.sys, g.left > 0, false, false, [], false, fates);
    var read := g.sys.fs.handle != -1 && g.sys.output.Free() != 0;
    Song(sys, if read && g.left > 0 then g.left - 1 else g.left)
  }

  function Frames(g: Song, ticks: seq<seq<P.Fate>>): (r: Song)
    requires Shapes(g)
    ensures Shapes(r)
  {
    if ticks == [] then g else Frame(Frames(g, ticks[..|ticks| - 1]), ticks[|ticks| - 1])
  }

  /** `pl_play` found a WAV file with a good header. */
  predicate Starts(s: P.Sys, name: F.Name) {
    P.Inv(s) && name.kind == F.Riff && P.PlPlay(s, P.FileName(name)).fs.handle != -1
  }

  /** `size` is the number of output buffers that the sound data fill. */
  function Run(s: P.Sys, name: F.Name, size: nat, ticks: seq<seq<P.Fate>>): (r: Song)
    requires Starts(s, name)
    ensures Shapes(r)
  {
    Frames(Song(P.PlPlay(s, P.FileName(name)), size), ticks)
  }

  // ---------------------------------------------------------------- what every frame keeps

  /** Nothing has arrived on the input ring. */
  predicate Silent(s: P.Sys) {
    P.Inv(s) && s.input == P.EMPTY && s.net == P.NetClosed && s.source == P.FileSource
  }

  /** A file being played, with nothing for the decoder to fail on. */
  predicate Open(s: P.Sys) {
    s.fs.handle != -1 && s.fs.kind == F.Riff && s.mad == P.MadInit
  }

  /** Before the first frame; while the player waits for input that never comes; and at the end. */
  predicate Fresh(g: Song, size: nat) {
    && Silent(g.sys) && g.sys.pl == P.Playing && Open(g.sys) && g.left == size
    && g.sys.output.head == 0 && g.sys.output.tail == 0
  }

  predicate Stalled(g: Song, size: nat, head: nat) {
    && Silent(g.sys) && g.sys.pl == P.Buffering && Open(g.sys) && g.left + head == size
    && g.sys.output.tail == 1 && 1 <= head == g.sys.output.head <= 5
  }

  predicate Over(g: Song) {
    Silent(g.sys) && g.sys.pl == P.Stopped && g.sys.output.tail <= 1
  }

  /** `fs_poll` puts the next buffer of the file into the output ring if there is room, and stops at
      the end of the file. */
  lemma PollTakes(g: Song)
    requires Silent(g.sys) && Open(g.sys) && g.sys.output.head < 10 && g.sys.output.Backlog() <= 4
    ensures var a := P.FsPoll(g.sys, g.left > 0);
            && Silent(a) && a == g.sys.(output := a.output, fs := a.fs)
            && a.output.tail == g.sys.output.tail
            && a.output.head == (if g.sys.output.Backlog() == 4 then g.sys.output.head else g.sys.output.head + 1)
    ensures var a := P.FsPoll(g.sys, g.left > 0);
            && (a.fs.state == F.Closed <==> g.left == 0 && g.sys.output.Free() != 0)
            && (a.fs.state == F.Open ==> a.fs == g.sys.fs)
  {
    P.FsPollKeepsInv(g.sys, g.left > 0);
    F.StopKeeps(g.sys.fs);
    FreeTest(g.sys.output);
  }

  /** The rest of the frame does nothing but sound and `pl_poll`. */
  lemma OnlySound(g: Song, fates: seq<P.Fate>)
    requires Silent(g.sys)
    ensures var a := P.FsPoll(g.sys, g.left > 0);
            a.input == g.sys.input && a.net == P.NetClosed ==> Frame(g, fates).sys == P.PlPoll(P.SndLoop(a, fates))
  {
  }

  /** `snd_loop` of the first frame. */
  lemma FirstSound(a: P.Sys, fates: seq<P.Fate>)
    requires Silent(a) && a.pl == P.Playing && a.output.head == 1 && a.output.tail == 0
    ensures var d := P.SndLoop(a, fates);
            && Silent(d) && d == a.(snd := d.snd, output := d.output) && d.output.head == 1
            && d.output.tail <= 1
            && (d.snd != P.SndError ==> d.output.tail == 1)
            && (a.snd != P.SndError && !Sound.Fails(fates, 0, 1) ==> d.snd != P.SndError)
  {
    P.RestKeepsInv(a, P.Op.Sound(fates));
    if a.snd != P.SndError {
      Sound.SoundPlays(a, fates);
      if Sound.Fails(fates, 0, 1) {
        Sound.SoundFails(a, fates, 0);
      }
    }
  }

  /** `pl_poll` of a player with nothing on the input ring. */
  lemma PollStarves(d: P.Sys)
    requires Silent(d) && P.Active(d.pl) && d.mad == P.MadInit && d.output.tail <= d.output.head
    ensures var e := P.PlPoll(d);
            && Silent(e) && e.output == d.output && e.snd == d.snd
            && (e.pl == P.Stopped <==> d.snd == P.SndError || d.fs.state == F.Closed)
            && (e.pl != P.Stopped ==> e == d.(pl := e.pl))
            && (e.pl != P.Stopped && d.output.head == d.output.tail ==> e.pl == P.Buffering)
            && (d.pl == P.Buffering ==> e.pl != P.Playing)
  {
    P.PollKeepsInv(d);
    P.PollStopsIff(d);
    FreeTest(d.input);
  }

  lemma FirstFrame(g: Song, size: nat, fates: seq<P.Fate>)
    requires Fresh(g, size)
    ensures var r := Frame(g, fates); Over(r) || Stalled(r, size, 1)
    ensures g.sys.snd != P.SndError && !Sound.Fails(fates, 0, 1) ==>
              var r := Frame(g, fates);
              r.sys.output.tail == 1 && r.sys.snd != P.SndError && (r.sys.pl == P.Stopped <==> size == 0)
  {
    PollTakes(g);
    OnlySound(g, fates);
    var a := P.FsPoll(g.sys, size > 0);
    FirstSound(a, fates);
    PollStarves(P.SndLoop(a, fates));
  }

  lemma StalledFrame(g: Song, size: nat, head: nat, fates: seq<P.Fate>)
    requires Stalled(g, size, head)
    ensures var r := Frame(g, fates);
            && r.sys.output.tail == 1
            && (Over(r) || Stalled(r, size, if head < 5 then head + 1 else 5))
    ensures g.sys.snd != P.SndError ==>
              var r := Frame(g, fates);
              r.sys.snd != P.SndError && (r.sys.pl == P.Stopped <==> head < 5 && g.left == 0)
  {
    PollTakes(g);
    OnlySound(g, fates);
    FreeTest(g.sys.output);
    var a := P.FsPoll(g.sys, g.left > 0);
    P.RestKeepsInv(a, P.Op.Sound(fates));
    Sound.SoundRests(a, fates);
    PollStarves(P.SndLoop(a, fates));
  }

  lemma OverFrame(g: Song, fates: seq<P.Fate>)
    requires Over(g)
    ensures Over(Frame(g, fates)) && Frame(g, fates).sys.output.tail == g.sys.output.tail
    ensures g.sys.snd != P.SndError ==> Frame(g, fates).sys.snd != P.SndError
  {
    P.RestKeepsInv(g.sys, P.Op.Sound(fates));
    Sound.SoundRests(g.sys, fates);
  }

  // ---------------------------------------------------------------- every run

  lemma BeginsFresh(s: P.Sys, name: F.Name, size: nat)
    requires Starts(s, name)
    ensures Fresh(Song(P.PlPlay(s, P.FileName(name)), size), size)
  {
    P.PlayKeepsInv(s, P.FileName(name));
    P.PrepareKeepsInv(s);
    F.PlayKeeps(P.Prepare(s).fs, name);
  }

  /** Where the player stands after so many frames. */
  predicate Stands(g: Song, size: nat, n: nat) {
    if n == 0 then Fresh(g, size) else Over(g) || Stalled(g, size, if n < 5 then n else 5)
  }

  lemma {:induction false} FramesStand(g: Song, size: nat, ticks: seq<seq<P.Fate>>)
    requires Fresh(g, size)
    ensures Stands(Frames(g, ticks), size, |ticks|)
  {
    if ticks != [] {
      var before, fates := ticks[..|ticks| - 1], ticks[|ticks| - 1];
      FramesStand(g, size, before);
      var b := Frames(g, before);
      if before == [] {
        FirstFrame(b, size, fates);
      } else if Over(b) {
        OverFrame(b, fates);
      } else {
        StalledFrame(b, size, if |before| < 5 then |before| else 5, fates);
      }
    }
  }

  /** Of no WAV file is more than one buffer ever handed to the sound device. */
  lemma OneBufferIsHeard(s: P.Sys, name: F.Name, size: nat, ticks: seq<seq<P.Fate>>)
    requires Starts(s, name)
    ensures Run(s, name, size, ticks).sys.output.tail <= 1
    ensures Run(s, name, size, ticks).sys.pl == P.Playing ==> ticks == []
  {
    BeginsFresh(s, name, size);
    FramesStand(Song(P.PlPlay(s, P.FileName(name)), size), size, ticks);
  }

  /** Nothing goes wrong with the device. */
  predicate Sounding(ticks: seq<seq<P.Fate>>) {
    forall k :: 0 <= k < |ticks| ==> !Sound.Fails(ticks[k], 0, 1)
  }

  lemma {:induction false} FramesEnd(g: Song, size: nat, ticks: seq<seq<P.Fate>>)
    requires Fresh(g, size) && g.sys.snd != P.SndError && Sounding(ticks)
    ensures var r := Frames(g, ticks);
            && Stands(r, size, |ticks|) && r.sys.snd != P.SndError
            && (ticks != [] ==> r.sys.output.tail == 1)
            && (r.sys.pl == P.Stopped <==> size <= 4 && |ticks| > size)
  {
    FramesStand(g, size, ticks);
    if ticks != [] {
      var before, fates := ticks[..|ticks| - 1], ticks[|ticks| - 1];
      FramesEnd(g, size, before);
      var b := Frames(g, before);
      FramesStand(g, size, before);
      if before == [] {
        FirstFrame(b, size, fates);
      } else if Over(b) {
        OverFrame(b, fates);
      } else {
        StalledFrame(b, size, if |before| < 5 then |before| else 5, fates);
      }
    }
  }

  /** With a working device exactly the first buffer is heard.  A file of at most four buffers is over
      in the frame after its last one was read; with a longer one the player is stuck in buffering
      for good, its file open and four buffers waiting. */
  lemma StuckIff(s: P.Sys, name: F.Name, size: nat, ticks: seq<seq<P.Fate>>)
    requires Starts(s, name) && s.snd != P.SndError && Sounding(ticks) && |ticks| > 5
    ensures var r := Run(s, name, size, ticks).sys;
            && r.output.tail == 1
            && (r.pl == P.Stopped <==> size <= 4)
            && (r.pl == P.Buffering <==> size > 4)
            && (size > 4 ==> r.fs.handle != -1 && r.output.Backlog() == 4)
  {
    BeginsFresh(s, name, size);
    FramesEnd(Song(P.PlPlay(s, P.FileName(name)), size), size, ticks);
  }
}
