/** A radio stream from the opened connection to the first sound, frame by frame (linux/main.c,
    linux/net.c). */
module Radio {
  import opened Ring
  import P = Player

  /** What happens in one frame: a packet may arrive; the decoder and the sound device do as they
      like. */
  datatype Tick = Tick(packet: bool, frames: seq<()>, fates: seq<P.Fate>)

  function Frame(s: P.Sys, t: Tick): (r: P.Sys)
    requires P.Shapes(s)
    ensures P.Shapes(r)
  {
    P.Frame(s, false, t.packet, false, t.frames, false, t.fates)
  }

  function Frames(s: P.Sys, ticks: seq<Tick>): (r: P.Sys)
    requires P.Shapes(s)
    ensures P.Shapes(r)
  {
    if ticks == [] then s else Frame(Frames(s, ticks[..|ticks| - 1]), ticks[|ticks| - 1])
  }

  function Packets(ticks: seq<Tick>): nat {
    if ticks == [] then 0
    else Packets(ticks[..|ticks| - 1]) + (if ticks[|ticks| - 1].packet then 1 else 0)
  }

  /** A connection that is open, with `n` packets waiting and nothing played. */
  predicate Collecting(s: P.Sys, n: nat) {
    && P.Inv(s) && s.source == P.NetSource && s.net == P.NetOpen && s.mad == P.MadInit && s.snd != P.SndError
    && s.input.tail == 0 && s.input.head == n && s.output.head == 0 && s.output.tail == 0
    && s.pl == P.Buffering && n < 4
  }

  /** A packet goes into the input ring exactly if there is room. */
  lemma PacketTaken(s: P.Sys, packet: bool, failure: bool)
    requires P.Inv(s) && s.net == P.NetOpen && s.input.tail <= s.input.head && s.input.head + 1 < U32
    ensures var r := P.NetPoll(s, packet, failure);
            && r.input.tail == s.input.tail
            && r.input.head == (if packet && s.input.Backlog() < 4 then s.input.head + 1 else s.input.head)
            && r == s.(input := r.input, net := r.net)
            && (r.net == P.NetError <==> failure && s.input.Backlog() < 4) && r.net != P.NetClosed
  {
    FreeTest(s.input);
  }

  lemma CollectingFrame(s: P.Sys, n: nat, t: Tick)
    requires Collecting(s, n)
    ensures var r, m := Frame(s, t), if t.packet then n + 1 else n;
            if m < 4 then Collecting(r, m)
            else r.pl == P.Playing && r.input.Backlog() == 4 && r.input.tail == 0
  {
    PacketTaken(s, t.packet, false);
    var b := P.NetPoll(s, t.packet, false);
    P.RestKeepsInv(s, P.NetworkPoll(t.packet, false));
    assert P.MadLoop(b, t.frames, false) == b;
    var d := P.SndLoop(b, t.fates);
    P.RestKeepsInv(b, P.Op.Sound(t.fates));
    P.PollKeepsInv(d);
    FreeTest(d.input);
  }

  lemma {:induction false} CollectingFrames(s: P.Sys, ticks: seq<Tick>)
    requires Collecting(s, 0) && Packets(ticks) < 4
    ensures Collecting(Frames(s, ticks), Packets(ticks))
  {
    if ticks != [] {
      var before, t := ticks[..|ticks| - 1], ticks[|ticks| - 1];
      CollectingFrames(s, before);
      CollectingFrame(Frames(s, before), Packets(before), t);
    }
  }

  /** Whatever decoder and sound device do, nothing is decoded or played before the fourth packet,
      and the frame that brings it starts the playing. */
  lemma PlaysFromFourthPacket(s: P.Sys, ticks: seq<Tick>, t: Tick)
    requires P.Inv(s) && s.snd != P.SndError && Packets(ticks) < 4
    ensures var p := P.PlPlay(s, P.Stream(P.NetOpen)); var r := Frames(p, ticks);
            && r.pl == P.Buffering && r.input.Backlog() == Packets(ticks)
            && r.input.tail == 0 && r.output.head == 0
            && (Frame(r, t).pl == P.Playing <==> Packets(ticks) == 3 && t.packet)
  {
    P.PlayKeepsInv(s, P.Stream(P.NetOpen));
    var p := P.PlPlay(s, P.Stream(P.NetOpen));
    CollectingFrames(p, ticks);
    CollectingFrame(Frames(p, ticks), Packets(ticks), t);
  }

  /** A stream that could not be opened, or whose connection is closed, is stopped by the first poll;
      one that is open or pending is not. */
  lemma FirstPollStopsIff(s: P.Sys, net: P.NetState)
    requires P.Inv(s) && s.snd != P.SndError
    ensures P.PlPoll(P.PlPlay(s, P.Stream(net))).pl == P.Stopped <==> net == P.NetClosed || net == P.NetError
  {
    P.PlayKeepsInv(s, P.Stream(net));
    P.PrepareKeepsInv(s);
    P.PollStopsIff(P.PlPlay(s, P.Stream(net)));
  }

  /** A pending connection neither plays nor stops until it is answered, and stops if it fails. */
  lemma PendingWaits(s: P.Sys, data: bool, packet: bool, failure: bool, frames: seq<()>, broken: bool,
                     fates: seq<P.Fate>, ok: bool)
    requires P.Inv(s) && s.net == P.NetPending && s.pl == P.Buffering && s.snd != P.SndError
    requires s.mad == P.MadInit && s.input.head == s.input.tail
    ensures var r := P.Frame(s, data, packet, failure, frames, broken, fates);
            r.pl == P.Buffering && r.net == P.NetPending && r.input == s.input
    ensures var r := P.NetAnswer(s, ok);
            r == s.(net := if ok then P.NetOpen else P.NetError) && (P.PlPoll(r).pl == P.Stopped <==> !ok)
  {
    FreeTest(s.input);
    var d := P.SndLoop(s, fates);
    P.RestKeepsInv(s, P.Op.Sound(fates));
    P.RestKeepsInv(s, P.NetworkAnswer(ok));
    P.PollStopsIff(P.NetAnswer(s, ok));
  }
}
