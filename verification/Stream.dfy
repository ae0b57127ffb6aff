/** From a resource file to the MP3 decoder: `res_read` (common/resfs.c), `fs_poll_mp3`
    (common/fs.c), the input ring (common/iobuffer.c) and the carry-over of `libmad_input`
    (common/libmad.c).  The decoder itself is an oracle that consumes some prefix of its window on
    every pass. */
module Stream {
  import opened Ring
  import opened Wrappers
  import opened DecodeGate

  const INPUT_BUFFERS: nat := 4
  const INPUT_BUFFER_SIZE: nat := 1024

  datatype Pipe = Pipe(
    file: seq<byte>, pos: nat, open: bool,
    ring: State<seq<byte>>,
    window: seq<byte>, failed: bool,
    consumed: seq<byte>)

  function Min(a: nat, b: nat): nat {
    if a < b then a else b
  }

  predicate Shape(p: Pipe) {
    p.pos <= |p.file| && p.ring.Valid() && |p.ring.slots| == INPUT_BUFFERS
  }

  /** `fs_poll` on an MP3 file: at the end of the file one empty buffer is pushed and the file is
      closed. */
  function Poll(p: Pipe): (r: Pipe)
    requires Shape(p)
    ensures Shape(r)
  {
    if !p.open || p.ring.Free() == 0 then p
    else
      var n := Min(INPUT_BUFFER_SIZE, |p.file| - p.pos);
      p.(ring := Push(p.ring, p.file[p.pos..p.pos + n]), pos := p.pos + n, open := n != 0)
  }

  /** `libmad_input`: the unread rest of the window, then the next input buffer, if both fit. */
  function Refill(p: Pipe): (r: Pipe)
    requires Shape(p)
    ensures Shape(r)
  {
    var (ring, got) := Pop(p.ring);
    match got
    case None => p
    case Some(chunk) =>
      if |chunk| + |p.window| > LIBMAD_BUFFER_SIZE then p.(ring := ring, failed := true)
      else p.(ring := ring, window := p.window + chunk)
  }

  function Consume(p: Pipe, k: nat): Pipe {
    var n := Min(k, |p.window|);
    p.(window := p.window[n..], consumed := p.consumed + p.window[..n])
  }

  /** One `libmad_loop`, in which the decoder consumes `k` bytes.  `gate` stands for the player not
      buffering and the output ring having room. */
  function Pass(p: Pipe, k: nat, gate: bool): (r: Pipe)
    requires Shape(p)
    ensures Shape(r)
  {
    if p.failed || p.ring.Used() == 0 || !gate then p
    else
      var q := Refill(p);
      if q.failed then q else Consume(q, k)
  }

  // ---------------------------------------------------------------- conservation

  function Flat(chunks: seq<seq<byte>>): seq<byte> {
    if chunks == [] then [] else chunks[0] + Flat(chunks[1..])
  }

  lemma {:induction false} FlatAppend(chunks: seq<seq<byte>>, c: seq<byte>)
    ensures Flat(chunks + [c]) == Flat(chunks) + c
  {
    if chunks == [] {
      assert Flat([c]) == c + Flat([]) == c;
    } else {
      FlatAppend(chunks[1..], c);
      assert (chunks + [c])[1..] == chunks[1..] + [c];
      assert chunks[0] + (Flat(chunks[1..]) + c) == chunks[0] + Flat(chunks[1..]) + c;
    }
  }

  /** Consumed, waiting in the window and waiting in the ring: together the file as read so far. */
  predicate Conserved(p: Pipe)
    requires Shape(p)
  {
    p.consumed + p.window + Flat(p.ring.Live()) == p.file[..p.pos]
  }

  predicate Inv(p: Pipe) {
    && Shape(p) && |p.file| < 0x8000_0000
    && p.ring.Backlog() <= INPUT_BUFFERS && p.ring.tail <= p.ring.head
    && p.ring.head <= p.pos + (if p.open then 0 else 1)
    && (!p.open ==> p.pos == |p.file|)
    && (!p.failed ==> |p.window| <= LIBMAD_BUFFER_SIZE && Conserved(p))
  }

  lemma AppendChunk(p: Pipe, chunk: seq<byte>)
    requires Shape(p) && Conserved(p) && p.ring.Backlog() < INPUT_BUFFERS
    requires p.pos + |chunk| <= |p.file| && chunk == p.file[p.pos..p.pos + |chunk|]
    ensures p.consumed + p.window + Flat(Push(p.ring, chunk).Live()) == p.file[..p.pos + |chunk|]
  {
    PushAppends(p.ring, chunk);
    FlatAppend(p.ring.Live(), chunk);
    assert p.file[..p.pos] + chunk == p.file[..p.pos + |chunk|];
    assert p.consumed + p.window + (Flat(p.ring.Live()) + chunk) ==
           p.consumed + p.window + Flat(p.ring.Live()) + chunk;
  }

  lemma PollKeeps(p: Pipe)
    requires Inv(p)
    ensures Inv(Poll(p)) && Poll(p).consumed == p.consumed && Poll(p).failed == p.failed
  {
    FreeTest(p.ring);
    if p.open && p.ring.Free() != 0 && !p.failed {
      var n := Min(INPUT_BUFFER_SIZE, |p.file| - p.pos);
      AppendChunk(p, p.file[p.pos..p.pos + n]);
    }
  }

  lemma RefillKeeps(p: Pipe)
    requires Inv(p) && !p.failed && p.ring.Backlog() > 0
    ensures Inv(Refill(p))
    ensures Refill(p).failed <==> |p.window| + |p.ring.Live()[0]| > LIBMAD_BUFFER_SIZE
    ensures Refill(p).consumed == p.consumed
  {
    PopTakesOldest(p.ring);
    var live := p.ring.Live();
    assert p.consumed + p.window + (live[0] + Flat(live[1..])) ==
           p.consumed + (p.window + live[0]) + Flat(live[1..]);
  }

  lemma PassKeeps(p: Pipe, k: nat, gate: bool)
    requires Inv(p)
    ensures Inv(Pass(p, k, gate)) && p.consumed <= Pass(p, k, gate).consumed
  {
    if !(p.failed || p.ring.Used() == 0 || !gate) {
      RefillKeeps(p);
      var q := Refill(p);
      if !q.failed {
        var n := Min(k, |q.window|);
        assert q.window == q.window[..n] + q.window[n..];
        var rest := Flat(q.ring.Live());
        assert q.consumed + q.window + rest == (q.consumed + q.window[..n]) + q.window[n..] + rest;
      }
    }
  }

  datatype Event = PollEvent | PassEvent(k: nat, gate: bool)

  /** The state `pl_play` leaves after opening an MP3 resource, followed by the given calls. */
  function Run(file: seq<byte>, blank: seq<seq<byte>>, es: seq<Event>): (r: Pipe)
    requires |blank| == INPUT_BUFFERS
    ensures Shape(r) && r.file == file
  {
    if es == [] then Pipe(file, 0, true, State(0, 0, blank), [], false, [])
    else
      var p := Run(file, blank, es[..|es| - 1]);
      match es[|es| - 1]
      case PollEvent => Poll(p)
      case PassEvent(k, gate) => Pass(p, k, gate)
  }

  /** For every resource file and every interleaving of file polls and decoder passes, until the
      decoder overflows its window no byte is lost, repeated or reordered. */
  lemma {:induction false} EveryByteAccounted(file: seq<byte>, blank: seq<seq<byte>>, es: seq<Event>)
    requires |blank| == INPUT_BUFFERS && |file| < 0x8000_0000
    ensures var p := Run(file, blank, es);
            && Inv(p)
            && (!p.failed ==> p.consumed + p.window + Flat(p.ring.Live()) == file[..p.pos])
            && (!p.failed && !p.open ==> p.consumed + p.window + Flat(p.ring.Live()) == file)
            && (!p.failed ==> p.consumed <= file)
  {
    if es != [] {
      var p := Run(file, blank, es[..|es| - 1]);
      EveryByteAccounted(file, blank, es[..|es| - 1]);
      match es[|es| - 1] {
        case PollEvent => PollKeeps(p);
        case PassEvent(k, gate) => PassKeeps(p, k, gate);
      }
    } else {
      assert Run(file, blank, es).ring.Live() == [];
    }
    var p := Run(file, blank, es);
    if !p.failed {
      assert p.file[..|p.file|] == p.file;
      assert p.consumed <= p.consumed + p.window + Flat(p.ring.Live());
    }
  }

  // ---------------------------------------------------------------- chunks and the end of the file

  predicate Sized(chunks: seq<seq<byte>>) {
    forall i :: 0 <= i < |chunks| ==> 0 < |chunks[i]| <= INPUT_BUFFER_SIZE
  }

  /** While the file is open, each push is one chunk of it, and what left the ring is at most one
      chunk for each pop. */
  predicate Reading(p: Pipe)
    requires Shape(p)
  {
    && p.pos == Min(INPUT_BUFFER_SIZE * p.ring.head, |p.file|)
    && (p.ring.head > 0 ==> INPUT_BUFFER_SIZE * (p.ring.head - 1) < |p.file|)
    && Sized(p.ring.Live())
    && |p.consumed| + |p.window| <= INPUT_BUFFER_SIZE * p.ring.tail
  }

  lemma PollReads(p: Pipe)
    requires Inv(p) && !p.failed && p.open && Reading(p)
    ensures Poll(p).open ==> Reading(Poll(p))
    ensures !Poll(p).open <==> p.ring.Free() != 0 && p.pos == |p.file|
    ensures Poll(p).ring.tail == p.ring.tail
    ensures Poll(p).ring.head == if p.ring.Free() != 0 then p.ring.head + 1 else p.ring.head
    ensures p.ring.Free() != 0 <==> p.ring.Backlog() < INPUT_BUFFERS
  {
    FreeTest(p.ring);
    if p.ring.Free() != 0 {
      var n := Min(INPUT_BUFFER_SIZE, |p.file| - p.pos);
      PushAppends(p.ring, p.file[p.pos..p.pos + n]);
    }
  }

  lemma PassReads(p: Pipe, k: nat, gate: bool)
    requires Inv(p) && !p.failed && Reading(p)
    ensures !Pass(p, k, gate).failed ==> Reading(Pass(p, k, gate))
  {
    if p.ring.Used() != 0 && gate {
      PopTakesOldest(p.ring);
    }
  }

  /** So it is over every run. */
  lemma {:induction false} ReadsInChunks(file: seq<byte>, blank: seq<seq<byte>>, es: seq<Event>)
    requires |blank| == INPUT_BUFFERS && |file| < 0x8000_0000
    ensures var p := Run(file, blank, es); p.open && !p.failed ==> Reading(p)
  {
    if es != [] {
      var before := es[..|es| - 1];
      var p := Run(file, blank, before);
      ReadsInChunks(file, blank, before);
      EveryByteAccounted(file, blank, before);
      if p.open && !p.failed {
        match es[|es| - 1] {
          case PollEvent => PollReads(p);
          case PassEvent(k, gate) => PassReads(p, k, gate);
        }
      }
    }
  }

  /** Every chunk waiting is full, but for the last of the file. */
  predicate FullBefore(p: Pipe)
    requires Shape(p)
  {
    forall i :: 0 <= i < |p.ring.Live()| ==>
      INPUT_BUFFER_SIZE * (p.ring.tail + i + 1) <= |p.file| ==> |p.ring.Live()[i]| == INPUT_BUFFER_SIZE
  }

  lemma PollFull(p: Pipe)
    requires Inv(p) && !p.failed && p.open && Reading(p) && FullBefore(p)
    ensures FullBefore(Poll(p))
  {
    FreeTest(p.ring);
    if p.ring.Free() != 0 {
      var n := Min(INPUT_BUFFER_SIZE, |p.file| - p.pos);
      PushAppends(p.ring, p.file[p.pos..p.pos + n]);
      var live := p.ring.Live();
      assert |live| == p.ring.head - p.ring.tail;
      assert Poll(p).ring.Live() == live + [p.file[p.pos..p.pos + n]];
    }
  }

  /** A decoder that takes everything it is given. */
  lemma PassAll(p: Pipe)
    requires Inv(p) && !p.failed && p.window == [] && p.ring.Backlog() > 0 && FullBefore(p)
    requires INPUT_BUFFER_SIZE * (p.ring.tail + 1) <= |p.file|
    ensures var r := Pass(p, INPUT_BUFFER_SIZE, true);
            && !r.failed && r.window == [] && r.ring.tail == p.ring.tail + 1 && r.ring.head == p.ring.head
            && |r.consumed| == |p.consumed| + INPUT_BUFFER_SIZE && FullBefore(r)
  {
    PopTakesOldest(p.ring);
    var live, r := p.ring.Live(), Pass(p, INPUT_BUFFER_SIZE, true);
    assert |live[0]| == INPUT_BUFFER_SIZE && p.window + live[0] == live[0];
    assert r.ring.Live() == live[1..];
    forall i | 0 <= i < |r.ring.Live()| && INPUT_BUFFER_SIZE * (r.ring.tail + i + 1) <= |p.file|
      ensures |r.ring.Live()[i]| == INPUT_BUFFER_SIZE
    {
      assert r.ring.Live()[i] == live[i + 1];
      assert INPUT_BUFFER_SIZE * (p.ring.tail + (i + 1) + 1) <= |p.file|;
    }
  }

  lemma {:induction false} FlatEmpty(chunks: seq<seq<byte>>)
    requires Sized(chunks)
    ensures Flat(chunks) == [] <==> chunks == []
  {
  }

  lemma WholeIff<T>(a: seq<T>, b: seq<T>, c: seq<T>, whole: seq<T>)
    requires a + b + c == whole
    ensures a == whole <==> |b| + |c| == 0
  {
  }

  lemma ConsumedIff(p: Pipe)
    requires Inv(p) && !p.failed && !p.open
    ensures p.consumed == p.file <==> |p.window| + |Flat(p.ring.Live())| == 0
  {
    assert p.file[..p.pos] == p.file;
    WholeIff(p.consumed, p.window, Flat(p.ring.Live()), p.file);
  }

  /** What a pass leaves in window and ring. */
  lemma PassLeaves(p: Pipe, k: nat)
    requires Inv(p) && !p.failed && p.ring.Backlog() > 0
    ensures var live := p.ring.Live(); var r := Pass(p, k, true);
            && (r.failed <==> |p.window| + |live[0]| > LIBMAD_BUFFER_SIZE)
            && (r.failed ==> r.consumed == p.consumed)
            && (!r.failed ==> Inv(r) && r.open == p.open && r.ring.Live() == live[1..]
                              && (r.window == [] <==> |p.window| + |live[0]| <= k))
  {
    RefillKeeps(p);
    PassKeeps(p, k, true);
    PopTakesOldest(p.ring);
  }

  /** The pass after the poll that met the end of the file.  The poll put an empty chunk behind those
      waiting. */
  lemma PassAtEnd(p: Pipe, live: seq<seq<byte>>, k: nat, gate: bool)
    requires Inv(p) && !p.failed && !p.open && p.ring.Live() == live + [[]] && Sized(live)
    ensures var total := |p.window| + |Flat(live)|;
            Pass(p, k, gate).consumed == p.file <==>
            total == 0 || (gate && |live| <= 1 && total <= LIBMAD_BUFFER_SIZE && total <= k)
  {
    FlatAppend(live, []);
    ConsumedIff(p);
    if gate {
      assert p.ring.Backlog() == |p.ring.Live()|;
      PassLeaves(p, k);
      FirstAndRest(live);
      var r := Pass(p, k, true);
      if !r.failed {
        ConsumedIff(r);
      }
    }
  }

  lemma FirstAndRest(live: seq<seq<byte>>)
    requires Sized(live)
    ensures var all := live + [[]];
            && (|live| <= 1 ==> |Flat(live)| == |all[0]|)
            && (Flat(all[1..]) == [] <==> |live| <= 1)
            && (Flat(live) == [] <==> live == [])
  {
    FlatEmpty(live);
    if live != [] {
      assert (live + [[]])[1..] == live[1..] + [[]];
      FlatAppend(live[1..], []);
      FlatEmpty(live[1..]);
    }
  }

  /** The frame that meets the end of the file polls it and makes one more pass.  The whole file has
      been consumed after it exactly when nothing was waiting, or the gate let the pass run, at most
      one chunk was waiting, and the pass took it and the window to the last byte. */
  lemma AllConsumedIff(p: Pipe, k: nat, gate: bool)
    requires Inv(p) && !p.failed && p.open && Reading(p) && p.pos == |p.file| && p.ring.Free() != 0
    ensures var live := p.ring.Live();
            var total := |p.window| + |Flat(live)|;
            Pass(Poll(p), k, gate).consumed == p.file <==>
            total == 0 || (gate && |live| <= 1 && total <= LIBMAD_BUFFER_SIZE && total <= k)
  {
    PollKeeps(p);
    FreeTest(p.ring);
    assert p.file[p.pos..p.pos] == [];
    PushAppends(p.ring, []);
    PassAtEnd(Poll(p), p.ring.Live(), k, gate);
  }
}
