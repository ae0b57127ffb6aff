/** The gate in front of a decoding pass (common/libmad.c) and the frames the pass puts on the
    output ring (common/iobuffer.c).  A pass pushes one output buffer per synthesised frame and
    asks for room only once, before it starts. */
module DecodeGate {
  import opened Ring

  const OUTPUT_BUFFERS: nat := 4
  const OUTPUT_BUFFER_SIZE: nat := 4608
  const LIBMAD_BUFFER_SIZE: nat := 2 * 1024 + 32
  const DECOMPRESS_SIZE: nat := LIBMAD_BUFFER_SIZE * 8

  /** `o_free_size`, truncated to 16 bits. */
  function FreeSize<T>(o: State<T>): nat
    requires o.Bounded()
  {
    (o.Free() * OUTPUT_BUFFER_SIZE) % U16
  }

  predicate GateOpen<T>(o: State<T>)
    requires o.Bounded()
  {
    FreeSize(o) >= DECOMPRESS_SIZE
  }

  predicate OutputRing<T>(o: State<T>) {
    o.Valid() && |o.slots| == OUTPUT_BUFFERS
  }

  /** The size test asks for a completely empty ring; the one other ring it lets through is the
      over-full one, whose free count has wrapped. */
  lemma GateExact<T>(o: State<T>)
    requires OutputRing(o)
    ensures GateOpen(o) <==> o.Backlog() == 0 || o.Backlog() == OUTPUT_BUFFERS + 1
  {
    var b := o.Backlog();
    assert o.Free() == if b <= 4 then 4 - b else 65535;
    assert b == 5 ==> FreeSize(o) == 60928;
  }

  function PushAll<T>(o: State<T>, frames: seq<T>): (r: State<T>)
    requires o.Valid()
    ensures r.Valid() && |r.slots| == |o.slots|
  {
    if frames == [] then o
    else Push(PushAll(o, frames[..|frames| - 1]), frames[|frames| - 1])
  }

  // ---------------------------------------------------------------- one pass

  lemma {:induction false} PushAllBacklog<T>(o: State<T>, frames: seq<T>)
    requires o.Valid() && o.Backlog() == 0 && o.head + |frames| < U32
    ensures PushAll(o, frames).head == o.head + |frames|
    ensures PushAll(o, frames).Backlog() ==
            if |frames| <= |o.slots| + 1 then |frames| else |o.slots| + 1
    ensures |frames| <= |o.slots| ==> PushAll(o, frames).Live() == frames
  {
    if frames != [] {
      var before := frames[..|frames| - 1];
      PushAllBacklog(o, before);
      if |frames| <= |o.slots| {
        PushAppends(PushAll(o, before), frames[|frames| - 1]);
      }
    } else {
      assert PushAll(o, frames).Live() == frames;
    }
  }

  /** From any fill level: the backlog grows by the number of frames up to one above the slots, and
      from there on each frame drops the oldest. */
  lemma {:induction false} PushAllLevel<T>(o: State<T>, frames: seq<T>)
    requires o.Valid() && o.head + |frames| < U32
    ensures var r := PushAll(o, frames);
            && r.head == o.head + |frames|
            && r.Backlog() == if o.Backlog() + |frames| <= |o.slots| + 1 then o.Backlog() + |frames|
                              else |o.slots| + 1
  {
    if frames != [] {
      PushAllLevel(o, frames[..|frames| - 1]);
    }
  }

  /** One frame too many: the fifth takes the slot of the first and is delivered twice. */
  lemma FifthFrame<T>(o: State<T>, frames: seq<T>)
    requires OutputRing(o) && o.Backlog() == 0 && |frames| == 5 && o.head + 5 < U32
    ensures Drain(PushAll(o, frames)) == [frames[4]] + frames[1..]
  {
    var four := PushAll(o, frames[..4]);
    PushAllBacklog(o, frames[..4]);
    assert four.Live() == frames[..4] && PushAll(o, frames) == Push(four, frames[4]);
    PushOverfull(four, frames[4]);
    FirstReplaced(frames);
  }

  lemma FirstReplaced<T>(frames: seq<T>)
    requires |frames| == 5
    ensures [frames[4]] + frames[..4][1..] + [frames[4]] == [frames[4]] + frames[1..]
  {
  }

  /** From an empty ring a pass hands every frame to the sound device, in order, exactly when it
      synthesises at most four (five identical ends apart). */
  lemma PassLosslessIff<T>(o: State<T>, frames: seq<T>)
    requires OutputRing(o) && o.Backlog() == 0 && o.head + |frames| < U32
    ensures Drain(PushAll(o, frames)) == frames <==>
            |frames| <= 4 || (|frames| == 5 && frames[0] == frames[4])
  {
    PushAllBacklog(o, frames);
    DrainShape(PushAll(o, frames));
    if |frames| == 5 {
      FifthFrame(o, frames);
      assert frames == [frames[0]] + frames[1..];
    }
  }

  // ---------------------------------------------------------------- whole runs

  /** A decoding pass with the frames it would synthesise, or one pop by the sound loop. */
  datatype Op<T> = Pass(frames: seq<T>) | Sound

  datatype Output<T> = Output(trace: Trace<T>, synthesised: seq<T>)

  function Step<T>(s: Output<T>, op: Op<T>): (r: Output<T>)
    requires OutputRing(s.trace.ring)
    ensures OutputRing(r.trace.ring)
  {
    match op
    case Pass(frames) =>
      if GateOpen(s.trace.ring) then
        Output(s.trace.(ring := PushAll(s.trace.ring, frames)), s.synthesised + frames)
      else s
    case Sound => s.(trace := Ring.Step(s.trace, PopOp))
  }

  function Run<T>(blank: seq<T>, ops: seq<Op<T>>): (r: Output<T>)
    requires |blank| == OUTPUT_BUFFERS
    ensures OutputRing(r.trace.ring)
  {
    if ops == [] then Output(Trace(State(0, 0, blank), []), [])
    else Step(Run(blank, ops[..|ops| - 1]), ops[|ops| - 1])
  }

  lemma {:induction false} PushAllKeepsFifo<T>(t: Trace<T>, pushed: seq<T>, frames: seq<T>)
    requires Fifo(t, pushed) && t.ring.Backlog() + |frames| <= |t.ring.slots|
    requires |pushed| + |frames| < U32
    ensures Fifo(t.(ring := PushAll(t.ring, frames)), pushed + frames)
    ensures PushAll(t.ring, frames).Backlog() == t.ring.Backlog() + |frames|
  {
    if frames == [] {
      assert pushed + frames == pushed;
    } else {
      var before, x := frames[..|frames| - 1], frames[|frames| - 1];
      PushAllKeepsFifo(t, pushed, before);
      var t' := t.(ring := PushAll(t.ring, before));
      FreeTest(t'.ring);
      PushKeepsFifo(t', pushed + before, x);
      assert pushed + frames == pushed + before + [x];
    }
  }

  /** If no pass synthesises more than four frames, every run plays all of them in order: what
      was played followed by what waits is what was synthesised. */
  lemma {:induction false} ShortPassesLoseNothing<T>(blank: seq<T>, ops: seq<Op<T>>)
    requires |blank| == OUTPUT_BUFFERS
    requires forall k :: 0 <= k < |ops| && ops[k].Pass? ==> |ops[k].frames| <= 4
    requires |Run(blank, ops).synthesised| < U32
    ensures Fifo(Run(blank, ops).trace, Run(blank, ops).synthesised)
  {
    if ops != [] {
      var before, op := ops[..|ops| - 1], ops[|ops| - 1];
      var s := Run(blank, before);
      assert Run(blank, ops) == Step(s, op);
      ShortPassesLoseNothing(blank, before);
      match op {
        case Pass(frames) =>
          GateExact(s.trace.ring);
          if GateOpen(s.trace.ring) {
            PushAllKeepsFifo(s.trace, s.synthesised, frames);
          }
        case Sound =>
          PopKeepsFifo(s.trace, s.synthesised);
      }
    }
  }
}
