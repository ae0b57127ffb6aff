/** The calls of libs/Audio/Audio.c as they update the shared variables in place.  Each is the run
    of its own steps of the `AudioDma` machine with nothing in between; the machine says what
    happens when something does come in between. */
module AudioDriver {
  import opened Wrappers
  import opened AudioDma

  class Audio {
    var nextSamples: nat
    var nextLength: nat
    var bufferNumber: nat
    var running: bool
    var irqEnabled: bool
    var pending: bool
    var active: Option<Buffer>
    ghost var accepted: seq<Buffer>
    ghost var programmed: seq<Buffer>
    ghost var completed: seq<Buffer>
    ghost var served: nat

    ghost function Snapshot(main: Main, handler: Handler): State
      reads this
    {
      State(nextSamples, nextLength, bufferNumber, running, irqEnabled, pending, active,
            main, handler, accepted, programmed, completed, served)
    }

    constructor ()
      ensures Snapshot(Ready, Out) == INITIAL
    {
      nextSamples, nextLength, bufferNumber, running := 0, 0, 0, false;
      irqEnabled, pending, active := true, false, None;
      accepted, programmed, completed, served := [], [], [], 0;
    }

    method StartAudioDmaAndRequestBuffers(ghost main: Main, ghost handler: Handler)
      modifies this
      ensures Snapshot(main, handler) == Commit(Program(old(Snapshot(main, handler))))
    {
      active := Some(Buffer(nextSamples, nextLength));
      programmed := programmed + [active.value];
      nextSamples := 0;
      bufferNumber := 1 - bufferNumber % 2;
      running := true;
    }

    /** Hands the buffer over if none is queued; otherwise leaves everything as it was. */
    method ProvideAudioBufferWithoutBlocking(b: Buffer) returns (ok: bool)
      requires irqEnabled && b.samples != 0
      modifies this
      ensures ok <==> old(nextSamples) == 0
      ensures ok ==> Snapshot(Ready, Out) ==
                     Steps(old(Snapshot(AtTest(b), Out)), if old(running) then 6 else 8)
      ensures !ok ==> Snapshot(AtWfi(b), Out) == Steps(old(Snapshot(AtTest(b), Out)), 1)
    {
      ghost var before := Snapshot(AtTest(b), Out);
      if nextSamples != 0 {
        ok := false;
        served := 0;
        assert Steps(before, 1) == DoMain(Steps(before, 0));
        return;
      }
      Uninterrupted(before);

      irqEnabled := false;
      nextSamples := b.samples;
      nextLength := b.length;
      accepted := accepted + [b];
      if !running {
        StartAudioDmaAndRequestBuffers(AtCommit(b), Out);
      }
      irqEnabled := true;
      ok := true;
    }

    /** `DMA1_Stream7_IRQHandler`. */
    method InterruptHandler(ghost main: Main)
      requires irqEnabled && pending
      modifies this
      ensures var once := DoHandler(Step(old(Snapshot(main, Out)), Interrupt));
              var left := if once.handler.Out? then once else DoHandler(once);
              Snapshot(left.main, Out) == left
    {
      pending := false;
      if nextSamples != 0 {
        StartAudioDmaAndRequestBuffers(main, Entered);
      } else {
        running := false;
      }
      served := served + 1;
    }
  }
}
