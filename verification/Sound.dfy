/** The sound loop of the player (linux/sound.c) in detail: what the device gets and in which state
    it is left. */
module Sound {
  import opened Ring
  import opened Player

  /** What the sound device makes of the `i`th buffer. */
  function FateAt(fates: seq<Fate>, i: nat): Fate {
    if i < |fates| then fates[i] else Fine
  }

  predicate Fails(fates: seq<Fate>, from: nat, to: nat) {
    exists i :: from <= i < to && FateAt(fates, i) == Failure
  }

  predicate Succeeds(fates: seq<Fate>, from: nat, to: nat) {
    exists i :: from <= i < to && FateAt(fates, i) == Fine
  }

  lemma FatesShift(fates: seq<Fate>, n: nat)
    requires n > 0
    ensures var rest := if fates == [] then [] else fates[1..];
            && (Fails(fates, 1, n) <==> Fails(rest, 0, n - 1))
            && (Succeeds(fates, 1, n) <==> Succeeds(rest, 0, n - 1))
            && (n > 1 ==> FateAt(fates, n - 1) == FateAt(rest, n - 2))
  {
    var rest := if fates == [] then [] else fates[1..];
    assert forall i :: i >= 0 ==> FateAt(rest, i) == FateAt(fates, i + 1);
    if Fails(fates, 1, n) {
      var i :| 1 <= i < n && FateAt(fates, i) == Failure;
      assert FateAt(rest, i - 1) == Failure;
    }
    if Succeeds(fates, 1, n) {
      var i :| 1 <= i < n && FateAt(fates, i) == Fine;
      assert FateAt(rest, i - 1) == Fine;
    }
  }

  lemma FatesSplit(fates: seq<Fate>, n: nat)
    requires n > 0
    ensures Fails(fates, 0, n) <==> FateAt(fates, 0) == Failure || Fails(fates, 1, n)
    ensures Succeeds(fates, 0, n) <==> FateAt(fates, 0) == Fine || Succeeds(fates, 1, n)
  {
  }

  function Rest(fates: seq<Fate>): seq<Fate> {
    if fates == [] then [] else fates[1..]
  }

  /** One turn of the loop. */
  lemma OneTurn(s: Sys, fates: seq<Fate>) returns (t: Sys)
    requires Shapes(s) && s.pl == Playing && s.snd != SndError && s.output.tail < s.output.head
    ensures Shapes(t) && t.pl == Playing && t.snd == Written(s.snd, FateAt(fates, 0))
    ensures t.output.head == s.output.head && t.output.tail == s.output.tail + 1
    ensures t.output.Backlog() == s.output.Backlog() - 1
    ensures SndLoop(s, fates) == if t.output.Backlog() == 0 || t.snd == SndError then t else SndLoop(t, Rest(fates))
  {
    t := s.(output := Pop(s.output).0, snd := Written(s.snd, FateAt(fates, 0)));
  }

  /** The state of the device after the last of `n` good or bogus buffers. */
  function Left(snd: SndState, fates: seq<Fate>, n: nat): SndState
    requires n > 0
  {
    if FateAt(fates, n - 1) == Fine then SndPlaying
    else if snd == SndPlaying || Succeeds(fates, 0, n) then SndPause else snd
  }

  lemma LeftShift(snd: SndState, fates: seq<Fate>, n: nat)
    requires n > 1 && FateAt(fates, 0) != Failure && !Fails(fates, 0, n)
    ensures Left(Written(snd, FateAt(fates, 0)), Rest(fates), n - 1) == Left(snd, fates, n)
  {
    FatesSplit(fates, n);
    FatesShift(fates, n);
  }

  /** A playing frame hands every waiting buffer to the sound device, which is left playing by a good
      last buffer and paused by a bogus one after it was playing; unless a write fails. */
  lemma {:induction false} SoundPlays(s: Sys, fates: seq<Fate>)
    requires Shapes(s) && s.pl == Playing && s.snd != SndError && s.output.tail < s.output.head
    ensures var r, n := SndLoop(s, fates), s.output.Backlog();
            && (r.snd == SndError <==> Fails(fates, 0, n))
            && (!Fails(fates, 0, n) ==>
                  r.output.tail == r.output.head == s.output.head && r.snd == Left(s.snd, fates, n))
    decreases s.output.Backlog()
  {
    var n := s.output.Backlog();
    var t := OneTurn(s, fates);
    FatesSplit(fates, n);
    FatesShift(fates, n);
    if n > 1 && t.snd != SndError {
      SoundPlays(t, Rest(fates));
      if !Fails(fates, 0, n) {
        LeftShift(s.snd, fates, n);
      }
    }
  }

  /** A failed write ends the loop at once: the buffers behind it stay. */
  lemma {:induction false} SoundFails(s: Sys, fates: seq<Fate>, k: nat)
    requires Shapes(s) && s.pl == Playing && s.snd != SndError && s.output.tail < s.output.head
    requires k < s.output.Backlog() && FateAt(fates, k) == Failure && !Fails(fates, 0, k)
    ensures SndLoop(s, fates).snd == SndError && SndLoop(s, fates).output.tail == s.output.tail + k + 1
    decreases k
  {
    var t := OneTurn(s, fates);
    if k > 0 {
      FatesSplit(fates, k);
      FatesShift(fates, k);
      FatesShift(fates, k + 1);
      SoundFails(t, Rest(fates), k - 1);
    }
  }

  /** With nothing to play a playing device is paused and nothing else happens; while the player is
      not playing, buffers stay where they are. */
  lemma SoundRests(s: Sys, fates: seq<Fate>)
    requires Shapes(s) && (s.output.Backlog() == 0 || s.pl != Playing)
    ensures SndLoop(s, fates) ==
            if s.output.Backlog() == 0 && s.snd == SndPlaying then s.(snd := SndPause) else s
  {
  }

  /** A ring whose head counter has wrapped refuses its buffers, and the device is given up. */
  lemma SoundRefused(s: Sys, fates: seq<Fate>)
    requires Shapes(s) && s.pl == Playing && s.snd != SndError && s.output.head < s.output.tail
    ensures SndLoop(s, fates) == s.(snd := SndError)
  {
  }

  /** A pass and the sound loop after it: of the frames the decoder yields, as many as the ring holds
      are handed to the device in the same frame, and none is left behind. */
  lemma DecodedIsHeard(s: Sys, frames: seq<()>, failure: bool, fates: seq<Fate>)
    requires Inv(s) && s.input.tail <= s.input.head && s.output.head + |frames| < U32
    requires s.pl == Playing && s.snd != SndError && s.output.tail == s.output.head && Decodes(s)
    requires !Fails(fates, 0, 5)
    ensures var c := MadLoop(s, frames, failure); var d := SndLoop(c, fates);
            && d.output.tail == d.output.head == s.output.head + |frames|
            && d.output.tail - c.output.tail == (if |frames| <= 5 then |frames| else 5)
            && (|frames| <= 5 ==> c.output.tail == s.output.tail)
  {
    DecoderFills(s, frames, failure);
    var c := MadLoop(s, frames, failure);
    if c.output.Backlog() == 0 {
      SoundRests(c, fates);
    } else {
      assert !Fails(fates, 0, c.output.Backlog());
      SoundPlays(c, fates);
    }
  }
}
