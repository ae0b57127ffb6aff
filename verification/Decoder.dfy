/** The streaming path as the source updates it in place: the cursor of a resource file, the slots
    of the input ring and the decoder's window, which is moved down inside its own buffer before
    the next input buffer is copied behind it. */
module Decoder {
  import opened Ring
  import opened Wrappers
  import opened DecodeGate
  import opened IoBuffer
  import opened Stream

  const MAD_BUFFER_GUARD: nat := 8

  /** One entry of the resource file system. */
  class Resource {
    const data: seq<byte>
    var pos: nat

    constructor (data: seq<byte>)
      ensures this.data == data && pos == 0
    {
      this.data, pos := data, 0;
    }

    /** `res_read` delivers the next bytes and moves the cursor past them. */
    method Read(size: nat) returns (got: seq<byte>)
      requires pos <= |data|
      modifies this
      ensures pos <= |data| && |got| == Min(size, |data| - old(pos))
      ensures data[..pos] == data[..old(pos)] + got
    {
      var toread := size;
      if pos + toread > |data| {
        toread := |data| - pos;
      }
      got := data[pos..pos + toread];
      pos := pos + toread;
    }

    /** `res_seek` stops at the end of the data. */
    method Seek(offset: nat)
      modifies this
      ensures pos == Min(offset, |data|)
    {
      if |data| >= offset {
        pos := offset;
      } else {
        pos := |data|;
      }
    }
  }

  datatype Flow = Stop | Continue

  /** `libmad_buffer` with the part of `mad_stream` that delimits the window in it. */
  class Mad {
    const buffer: array<byte>
    var next: nat
    var end: nat
    var failed: bool

    ghost predicate Valid()
      reads this, buffer
    {
      buffer.Length == LIBMAD_BUFFER_SIZE + MAD_BUFFER_GUARD && next <= end <= LIBMAD_BUFFER_SIZE
    }

    ghost function Window(): seq<byte>
      requires Valid()
      reads this, buffer
    {
      buffer[next..end]
    }

    constructor ()
      ensures Valid() && fresh(buffer) && Window() == [] && !failed
    {
      buffer := new byte[LIBMAD_BUFFER_SIZE + MAD_BUFFER_GUARD](_ => 0);
      next, end, failed := 0, 0, false;
    }

    /** `uc_memmove` towards lower addresses; source and destination may overlap. */
    method MoveDown(remain: nat)
      requires Valid() && remain == end - next
      modifies buffer
      ensures buffer[..remain] == old(Window())
    {
      var i := 0;
      while i < remain
        invariant 0 <= i <= remain
        invariant forall k :: 0 <= k < i ==> buffer[k] == old(buffer[next + k])
        invariant forall k :: i <= k < buffer.Length ==> buffer[k] == old(buffer[k])
      {
        buffer[i] := buffer[next + i];
        i := i + 1;
      }
    }

    method CopyTo(at: nat, chunk: seq<byte>)
      requires at + |chunk| <= buffer.Length
      modifies buffer
      ensures buffer[..at + |chunk|] == old(buffer[..at]) + chunk
    {
      for i := 0 to |chunk|
        invariant buffer[..at] == old(buffer[..at])
        invariant buffer[at..at + i] == chunk[..i]
      {
        buffer[at + i] := chunk[i];
      }
      assert buffer[..at + |chunk|] == buffer[..at] + buffer[at..at + |chunk|];
    }

    /** The decoder moves its start of frame, at most to the end of the window. */
    method Consume(k: nat)
      requires Valid()
      modifies this`next
      ensures Valid() && Window() == old(Window())[Min(k, |old(Window())|)..]
    {
      next := next + Min(k, end - next);
    }

    /** `libmad_input`.  On success the window has grown by exactly the buffer popped. */
    method Input(ring: Io<seq<byte>>) returns (flow: Flow)
      requires Valid() && ring.Valid() && !failed
      requires ring.slots as object != buffer
      modifies this, buffer, ring
      ensures ring.Valid() && ring.Model() == Pop(old(ring.Model())).0
      ensures var got := Pop(old(ring.Model())).1;
              match got
              case None => flow == Stop && !failed
              case Some(chunk) =>
                if |chunk| + |old(Window())| > LIBMAD_BUFFER_SIZE then flow == Stop && failed
                else
                  && !failed && Valid() && Window() == old(Window()) + chunk
                  && (flow == Stop <==> Window() == [])
    {
      var remain := end - next;
      ghost var window := Window();
      if remain != 0 {
        MoveDown(remain);
      }
      assert buffer[..remain] == window;
      var got := ring.Pop();
      match got {
        case None =>
          return Stop;
        case Some(chunk) =>
          if |chunk| + remain > LIBMAD_BUFFER_SIZE {
            failed := true;
            return Stop;
          }
          CopyTo(remain, chunk);
          if |chunk| + remain == 0 {
            assert window + chunk == Window();
            return Stop;
          }
          next, end := 0, |chunk| + remain;
          return Continue;
      }
    }
  }

  /** The file being played, the input ring and the decoder. */
  class Streamer {
    const file: Resource
    const ring: Io<seq<byte>>
    const mad: Mad
    var open: bool
    ghost var consumed: seq<byte>

    ghost predicate Valid()
      reads this, file, ring, ring.slots, mad, mad.buffer
    {
      && file.pos <= |file.data|
      && ring.Valid() && ring.slots.Length == INPUT_BUFFERS
      && (ring.slots as object) != (mad.buffer as object)
      && (mad.failed || mad.Valid())
      && (!mad.failed ==> Stream.Inv(Model(mad.Window())))
    }

    ghost function Model(window: seq<byte>): Pipe
      reads this, file, ring, ring.slots, mad
    {
      Pipe(file.data, file.pos, open, ring.Model(), window, mad.failed, consumed)
    }

    constructor (data: seq<byte>)
      requires |data| < 0x8000_0000
      ensures Valid() && fresh(file) && fresh(ring) && fresh(ring.slots) && fresh(mad)
      ensures fresh(mad.buffer)
      ensures !mad.failed && Model(mad.Window()) == Stream.Run(data, seq(INPUT_BUFFERS, _ => []), [])
    {
      file := new Resource(data);
      ring := new Io<seq<byte>>(INPUT_BUFFERS, []);
      mad := new Mad();
      open, consumed := true, [];
      new;
      EveryByteAccounted(data, seq(INPUT_BUFFERS, _ => []), []);
    }

    /** `fs_poll_mp3`. */
    method Poll()
      requires Valid() && !mad.failed
      modifies this, file, ring, ring.slots
      ensures Valid() && !mad.failed
      ensures Model(mad.Window()) == Stream.Poll(old(Model(mad.Window())))
    {
      ghost var p := Model(mad.Window());
      assert Stream.Inv(Stream.Poll(p)) by {
        PollKeeps(p);
      }
      if !open || ring.Free() == 0 {
        return;
      }
      var chunk := file.Read(INPUT_BUFFER_SIZE);
      assert chunk == file.data[old(file.pos)..file.pos];
      var _ := ring.Push(chunk);
      if |chunk| == 0 {
        open := false;
      }
    }

    /** `libmad_loop` with a decoder that consumes up to `k` bytes of the refilled window. */
    method Pass(k: nat, gate: bool)
      requires Valid() && !mad.failed
      modifies this, ring, mad, mad.buffer
      ensures Valid()
      ensures var p := Stream.Pass(old(Model(mad.Window())), k, gate);
              && mad.failed == p.failed
              && Model(if mad.failed then old(mad.Window()) else mad.Window()) == p
    {
      ghost var before := Model(mad.Window());
      PassKeeps(before, k, gate);
      if ring.Used() == 0 || !gate {
        return;
      }
      RefillKeeps(before);
      var flow := mad.Input(ring);
      if mad.failed {
        return;
      }
      consumed := consumed + mad.Window()[..Min(k, |mad.Window()|)];
      mad.Consume(k);
    }
  }
}
