/** The calls of common/player.c, common/fs.c, linux/fs.c and linux/sound.c as they update their
    static variables in place. */
module PlayerDriver {
  import opened Ring
  import opened F = Files
  import opened P = Player

  class Device {
    // pl
    var pl: PlState
    var source: Source
    // fss and hfs
    var state: FsState
    var kind: FileType
    var handle: int
    var slots: seq<Slot>
    var host: seq<bool>
    ghost var leaked: nat
    // the other modules
    var net: NetState
    var snd: SndState
    var mad: MadState
    var input: Level
    var output: Level
    ghost var calls: seq<MadCall>

    ghost function FileState(): Fs
      reads this
    {
      Fs(state, kind, handle, slots, host, leaked)
    }

    ghost function Model(): Sys
      reads this
    {
      Sys(pl, source, FileState(), net, snd, mad, input, output, calls)
    }

    constructor (snd: SndState)
      ensures Model() == Start(snd) && Inv(Model())
    {
      pl, source := Stopped, NoSource;
      state, kind, handle, leaked := Closed, Unknown, -1, 0;
      slots, host := [Free, Free, Free], [false, false, false];
      net, this.snd, mad := NetClosed, snd, MadUnknown;
      input, output, calls := EMPTY, EMPTY, [];
      new;
      LifeCycle(snd, []);
    }

    method FsGetHandle() returns (r: int)
      requires Shape(FileState())
      ensures r == FirstFree(slots, 0)
    {
      var i := 0;
      while i < MAX_OPEN_FILES
        invariant 0 <= i <= MAX_OPEN_FILES && FirstFree(slots, 0) == FirstFree(slots, i)
      {
        if slots[i].Free? {
          return i;
        }
        i := i + 1;
      }
      return -1;
    }

    /** The first free entry of the host table, if the file exists. */
    method HostFsOpen(found: bool) returns (r: int)
      requires Shape(FileState())
      modifies this`host
      ensures Shape(FileState())
      ensures var h := FirstClosed(old(host), 0);
              if h != -1 && found then r == h && host == old(host)[h := true]
              else r == -1 && host == old(host)
    {
      var i := 0;
      while i < MAX_OPEN_FILES
        invariant 0 <= i <= MAX_OPEN_FILES && host == old(host)
        invariant FirstClosed(host, 0) == FirstClosed(host, i)
      {
        if !host[i] {
          if !found {
            return -1;
          }
          host := host[i := true];
          return i;
        }
        i := i + 1;
      }
      return -1;
    }

    method FsOpen(t: Try) returns (r: int)
      requires Shape(FileState())
      modifies this`slots, this`host
      ensures Shape(FileState()) && (FileState(), r) == F.FsOpen(old(FileState()), t)
    {
      r := FsGetHandle();
      if r == -1 {
        return;
      }
      var h := HostFsOpen(t.host);
      if h != -1 {
        slots := slots[r := Host(h)];
        return;
      }
      if t.res.Some? {
        slots := slots[r := Res(t.res.value)];
        return;
      }
      r := -1;
    }

    method FsClose(h: nat)
      requires Shape(FileState()) && h < MAX_OPEN_FILES
      modifies this`slots, this`host
      ensures Shape(FileState()) && FileState() == F.FsClose(old(FileState()), h)
    {
      match slots[h] {
        case Free =>
        case Host(g) =>
          if g < MAX_OPEN_FILES {
            host := host[g := false];
          }
          slots := slots[h := Free];
        case Res(_) =>
          slots := slots[h := Free];
      }
    }

    method FsStop()
      requires Shape(FileState())
      modifies this`slots, this`host, this`handle, this`state
      ensures Shape(FileState()) && FileState() == F.FsStop(old(FileState()))
    {
      if handle != -1 {
        FsClose(handle);
        handle := -1;
        state := Closed;
      }
    }

    method FsType(n: Name) returns (t: FileType)
      requires Shape(FileState())
      modifies this`slots, this`host
      ensures Shape(FileState()) && (FileState(), t) == F.FsType(old(FileState()), n)
    {
      var f := FsOpen(n.first);
      if f == -1 {
        return Missing;
      }
      FsClose(f);
      t := n.kind;
    }

    method FsOpenRiff(n: Name)
      requires Shape(FileState())
      modifies this
      ensures Shape(FileState()) && FileState() == F.FsOpenRiff(old(FileState()), n)
      ensures Model() == old(Model()).(fs := FileState())
    {
      var f := FsOpen(n.second);
      if f == -1 {
        FsStop();
        return;
      }
      if !n.headerOk {
        leaked := leaked + 1;
        FsStop();
        return;
      }
      kind, state, handle := Riff, Open, f;
    }

    method FsOpenMp3(n: Name)
      requires Shape(FileState())
      modifies this
      ensures Shape(FileState()) && FileState() == F.FsOpenMp3(old(FileState()), n)
      ensures Model() == old(Model()).(fs := FileState())
    {
      var f := FsOpen(n.second);
      if f == -1 {
        FsStop();
        return;
      }
      kind, state, handle := Mp3, Open, f;
    }

    method FsPlay(n: Name)
      requires Shape(FileState())
      modifies this
      ensures Shape(FileState()) && FileState() == F.FsPlay(old(FileState()), n)
      ensures Model() == old(Model()).(fs := FileState())
    {
      var t := FsType(n);
      match t {
        case Riff => FsOpenRiff(n);
        case Mp3 => FsOpenMp3(n);
        case Missing =>
        case Unknown =>
      }
    }

    method FsPoll(data: bool)
      requires Inv(Model())
      modifies this
      ensures Inv(Model()) && Model() == P.FsPoll(old(Model()), data)
    {
      FsPollKeepsInv(Model(), data);
      if handle == -1 {
        return;
      }
      match kind {
        case Riff =>
          if output.Free() == 0 {
            return;
          }
          output := Push(output, ());
          if !data {
            FsStop();
          }
        case Mp3 =>
          if input.Free() == 0 {
            return;
          }
          input := Push(input, ());
          if !data {
            FsStop();
          }
        case Unknown =>
        case Missing =>
      }
    }

    method PlStop()
      requires Shapes(Model())
      modifies this
      ensures Shapes(Model()) && Model() == P.PlStop(old(Model()))
    {
      if pl == Playing || pl == Buffering {
        FsStop();
        net := NetClosed;
        mad := MadDone;
        calls := calls + [CallDone];
        pl := Stopped;
      }
    }

    method Prepare()
      requires Shapes(Model())
      modifies this
      ensures Shapes(Model()) && Model() == P.Prepare(old(Model()))
    {
      PlStop();
      input, output := EMPTY, EMPTY;
      mad := MadInit;
      calls := calls + [CallInit];
    }

    /** `fs_play` and the switch on the type the file layer then shows. */
    method PlayFile(name: Name)
      requires Shapes(Model())
      modifies this
      ensures Shapes(Model())
      ensures var q := old(Model()).(source := FileSource, fs := F.FsPlay(old(FileState()), name));
              Model() == if q.fs.kind == Riff then q.(pl := Playing)
                         else if q.fs.kind == Mp3 then q.(pl := Buffering)
                         else P.PlStop(q)
    {
      source := FileSource;
      FsPlay(name);
      match kind {
        case Unknown => PlStop();
        case Missing => PlStop();
        case Riff => pl := Playing;
        case Mp3 => pl := Buffering;
      }
    }

    method PlPlay(what: What)
      requires Inv(Model())
      modifies this
      ensures Inv(Model()) && Model() == P.PlPlay(old(Model()), what)
    {
      PlayKeepsInv(Model(), what);
      Prepare();
      match what {
        case Stream(opening) =>
          source := NetSource;
          net := opening;
          pl := Buffering;
        case FileName(name) =>
          PlayFile(name);
      }
    }

    method PlPoll()
      requires Inv(Model())
      modifies this
      ensures Inv(Model()) && Model() == P.PlPoll(old(Model()))
    {
      PollKeepsInv(Model());
      var netSt, fsSt, sndSt, madSt := net, state, snd, mad;
      if pl != Playing && pl != Buffering {
        return;
      }
      if pl == Buffering && input.Free() == 0 {
        pl := Playing;
      }
      if netSt == NetError || sndSt == SndError || madSt == MadError {
        PlStop();
      }
      if pl == Playing || pl == Buffering {
        if source == FileSource && fsSt == Closed {
          PlStop();
        }
        if source == NetSource && netSt == NetClosed {
          PlStop();
        }
      }
      if pl == Playing && input.Used() == 0 && output.Used() == 0 {
        pl := Buffering;
      }
    }

    /** Pops until the ring is empty, the player is not playing or the device fails. */
    method SndLoop(fates: seq<Fate>)
      requires Inv(Model())
      modifies this`snd, this`output
      ensures Inv(Model()) && Model() == P.SndLoop(old(Model()), fates)
    {
      ghost var goal := P.SndLoop(Model(), fates);
      RestKeepsInv(Model(), P.Op.Sound(fates));
      var rest := fates;
      while true
        invariant Shapes(Model()) && P.SndLoop(Model(), rest) == goal
        invariant Model() == old(Model()).(snd := snd, output := output)
        decreases output.Backlog()
      {
        if snd == SndError {
          break;
        }
        if output.Used() == 0 {
          if snd == SndPlaying {
            snd := SndPause;
          }
          break;
        }
        if pl != Playing {
          break;
        }
        var popped := Pop(output);
        if popped.1.None? {
          snd := SndError;
          break;
        }
        output := popped.0;
        snd := Written(snd, if rest == [] then Fine else rest[0]);
        rest := if rest == [] then [] else rest[1..];
        if output.Used() == 0 {
          break;
        }
      }
    }
  }
}
