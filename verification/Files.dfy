/** The two-level table of open files: `fss.handles` (common/fs.c) over the host's own table
    (linux/fs.c), and the file that is being played. */
module Files {
  import opened Wrappers

  const MAX_OPEN_FILES: nat := 3

  datatype FsState = Closed | Open
  datatype FileType = Unknown | Missing | Riff | Mp3

  /** One entry of `fss.handles`. */
  datatype Slot = Free | Host(h: nat) | Res(r: nat)

  /** `fss` and `hfs`.  `leaked` counts the RIFF opens that were rejected after `fs_open`. */
  datatype Fs = Fs(state: FsState, kind: FileType, handle: int, slots: seq<Slot>, host: seq<bool>,
                   leaked: nat)

  const CLOSED := Fs(Closed, Unknown, -1, [Free, Free, Free], [false, false, false], 0)

  /** What the file systems answer to one attempt to open a name. */
  datatype Try = Try(host: bool, res: Option<nat>)

  /** Everything about a name that decides what happens to it: the attempt of `fs_type`, the type
      its contents show, the attempt to play it and whether a RIFF header is accepted. */
  datatype Name = Name(first: Try, kind: FileType, second: Try, headerOk: bool)

  function FirstFree(slots: seq<Slot>, from: nat): (r: int)
    requires from <= |slots|
    ensures -1 <= r < |slots|
    ensures r == -1 ==> forall k :: from <= k < |slots| ==> !slots[k].Free?
    ensures r != -1 ==> from <= r && slots[r].Free? && forall k :: from <= k < r ==> !slots[k].Free?
    decreases |slots| - from
  {
    if from == |slots| then -1 else if slots[from].Free? then from else FirstFree(slots, from + 1)
  }

  function FirstClosed(host: seq<bool>, from: nat): (r: int)
    requires from <= |host|
    ensures -1 <= r < |host|
    ensures r == -1 ==> forall k :: from <= k < |host| ==> host[k]
    ensures r != -1 ==> from <= r && !host[r] && forall k :: from <= k < r ==> host[k]
    decreases |host| - from
  {
    if from == |host| then -1 else if !host[from] then from else FirstClosed(host, from + 1)
  }

  predicate Shape(fs: Fs) {
    |fs.slots| == MAX_OPEN_FILES && |fs.host| == MAX_OPEN_FILES && -1 <= fs.handle < MAX_OPEN_FILES
  }

  /** `fs_open`: the host first, then the resources. */
  function FsOpen(fs: Fs, t: Try): (r: (Fs, int))
    requires Shape(fs)
    ensures Shape(r.0) && -1 <= r.1 < MAX_OPEN_FILES
  {
    var handle := FirstFree(fs.slots, 0);
    var h := FirstClosed(fs.host, 0);
    if handle == -1 then (fs, -1)
    else if h != -1 && t.host then (fs.(slots := fs.slots[handle := Host(h)], host := fs.host[h := true]), handle)
    else if t.res.Some? then (fs.(slots := fs.slots[handle := Res(t.res.value)]), handle)
    else (fs, -1)
  }

  /** `fs_close` of a handle in range. */
  function FsClose(fs: Fs, handle: nat): (r: Fs)
    requires Shape(fs) && handle < MAX_OPEN_FILES
    ensures Shape(r)
  {
    match fs.slots[handle]
    case Free => fs
    case Host(h) =>
      fs.(slots := fs.slots[handle := Free],
          host := if h < MAX_OPEN_FILES then fs.host[h := false] else fs.host)
    case Res(_) => fs.(slots := fs.slots[handle := Free])
  }

  /** `fs_stop`; the type of the last file is kept. */
  function FsStop(fs: Fs): (r: Fs)
    requires Shape(fs)
    ensures Shape(r)
  {
    if fs.handle == -1 then fs else FsClose(fs, fs.handle).(handle := -1, state := Closed)
  }

  /** `fs_type` opens the file, looks at its first bytes and closes it. */
  function FsType(fs: Fs, n: Name): (r: (Fs, FileType))
    requires Shape(fs)
    ensures Shape(r.0)
  {
    var (after, f) := FsOpen(fs, n.first);
    if f == -1 then (fs, Missing) else (FsClose(after, f), n.kind)
  }

  /** `fs_open_riff`: a header rejected after the open keeps its slot, because the failure path
      only releases the file being played. */
  function FsOpenRiff(fs: Fs, n: Name): (r: Fs)
    requires Shape(fs)
    ensures Shape(r)
  {
    var (after, f) := FsOpen(fs, n.second);
    if f == -1 then FsStop(fs)
    else if !n.headerOk then FsStop(after.(leaked := after.leaked + 1))
    else after.(kind := Riff, state := Open, handle := f)
  }

  function FsOpenMp3(fs: Fs, n: Name): (r: Fs)
    requires Shape(fs)
    ensures Shape(r)
  {
    var (after, f) := FsOpen(fs, n.second);
    if f == -1 then FsStop(fs) else after.(kind := Mp3, state := Open, handle := f)
  }

  function FsPlay(fs: Fs, n: Name): (r: Fs)
    requires Shape(fs)
    ensures Shape(r)
  {
    var (looked, kind) := FsType(fs, n);
    match kind
    case Riff => FsOpenRiff(looked, n)
    case Mp3 => FsOpenMp3(looked, n)
    case Missing => looked
    case Unknown => looked
  }

  // ---------------------------------------------------------------- accounting

  function Taken(s: Slot): nat {
    if s.Free? then 0 else 1
  }

  function OpenSlots(fs: Fs): nat
    requires Shape(fs)
  {
    Taken(fs.slots[0]) + Taken(fs.slots[1]) + Taken(fs.slots[2])
  }

  /** Every slot on the host names an open host entry, no two the same one, and every open host
      entry is named. */
  predicate Matched(slots: seq<Slot>, host: seq<bool>) {
    && (forall a :: 0 <= a < |slots| && slots[a].Host? ==> slots[a].h < |host| && host[slots[a].h])
    && (forall a, b :: 0 <= a < b < |slots| && slots[a].Host? && slots[b].Host? ==> slots[a].h != slots[b].h)
    && (forall h :: 0 <= h < |host| && host[h] ==> Host(h) in slots)
  }

  predicate FsInv(fs: Fs) {
    && Shape(fs) && Matched(fs.slots, fs.host)
    && (fs.handle != -1 <==> fs.state == Open)
    && (fs.handle != -1 ==> !fs.slots[fs.handle].Free? && (fs.kind == Riff || fs.kind == Mp3))
    && OpenSlots(fs) == (if fs.handle != -1 then 1 else 0) + fs.leaked
  }

  lemma MatchedOpen(slots: seq<Slot>, host: seq<bool>, a: nat, h: nat)
    requires Matched(slots, host) && a < |slots| && slots[a].Free? && h < |host| && !host[h]
    ensures Matched(slots[a := Host(h)], host[h := true])
  {
    var slots', host' := slots[a := Host(h)], host[h := true];
    forall g | 0 <= g < |host'| && host'[g]
      ensures Host(g) in slots'
    {
      if g == h {
        assert slots'[a] == Host(g);
      } else {
        var b :| 0 <= b < |slots| && slots[b] == Host(g);
        assert slots'[b] == Host(g);
      }
    }
  }

  lemma MatchedRes(slots: seq<Slot>, host: seq<bool>, a: nat, s: Slot)
    requires Matched(slots, host) && a < |slots| && !slots[a].Host? && !s.Host?
    ensures Matched(slots[a := s], host)
  {
    var slots' := slots[a := s];
    forall g | 0 <= g < |host| && host[g]
      ensures Host(g) in slots'
    {
      var b :| 0 <= b < |slots| && slots[b] == Host(g);
      assert slots'[b] == Host(g);
    }
  }

  lemma MatchedClose(slots: seq<Slot>, host: seq<bool>, a: nat)
    requires Matched(slots, host) && a < |slots| && slots[a].Host?
    ensures slots[a].h < |host| && Matched(slots[a := Free], host[slots[a].h := false])
  {
    var slots', host' := slots[a := Free], host[slots[a].h := false];
    forall g | 0 <= g < |host'| && host'[g]
      ensures Host(g) in slots'
    {
      var b :| 0 <= b < |slots| && slots[b] == Host(g);
      assert slots'[b] == Host(g);
    }
  }

  lemma AllTaken(fs: Fs)
    requires Shape(fs) && Matched(fs.slots, fs.host) && fs.host[0] && fs.host[1] && fs.host[2]
    ensures !fs.slots[0].Free? && !fs.slots[1].Free? && !fs.slots[2].Free?
  {
    assert Host(0) in fs.slots && Host(1) in fs.slots && Host(2) in fs.slots;
    var a, b, c :| 0 <= a < 3 && 0 <= b < 3 && 0 <= c < 3 &&
                   fs.slots[a] == Host(0) && fs.slots[b] == Host(1) && fs.slots[c] == Host(2);
  }

  /** When `fs_get_handle` finds a slot, the host table has one too. */
  lemma PigeonHole(fs: Fs)
    requires Shape(fs) && Matched(fs.slots, fs.host) && FirstFree(fs.slots, 0) != -1
    ensures FirstClosed(fs.host, 0) != -1
  {
    if fs.host[0] && fs.host[1] && fs.host[2] {
      AllTaken(fs);
    }
  }

  /** The slot refers to the file that was asked for: the one on the host if there is one, which takes
      the first closed host entry, and the resource of that name otherwise. */
  predicate Names(fs: Fs, r: Fs, f: nat, t: Try)
    requires Shape(fs) && Shape(r) && f < MAX_OPEN_FILES
  {
    var h := FirstClosed(fs.host, 0);
    if t.host then h != -1 && r.slots[f] == Host(h) && r.host == fs.host[h := true]
    else t.res.Some? && r.slots[f] == Res(t.res.value) && r.host == fs.host
  }

  lemma OpenKeeps(fs: Fs, t: Try)
    requires Shape(fs) && Matched(fs.slots, fs.host)
    ensures var (r, f) := FsOpen(fs, t);
            && Matched(r.slots, r.host)
            && (f == -1 ==> r == fs)
            && (f != -1 ==> fs.slots[f].Free? && !r.slots[f].Free? && OpenSlots(r) == OpenSlots(fs) + 1
                            && r == fs.(slots := fs.slots[f := r.slots[f]], host := r.host))
            && (f != -1 <==> OpenSlots(fs) < MAX_OPEN_FILES && (t.host || t.res.Some?))
            && (f != -1 ==> f == FirstFree(fs.slots, 0) && Names(fs, r, f, t))
  {
    var handle, h := FirstFree(fs.slots, 0), FirstClosed(fs.host, 0);
    if handle != -1 {
      PigeonHole(fs);
      if t.host {
        MatchedOpen(fs.slots, fs.host, handle, h);
      } else if t.res.Some? {
        MatchedRes(fs.slots, fs.host, handle, Res(t.res.value));
      }
    }
  }

  lemma CloseKeeps(fs: Fs, handle: nat)
    requires Shape(fs) && Matched(fs.slots, fs.host) && handle < MAX_OPEN_FILES
    requires !fs.slots[handle].Free?
    ensures var r := FsClose(fs, handle);
            && Matched(r.slots, r.host) && OpenSlots(r) == OpenSlots(fs) - 1
            && r.slots == fs.slots[handle := Free]
            && (forall h :: 0 <= h < MAX_OPEN_FILES ==>
                  (r.host[h] <==> fs.host[h] && fs.slots[handle] != Host(h)))
            && r == fs.(slots := r.slots, host := r.host)
  {
    if fs.slots[handle].Host? {
      MatchedClose(fs.slots, fs.host, handle);
    } else {
      MatchedRes(fs.slots, fs.host, handle, Free);
    }
  }

  lemma CloseUndoesOpen(fs: Fs, t: Try)
    requires Shape(fs) && FsOpen(fs, t).1 != -1
    ensures FsClose(FsOpen(fs, t).0, FsOpen(fs, t).1) == fs
  {
    var (after, f) := FsOpen(fs, t);
    var closed := FsClose(after, f);
    assert closed.slots == fs.slots;
    assert closed.host == fs.host;
  }

  /** Looking at a file's type leaves no trace. */
  lemma TypeLeavesNoTrace(fs: Fs, n: Name)
    requires FsInv(fs)
    ensures FsType(fs, n).0 == fs
    ensures FsType(fs, n).1 ==
            if OpenSlots(fs) < MAX_OPEN_FILES && (n.first.host || n.first.res.Some?) then n.kind else Missing
  {
    OpenKeeps(fs, n.first);
    if FsOpen(fs, n.first).1 != -1 {
      CloseUndoesOpen(fs, n.first);
    }
  }

  lemma StopKeeps(fs: Fs)
    requires FsInv(fs)
    ensures FsInv(FsStop(fs)) && FsStop(fs).handle == -1
    ensures FsStop(fs).leaked == fs.leaked && FsStop(fs).kind == fs.kind
  {
    if fs.handle != -1 {
      CloseKeeps(fs, fs.handle);
    }
  }

  /** Playing a name opens it exactly when it is found twice, its contents are of a known kind, no
      earlier rejected RIFF has used up the table, and a RIFF header is accepted; a rejected header
      leaks one slot. */
  lemma PlayKeeps(fs: Fs, n: Name)
    requires FsInv(fs) && fs.handle == -1
    ensures var r := FsPlay(fs, n);
            var found := fs.leaked < MAX_OPEN_FILES && (n.first.host || n.first.res.Some?)
                         && (n.second.host || n.second.res.Some?);
            && FsInv(r)
            && (r.handle != -1 <==> found && (n.kind == Mp3 || (n.kind == Riff && n.headerOk)))
            && r.leaked == fs.leaked + (if found && n.kind == Riff && !n.headerOk then 1 else 0)
            && r.kind == (if r.handle != -1 then n.kind else fs.kind)
            && (r.handle != -1 ==> Names(fs, r, r.handle, n.second))
  {
    TypeLeavesNoTrace(fs, n);
    OpenKeeps(fs, n.second);
  }
}
