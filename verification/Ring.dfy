/** The rings of common/iobuffer.c and common/event.c.

    A ring is two free-running unsigned 32-bit counters over a fixed number of slots.  A push
    tests the backlog with `>`, so the backlog may reach one more than the number of slots; the
    tail slot is then also the newest slot.  A pop compares the two counters as plain unsigned
    numbers, so it is refused once the head has wrapped round and the tail has not.

    `State` is that machine.  `Log` is an independent reference: everything ever written, and
    how many pops were taken.  `RunRefines` connects the two over every run. */
module Ring {
  import opened Arithmetic
  import opened Wrappers

  const U16: nat := 0x1_0000
  const U32: nat := 0x1_0000_0000

  /** The value of a sum or difference of two unsigned 32-bit numbers. */
  function Wrap32(x: int): (r: nat)
    requires 0 - U32 <= x < 2 * U32
    ensures r < U32
  {
    if x < 0 then x + U32 else if x < U32 then x else x - U32
  }

  /** Ring sizes for which a wrapped 32-bit counter still selects the right slot. */
  predicate Capacity(max: nat) {
    0 < max < U16 - 1 && U32 % max == 0
  }

  datatype State<T> = State(head: nat, tail: nat, slots: seq<T>) {
    predicate Bounded() {
      head < U32 && tail < U32
    }

    function Backlog(): nat
      requires Bounded()
    {
      Wrap32(head - tail)
    }

    /** `io_used`: the backlog truncated to 16 bits. */
    function Used(): nat
      requires Bounded()
    {
      Backlog() % U16
    }

    /** `io_free`: the difference truncated to 16 bits, so it wraps when the ring is over-full. */
    function Free(): nat
      requires Bounded()
    {
      (|slots| - Backlog()) % U16
    }

    predicate Valid() {
      Capacity(|slots|) && Bounded() && Backlog() <= |slots| + 1
    }

    /** What is waiting, oldest first, as long as the ring is not over-full. */
    function Live(): seq<T>
      requires Valid()
    {
      seq(Backlog(), i requires 0 <= i => slots[(tail + i) % |slots|])
    }
  }

  /** `io_push` / `event_push`: the slot is chosen before an over-full ring gives up its oldest. */
  function Push<T>(s: State<T>, x: T): (r: State<T>)
    requires s.Valid()
    ensures r.Valid() && |r.slots| == |s.slots|
    ensures r.Backlog() == if s.Backlog() <= |s.slots| then s.Backlog() + 1 else s.Backlog()
  {
    var tail := if s.Backlog() > |s.slots| then Wrap32(s.tail + 1) else s.tail;
    State(Wrap32(s.head + 1), tail, s.slots[s.head % |s.slots| := x])
  }

  /** `io_pop` / `event_pop`. */
  function Pop<T>(s: State<T>): (r: (State<T>, Option<T>))
    requires s.Valid()
    ensures r.0.Valid() && r.0.slots == s.slots && r.0.head == s.head
    ensures r.1.None? ==> r.0 == s
    ensures r.1.Some? ==> s.Backlog() > 0 && r.0.Backlog() == s.Backlog() - 1
  {
    if s.head > s.tail then
      (State(s.head, s.tail + 1, s.slots), Some(s.slots[s.tail % |s.slots|]))
    else
      (s, None)
  }

  // ---------------------------------------------------------------- modular arithmetic

  /** A wrapped counter selects the same slot as the unwrapped one. */
  lemma WrapKeepsSlot(k: int, m: nat)
    requires Capacity(m)
    ensures (k % U32) % m == k % m
  {
    var c := U32 / m;
    assert U32 == c * m;
    var q := k / U32;
    assert k == k % U32 + q * U32;
    assert q * U32 == (q * c) * m;
    ModShift(k % U32, q * c, m);
  }

  lemma WrapNext(n: nat)
    ensures Wrap32(n % U32 + 1) == (n + 1) % U32
  {
  }

  lemma WrapDistance(a: nat, b: nat)
    requires b <= a < b + U32
    ensures Wrap32(a % U32 - b % U32) == a - b
  {
  }

  /** Two counters less than one lap apart select different slots. */
  lemma SlotsApart(a: int, b: int, m: nat)
    requires 0 < b - a < m
    ensures a % m != b % m
  {
    if a % m == b % m {
      assert b - a == (b / m - a / m) * m;
      MulBound(b / m - a / m, m);
    }
  }

  /** One lap further round is the same slot. */
  lemma SameSlot(a: int, m: nat)
    requires m > 0
    ensures (a + m) % m == a % m
  {
    ModShift(a, 1, m);
  }

  // ---------------------------------------------------------------- one step, seen as a queue

  lemma HeadSlot<T>(s: State<T>)
    requires s.Valid()
    ensures s.head % |s.slots| == (s.tail + s.Backlog()) % |s.slots|
  {
    WrapKeepsSlot(s.tail + s.Backlog(), |s.slots|);
  }

  /** With a slot free, a push appends to what is waiting. */
  lemma PushAppends<T>(s: State<T>, x: T)
    requires s.Valid() && s.Backlog() < |s.slots|
    ensures Push(s, x).Live() == s.Live() + [x]
  {
    var r, m := Push(s, x), |s.slots|;
    HeadSlot(s);
    forall i | 0 <= i < s.Backlog()
      ensures r.Live()[i] == s.Live()[i]
    {
      SlotsApart(s.tail + i, s.tail + s.Backlog(), m);
    }
    assert r.Live()[s.Backlog()] == x;
  }

  /** A ring that is not over-full gives up its oldest element, unless the head has wrapped. */
  lemma PopTakesOldest<T>(s: State<T>)
    requires s.Valid() && 0 < s.Backlog() <= |s.slots| && s.head > s.tail
    ensures Pop(s).1 == Some(s.Live()[0])
    ensures Pop(s).0.Live() == s.Live()[1..]
  {
    var r := Pop(s).0;
    assert r.Live() == s.Live()[1..] by {
      forall i | 0 <= i < r.Backlog()
        ensures r.Live()[i] == s.Live()[i + 1]
      {
      }
    }
  }

  /** A zero from `io_free` means exactly full; an over-full ring reports 65535 free slots, so a
      guard on `io_free` lets one more push through. */
  lemma FreeTest<T>(s: State<T>)
    requires s.Valid()
    ensures s.Free() == 0 <==> s.Backlog() == |s.slots|
    ensures s.Used() + s.Free() == |s.slots| <==> s.Backlog() <= |s.slots|
    ensures s.Backlog() == |s.slots| + 1 ==> s.Free() == 65535
  {
  }

  // ---------------------------------------------------------------- the reference

  /** Everything written since the last reset, and how far the tail has moved. */
  datatype Log<T> = Log(written: seq<T>, popped: nat) {
    predicate Ok(max: nat) {
      popped <= |written| <= popped + max + 1
    }
  }

  function LogPush<T>(l: Log<T>, max: nat, x: T): Log<T> {
    Log(l.written + [x], if |l.written| - l.popped > max then l.popped + 1 else l.popped)
  }

  /** The oldest unread element, except that an over-full ring delivers the newest one. */
  function LogPop<T>(l: Log<T>, max: nat): (Log<T>, Option<T>)
    requires l.Ok(max)
  {
    if |l.written| % U32 <= l.popped % U32 then (l, None)
    else if |l.written| - l.popped <= max then (l.(popped := l.popped + 1), Some(l.written[l.popped]))
    else (l.(popped := l.popped + 1), Some(l.written[|l.written| - 1]))
  }

  ghost predicate Refines<T>(s: State<T>, l: Log<T>) {
    Counters(s, l) && Recent(s.slots, l.written)
  }

  /** The counters of the two machines move together. */
  ghost predicate Counters<T>(s: State<T>, l: Log<T>) {
    && s.Valid() && l.Ok(|s.slots|)
    && s.head == |l.written| % U32
    && s.tail == l.popped % U32
  }

  ghost predicate Recent<T>(slots: seq<T>, written: seq<T>)
    requires |slots| > 0
  {
    forall k: int :: 0 <= k < |written| && |written| - |slots| <= k ==>
                       slots[k % |slots|] == written[k]
  }

  lemma PushRecent<T>(slots: seq<T>, written: seq<T>, x: T)
    requires |slots| > 0 && Recent(slots, written)
    ensures Recent(slots[|written| % |slots| := x], written + [x])
  {
    var m := |slots|;
    forall k: int | 0 <= k <= |written| && |written| + 1 - m <= k
      ensures slots[|written| % m := x][k % m] == (written + [x])[k]
    {
      if k < |written| {
        SlotsApart(k, |written|, m);
      }
    }
  }

  lemma PushRefines<T>(s: State<T>, l: Log<T>, x: T)
    requires Refines(s, l)
    ensures Refines(Push(s, x), LogPush(l, |s.slots|, x))
  {
    WrapDistance(|l.written|, l.popped);
    WrapNext(|l.written|);
    WrapNext(l.popped);
    WrapKeepsSlot(|l.written|, |s.slots|);
    PushRecent(s.slots, l.written, x);
  }

  lemma PopRefines<T>(s: State<T>, l: Log<T>)
    requires Refines(s, l)
    ensures Refines(Pop(s).0, LogPop(l, |s.slots|).0)
    ensures Pop(s).1 == LogPop(l, |s.slots|).1
  {
    WrapDistance(|l.written|, l.popped);
    WrapNext(l.popped);
    WrapKeepsSlot(l.popped, |s.slots|);
    if |l.written| - l.popped == |s.slots| + 1 {
      SameSlot(l.popped, |s.slots|);
      assert s.slots[(|l.written| - 1) % |s.slots|] == l.written[|l.written| - 1];
    }
  }

  // ---------------------------------------------------------------- whole runs

  datatype Op<T> = PushOp(x: T) | PopOp

  datatype Trace<T> = Trace(ring: State<T>, out: seq<T>)

  function Step<T>(t: Trace<T>, op: Op<T>): (r: Trace<T>)
    requires t.ring.Valid()
    ensures r.ring.Valid() && |r.ring.slots| == |t.ring.slots|
  {
    match op
    case PushOp(x) => Trace(Push(t.ring, x), t.out)
    case PopOp =>
      var (ring, got) := Pop(t.ring);
      Trace(ring, if got.Some? then t.out + [got.value] else t.out)
  }

  /** `io_reset_input`, `io_reset_output`, `event_init`, followed by the given calls. */
  function Run<T>(blank: seq<T>, ops: seq<Op<T>>): (r: Trace<T>)
    requires Capacity(|blank|)
    ensures r.ring.Valid() && |r.ring.slots| == |blank|
  {
    if ops == [] then Trace(State(0, 0, blank), [])
    else Step(Run(blank, ops[..|ops| - 1]), ops[|ops| - 1])
  }

  function LogRun<T>(max: nat, ops: seq<Op<T>>): (r: (Log<T>, seq<T>))
    ensures r.0.Ok(max)
  {
    if ops == [] then (Log([], 0), [])
    else
      var (l, out) := LogRun<T>(max, ops[..|ops| - 1]);
      match ops[|ops| - 1]
      case PushOp(x) => (LogPush(l, max, x), out)
      case PopOp =>
        var (l', got) := LogPop(l, max);
        (l', if got.Some? then out + [got.value] else out)
  }

  /** Over every run the slots and counters behave exactly like the reference, wraps included. */
  lemma {:induction false} RunRefines<T>(blank: seq<T>, ops: seq<Op<T>>)
    requires Capacity(|blank|)
    ensures Refines(Run(blank, ops).ring, LogRun(|blank|, ops).0)
    ensures Run(blank, ops).out == LogRun(|blank|, ops).1
  {
    if ops != [] {
      var before := ops[..|ops| - 1];
      RunRefines(blank, before);
      var s, l := Run(blank, before).ring, LogRun(|blank|, before).0;
      match ops[|ops| - 1] {
        case PushOp(x) => PushRefines(s, l, x);
        case PopOp => PopRefines(s, l);
      }
    }
  }

  function Pushed<T>(ops: seq<Op<T>>): seq<T> {
    if ops == [] then []
    else
      var before := Pushed(ops[..|ops| - 1]);
      if ops[|ops| - 1].PushOp? then before + [ops[|ops| - 1].x] else before
  }

  /** Every push of the run was made after the caller saw `io_free` different from zero. */
  predicate Guarded<T>(blank: seq<T>, ops: seq<Op<T>>)
    requires Capacity(|blank|)
  {
    ops != [] ==>
      && Guarded(blank, ops[..|ops| - 1])
      && (ops[|ops| - 1].PushOp? ==> Run(blank, ops[..|ops| - 1]).ring.Free() != 0)
  }

  /** What came out followed by what waits is what went in. */
  ghost predicate Fifo<T>(t: Trace<T>, pushed: seq<T>) {
    && t.ring.Valid() && t.ring.Backlog() <= |t.ring.slots|
    && t.ring.head == |pushed| && t.ring.tail == |t.out|
    && t.out + t.ring.Live() == pushed
  }

  lemma PushKeepsFifo<T>(t: Trace<T>, pushed: seq<T>, x: T)
    requires Fifo(t, pushed) && t.ring.Free() != 0 && |pushed| + 1 < U32
    ensures Fifo(Step(t, PushOp(x)), pushed + [x])
  {
    FreeTest(t.ring);
    PushAppends(t.ring, x);
    assert t.out + (t.ring.Live() + [x]) == pushed + [x];
  }

  lemma PopKeepsFifo<T>(t: Trace<T>, pushed: seq<T>)
    requires Fifo(t, pushed)
    ensures Fifo(Step(t, PopOp), pushed)
  {
    if t.ring.head > t.ring.tail {
      PopTakesOldest(t.ring);
      assert t.out + t.ring.Live() == (t.out + [t.ring.Live()[0]]) + t.ring.Live()[1..];
    }
  }

  /** A run whose pushes are all guarded, fewer than 2^32 of them since the reset, is an exact
      bounded queue. */
  lemma {:induction false} GuardedRunIsFifo<T>(blank: seq<T>, ops: seq<Op<T>>)
    requires Capacity(|blank|) && Guarded(blank, ops) && |Pushed(ops)| < U32
    ensures Fifo(Run(blank, ops), Pushed(ops))
    ensures Run(blank, ops).ring.Used() + Run(blank, ops).ring.Free() == |blank|
  {
    if ops != [] {
      var before := ops[..|ops| - 1];
      GuardedRunIsFifo(blank, before);
      match ops[|ops| - 1] {
        case PushOp(x) => PushKeepsFifo(Run(blank, before), Pushed(before), x);
        case PopOp => PopKeepsFifo(Run(blank, before), Pushed(before));
      }
    }
    FreeTest(Run(blank, ops).ring);
  }

  /** A pop of a ring that is not empty is refused exactly when the head has gone round 2^32 once
      more often than the tail. */
  lemma PopRefusedIffWrapped<T>(s: State<T>, l: Log<T>)
    requires Refines(s, l) && s.Backlog() > 0
    ensures Pop(s).1.None? <==> |l.written| / U32 != l.popped / U32
  {
    assert |l.written| == (|l.written| / U32) * U32 + |l.written| % U32;
    assert l.popped == (l.popped / U32) * U32 + l.popped % U32;
  }

  function Pairs<T>(x: T, n: nat): seq<Op<T>> {
    if n == 0 then [] else Pairs(x, n - 1) + [PushOp(x)] + [PopOp]
  }

  lemma {:induction false} PairsRun<T>(blank: seq<T>, x: T, n: nat)
    requires Capacity(|blank|) && n < U32
    ensures Run(blank, Pairs(x, n)).ring.head == n
    ensures Run(blank, Pairs(x, n)).ring.tail == n
  {
    if n != 0 {
      PairsRun(blank, x, n - 1);
      var before := Pairs(x, n - 1);
      var a := before + [PushOp(x)];
      var b := a + [PopOp];
      assert a[..|a| - 1] == before && b[..|b| - 1] == a;
      assert Pairs(x, n) == b;
      assert Run(blank, a) == Step(Run(blank, before), PushOp(x));
      assert Run(blank, b) == Step(Run(blank, a), PopOp);
    }
  }

  /** Such a state is reached: 2^32 - 1 push/pop pairs and one more push leave one element that
      no pop will deliver. */
  lemma WrapStrandsElement<T>(blank: seq<T>, x: T) returns (ops: seq<Op<T>>)
    requires Capacity(|blank|)
    ensures Run(blank, ops).ring.Backlog() == 1
    ensures Pop(Run(blank, ops).ring).1.None?
  {
    var before := Pairs(x, U32 - 1);
    PairsRun(blank, x, U32 - 1);
    ops := before + [PushOp(x)];
    assert ops[..|ops| - 1] == before;
    assert Run(blank, ops) == Step(Run(blank, before), PushOp(x));
  }

  // ---------------------------------------------------------------- draining

  /** What popping until refusal delivers. */
  function Drain<T>(s: State<T>): (r: seq<T>)
    requires s.Valid()
    ensures |r| <= s.Backlog()
    decreases s.Backlog()
  {
    var (s', got) := Pop(s);
    if got.None? then [] else [got.value] + Drain(s')
  }

  /** A ring that has not wrapped drains to the elements waiting, except that an over-full ring
      delivers the newest element first, in place of the oldest. */
  lemma {:induction false} DrainShape<T>(s: State<T>)
    requires s.Valid() && s.head >= s.tail
    ensures |Drain(s)| == s.Backlog()
    ensures s.Backlog() <= |s.slots| ==> Drain(s) == s.Live()
    ensures s.Backlog() == |s.slots| + 1 ==>
              Drain(s) == [s.slots[(s.head - 1) % |s.slots|]] + s.Live()[1..]
    decreases s.Backlog()
  {
    if s.head > s.tail {
      var (s', got) := Pop(s);
      DrainShape(s');
      assert s'.Live() == s.Live()[1..];
      if s.Backlog() == |s.slots| + 1 {
        SameSlot(s.tail, |s.slots|);
      } else {
        PopTakesOldest(s);
      }
    }
  }

  lemma TailsAgree<T>(a: seq<T>, b: seq<T>, k: nat)
    requires |a| == |b| && 1 <= k <= |a| && a[1..] == b[1..]
    ensures a[k..] == b[k..]
  {
    assert a[1..][k - 1..] == a[k..] && b[1..][k - 1..] == b[k..];
  }

  /** After its first element a drain is what waits, over-full or not. */
  lemma DrainTail<T>(s: State<T>, k: nat)
    requires s.Valid() && s.tail < s.head && 1 <= k <= s.Backlog()
    ensures |Drain(s)| == s.Backlog() && Drain(s)[k..] == s.Live()[k..]
  {
    DrainShape(s);
    assert Drain(s)[1..] == s.Live()[1..];
    TailsAgree(Drain(s), s.Live(), k);
  }

  /** With a slot free, a push is delivered after everything that waits. */
  lemma PushDrains<T>(s: State<T>, x: T)
    requires s.Valid() && s.Backlog() < |s.slots| && s.tail <= s.head && s.head + 1 < U32
    ensures Drain(Push(s, x)) == Drain(s) + [x]
  {
    DrainShape(s);
    PushAppends(s, x);
    DrainShape(Push(s, x));
  }

  /** A push onto a full ring overwrites the oldest element with the newest, which is then
      delivered both first and last; a push onto an over-full ring loses one element more. */
  lemma PushOverfull<T>(s: State<T>, x: T)
    requires s.Valid() && s.Backlog() >= |s.slots| && s.tail <= s.head && s.head + 1 < U32
    ensures Drain(Push(s, x)) == [x] + s.Live()[s.Backlog() - |s.slots| + 1..] + [x]
  {
    var r, m, lost := Push(s, x), |s.slots|, s.Backlog() - |s.slots|;
    DrainShape(r);
    HeadSlot(s);
    assert r.tail + m == s.head;
    SameSlot(r.tail, m);
    var rest := s.Live()[lost + 1..] + [x];
    forall i | 0 <= i < m
      ensures r.Live()[1..][i] == rest[i]
    {
      if i < m - 1 {
        SlotsApart(r.tail, r.tail + (i + 1), m);
        assert s.Live()[lost + 1 + i] == s.slots[(s.tail + (lost + 1 + i)) % m];
      }
    }
    assert r.Live()[1..] == rest;
    assert [x] + rest == [x] + s.Live()[lost + 1..] + [x];
  }

  /** All but the first one or two of the elements still to come survive such a push. */
  lemma OverfullDrains<T>(s: State<T>, x: T)
    requires s.Valid() && s.Backlog() >= |s.slots| && s.tail <= s.head && s.head + 1 < U32
    ensures var lost := s.Backlog() - |s.slots| + 1;
            lost <= |Drain(s)| && Drain(Push(s, x)) == [x] + Drain(s)[lost..] + [x]
  {
    var lost, after := s.Backlog() - |s.slots| + 1, Drain(Push(s, x));
    assert after == [x] + s.Live()[lost..] + [x] by {
      PushOverfull(s, x);
    }
    assert lost <= |Drain(s)| && Drain(s)[lost..] == s.Live()[lost..] by {
      DrainTail(s, lost);
    }
  }
}
