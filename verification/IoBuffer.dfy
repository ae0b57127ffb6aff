/** `struct io_s` and the calls on it, as common/iobuffer.c updates them in place. */
module IoBuffer {
  import opened Ring
  import opened Wrappers

  /** `struct io_s` with its buffers.  A push hands the caller a reset slot which the caller fills
      before anything else looks at the ring, so the element is an argument here. */
  class Io<T(0)> {
    var head: nat
    var tail: nat
    const slots: array<T>

    ghost predicate Valid()
      reads this, slots
    {
      Model().Valid()
    }

    ghost function Model(): State<T>
      reads this, slots
    {
      State(head, tail, slots[..])
    }

    constructor (max: nat, blank: T)
      requires Capacity(max)
      ensures Valid() && fresh(slots) && slots.Length == max
      ensures Model() == Run(seq(max, _ => blank), []).ring
    {
      slots := new T[max](_ => blank);
      head, tail := 0, 0;
      new;
      assert slots[..] == seq(max, _ => blank);
    }

    /** `i_used`, `o_used`. */
    function Used(): (n: nat)
      requires Valid()
      reads this, slots
      ensures n == Model().Used()
    {
      Wrap32(head - tail) % U16
    }

    /** `i_free`, `o_free`. */
    function Free(): (n: nat)
      requires Valid()
      reads this, slots
      ensures n == Model().Free()
    {
      (slots.Length - Wrap32(head - tail)) % U16
    }

    method Reset(blank: T)
      requires Valid()
      modifies this, slots
      ensures Valid()
      ensures Model() == Run(seq(slots.Length, _ => blank), []).ring
    {
      head, tail := 0, 0;
      for index := 0 to slots.Length
        invariant head == tail == 0
        invariant forall k :: 0 <= k < index ==> slots[k] == blank
      {
        slots[index] := blank;
      }
      assert slots[..] == seq(slots.Length, _ => blank);
    }

    method Push(x: T) returns (index: nat)
      requires Valid()
      modifies this, slots
      ensures Valid()
      ensures Model() == Ring.Push(old(Model()), x)
      ensures index < slots.Length && slots[index] == x
    {
      index := head % slots.Length;
      if Wrap32(head - tail) > slots.Length {
        tail := Wrap32(tail + 1);
      }
      head := Wrap32(head + 1);
      slots[index] := x;
    }

    method Pop() returns (got: Option<T>)
      requires Valid()
      modifies this
      ensures Valid()
      ensures (Model(), got) == Ring.Pop(old(Model()))
    {
      if head > tail {
        got := Some(slots[tail % slots.Length]);
        tail := tail + 1;
      } else {
        got := None;
      }
    }

    /** `o_peek` names the element the next pop will take. */
    method Peek() returns (got: Option<T>)
      requires Valid()
      ensures got == Ring.Pop(Model()).1
    {
      if head > tail {
        got := Some(slots[tail % slots.Length]);
      } else {
        got := None;
      }
    }
  }
}
