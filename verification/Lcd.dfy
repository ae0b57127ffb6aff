/** The packed frame buffer of the PCD8544 display and its refresh (stm32/lcd.c). */
module Lcd {
  import opened Wrappers

  const WIDTH: nat := 84
  const HEIGHT: nat := 48
  const BANKS: nat := 6       // eight pixel rows to a bank of bytes
  const SIZE: nat := 504
  const SETYADDR: nat := 0x40
  const SETXADDR: nat := 0x80

  // ---------------------------------------------------------------- pixels in bytes

  /** `1 << k`. */
  function Mask(k: nat): bv8
    requires k < 8
  {
    if k == 0 then 1 else if k == 1 then 2 else if k == 2 then 4 else if k == 3 then 8
    else if k == 4 then 16 else if k == 5 then 32 else if k == 6 then 64 else 128
  }

  predicate Bit(b: bv8, k: nat)
    requires k < 8
  {
    b & Mask(k) != 0
  }

  /** The lowest bit of a byte is the uppermost pixel of its eight. */
  lemma MaskIsShift(k: nat)
    requires k < 8
    ensures Mask(k) == (1 as bv8) << k
  {
    match k {
      case 0 =>
      case 1 =>
      case 2 =>
      case 3 =>
      case 4 =>
      case 5 =>
      case 6 =>
      case _ => assert k == 7;
    }
  }

  lemma BitAfterSet(b: bv8, j: nat, k: nat)
    requires j < 8 && k < 8
    ensures Bit(b | Mask(j), k) <==> j == k || Bit(b, k)
  {
  }

  lemma BitAfterClear(b: bv8, j: nat, k: nat)
    requires j < 8 && k < 8
    ensures Bit(b & !Mask(j), k) <==> j != k && Bit(b, k)
  {
  }

  function Index(x: nat, y: nat): (i: nat)
    requires x < WIDTH && y < HEIGHT
    ensures i < SIZE
  {
    x + (y / 8) * WIDTH
  }

  /** Two pixels share a byte exactly when they are in the same column and the same bank. */
  lemma IndexInjective(x: nat, y: nat, x': nat, y': nat)
    requires x < WIDTH && y < HEIGHT && x' < WIDTH && y' < HEIGHT
    ensures Index(x, y) == Index(x', y') <==> x == x' && y / 8 == y' / 8
  {
  }

  /** The picture in the bytes. */
  predicate Pixel(data: seq<bv8>, x: nat, y: nat)
    requires |data| == SIZE && x < WIDTH && y < HEIGHT
  {
    Bit(data[Index(x, y)], y % 8)
  }

  function Paint(b: bv8, k: nat, color: bool): bv8
    requires k < 8
  {
    if color then b | Mask(k) else b & !Mask(k)
  }

  function Put(data: seq<bv8>, x: nat, y: nat, color: bool): (r: seq<bv8>)
    requires |data| == SIZE && x < WIDTH && y < HEIGHT
    ensures |r| == SIZE
  {
    data[Index(x, y) := Paint(data[Index(x, y)], y % 8, color)]
  }

  /** Putting a pixel changes that pixel of the picture and no other. */
  lemma PutChangesOnePixel(data: seq<bv8>, x: nat, y: nat, color: bool, x': nat, y': nat)
    requires |data| == SIZE && x < WIDTH && y < HEIGHT && x' < WIDTH && y' < HEIGHT
    ensures Pixel(Put(data, x, y, color), x', y') ==
            if x' == x && y' == y then color else Pixel(data, x', y')
  {
    var b := data[Index(x, y)];
    IndexInjective(x, y, x', y');
    BitAfterSet(b, y % 8, y' % 8);
    BitAfterClear(b, y % 8, y' % 8);
    assert y == 8 * (y / 8) + y % 8 && y' == 8 * (y' / 8) + y' % 8;
  }

  // ---------------------------------------------------------------- the dirty box

  datatype Box = Box(minX: nat, minY: nat, maxX: nat, maxY: nat) {
    predicate Valid() {
      minX < WIDTH && maxX < WIDTH && maxY < HEIGHT
    }
  }

  const NO_BOX := Box(0, 0, 0, 0)

  /** `pcd8544_updatebox`, in which a smaller second minimum is stored over the first. */
  function Extend(b: Box, minX: nat, minY: nat, maxX: nat, maxY: nat): Box {
    var x := if minX < b.minX then minX else b.minX;
    Box(if minY < b.minY then minY else x, b.minY,
        if maxX > b.maxX then maxX else b.maxX, if maxY > b.maxY then maxY else b.maxY)
  }

  datatype BoxOp = Reset | Grow(minX: nat, minY: nat, maxX: nat, maxY: nat)

  function Boxes(ops: seq<BoxOp>): Box {
    if ops == [] then NO_BOX
    else
      match ops[|ops| - 1]
      case Reset => NO_BOX
      case Grow(a, b, c, d) => Extend(Boxes(ops[..|ops| - 1]), a, b, c, d)
  }

  /** Both minima stay zero over every sequence of calls, so the misplaced assignment is never
      made. */
  lemma {:induction false} MinimaStayZero(ops: seq<BoxOp>)
    ensures Boxes(ops).minX == 0 && Boxes(ops).minY == 0
  {
    if ops != [] {
      MinimaStayZero(ops[..|ops| - 1]);
    }
  }

  // ---------------------------------------------------------------- refreshing the display

  /** The refresh covers this byte. */
  predicate Covered(b: Box, k: nat) {
    var bank, column := k / WIDTH, k % WIDTH;
    && b.minX <= column <= b.maxX
    && b.minY <= (bank + 1) * 8 && bank * 8 <= b.maxY
  }

  function Refreshed(ram: seq<bv8>, data: seq<bv8>, b: Box): (r: seq<bv8>)
    requires |ram| == SIZE && |data| == SIZE
    ensures |r| == SIZE
  {
    seq(SIZE, k requires 0 <= k < SIZE => if Covered(b, k) then data[k] else ram[k])
  }

  /** The box grows to what it is given and keeps what it covered; a pixel put the ordinary way is
      refreshed. */
  lemma GrownCovers(b: Box, x: nat, y: nat, k: nat)
    requires b.minX == 0 && b.minY == 0 && x < WIDTH && y < HEIGHT && k < SIZE
    ensures Covered(Extend(b, x, y, x, y), Index(x, y))
    ensures Covered(b, k) ==> Covered(Extend(b, x, y, x, y), k)
    ensures Extend(b, x, y, x, y) ==
            Box(0, 0, if x > b.maxX then x else b.maxX, if y > b.maxY then y else b.maxY)
  {
    assert Index(x, y) / WIDTH == y / 8 && Index(x, y) % WIDTH == x;
  }

  /** A byte is refreshed exactly if its column lies inside the box and its bank touches it. */
  lemma CoveredIff(b: Box, x: nat, y: nat)
    requires x < WIDTH && y < HEIGHT
    ensures var top := y - y % 8;
            Covered(b, Index(x, y)) <==> b.minX <= x <= b.maxX && b.minY <= top + 8 && top <= b.maxY
  {
    assert Index(x, y) / WIDTH == y / 8 && Index(x, y) % WIDTH == x;
  }

  /** If a box could start below the screen's top, the misplaced assignment would matter: a pixel above
      the box would be refreshed exactly if it is not left of its own row number and its bank touches
      the old box. */
  lemma ExtendCoversIff(b: Box, x: nat, y: nat)
    requires x < WIDTH && y < HEIGHT
    ensures Covered(Extend(b, x, y, x, y), Index(x, y)) <==>
            y >= b.minY || (y <= x && b.minY <= y - y % 8 + 8)
  {
    CoveredIff(Extend(b, x, y, x, y), x, y);
  }

  /** The whole picture is shown exactly when the display agreed with it already outside the box;
      the full box always shows it. */
  lemma RefreshCompleteIff(ram: seq<bv8>, data: seq<bv8>, b: Box)
    requires |ram| == SIZE && |data| == SIZE
    ensures Refreshed(ram, data, b) == data <==>
            forall k :: 0 <= k < SIZE && !Covered(b, k) ==> ram[k] == data[k]
    ensures b == Box(0, 0, WIDTH - 1, HEIGHT - 1) ==> Refreshed(ram, data, b) == data
  {
    var r := Refreshed(ram, data, b);
    if r == data {
      forall k | 0 <= k < SIZE && !Covered(b, k)
        ensures ram[k] == data[k]
      {
        assert r[k] == data[k];
      }
    }
  }

  /** After `host_lcd_clean_screen` the box is a single byte and lazily put pixels do not enlarge it,
      so the next refresh shows the picture only if the display agreed with it in all other bytes. */
  lemma CleanedScreenRefresh(ram: seq<bv8>, data: seq<bv8>)
    requires |ram| == SIZE && |data| == SIZE
    ensures Refreshed(ram, data, NO_BOX) == data <==> ram[1..] == data[1..]
  {
    RefreshCompleteIff(ram, data, NO_BOX);
    assert forall k :: 0 <= k < SIZE ==> (Covered(NO_BOX, k) <==> k == 0);
    if forall k :: 0 <= k < SIZE && !Covered(NO_BOX, k) ==> ram[k] == data[k] {
      assert ram[1..] == data[1..];
    }
    if ram[1..] == data[1..] {
      forall k | 0 < k < SIZE
        ensures ram[k] == data[k]
      {
        assert ram[1..][k - 1] == data[1..][k - 1];
      }
    }
  }

  /** The first `n` banks have been refreshed. */
  predicate RefreshedUpTo(ram: seq<bv8>, before: seq<bv8>, data: seq<bv8>, b: Box, n: nat)
    requires |ram| == |before| == |data| == SIZE
  {
    forall k :: 0 <= k < SIZE ==>
                  ram[k] == if k / WIDTH < n && Covered(b, k) then data[k] else before[k]
  }

  /** Only the columns of the box in one bank have been copied. */
  predicate BankCopied(ram: seq<bv8>, before: seq<bv8>, data: seq<bv8>, b: Box, i: nat)
    requires |ram| == |before| == |data| == SIZE
  {
    forall k :: 0 <= k < SIZE ==>
                  ram[k] == if i * WIDTH + b.minX <= k <= i * WIDTH + b.maxX then data[k] else before[k]
  }

  lemma InBank(k: nat, i: nat, b: Box)
    requires b.Valid() && k < SIZE
    ensures i * WIDTH + b.minX <= k <= i * WIDTH + b.maxX <==>
            k / WIDTH == i && b.minX <= k % WIDTH <= b.maxX
  {
  }

  lemma BankRefreshed(start: seq<bv8>, before: seq<bv8>, ram: seq<bv8>, data: seq<bv8>, b: Box, i: nat)
    requires |start| == |before| == |ram| == |data| == SIZE && b.Valid() && i < BANKS
    requires RefreshedUpTo(before, start, data, b, i) && BankCopied(ram, before, data, b, i)
    requires b.minY <= (i + 1) * 8 && i * 8 <= b.maxY
    ensures RefreshedUpTo(ram, start, data, b, i + 1)
  {
    forall k | 0 <= k < SIZE
      ensures ram[k] == if k / WIDTH < i + 1 && Covered(b, k) then data[k] else start[k]
    {
      InBank(k, i, b);
    }
  }

  lemma AllRefreshed(start: seq<bv8>, ram: seq<bv8>, data: seq<bv8>, b: Box, n: nat)
    requires |start| == |ram| == |data| == SIZE && RefreshedUpTo(ram, start, data, b, n)
    requires n >= BANKS || n * 8 > b.maxY
    ensures ram == Refreshed(start, data, b)
  {
    forall k | 0 <= k < SIZE
      ensures ram[k] == Refreshed(start, data, b)[k]
    {
      assert k / WIDTH < BANKS;
    }
  }

  class Display {
    const data: array<bv8>
    var box: Box
    // the controller: its memory and the address that each write advances
    const ram: array<bv8>
    var x: nat
    var y: nat

    ghost predicate Valid()
      reads this
    {
      data.Length == SIZE && ram.Length == SIZE && data != ram && box.Valid() && x < WIDTH && y < BANKS
    }

    constructor ()
      ensures Valid() && fresh(data) && fresh(ram) && box == Box(0, 0, 0, 0)
    {
      data := new bv8[SIZE](_ => 0);
      ram := new bv8[SIZE](_ => 0);
      box, x, y := NO_BOX, 0, 0;
    }

    /** `pcd8544_write` in command mode. */
    method Command(b: nat)
      requires Valid() && (SETYADDR <= b < SETYADDR + BANKS || SETXADDR <= b < SETXADDR + WIDTH)
      modifies this`x, this`y
      ensures Valid()
      ensures if b >= SETXADDR then x == b - SETXADDR && y == old(y) else y == b - SETYADDR && x == old(x)
    {
      if b >= SETXADDR {
        x := b - SETXADDR;
      } else {
        y := b - SETYADDR;
      }
    }

    /** `pcd8544_write` in data mode: the controller stores the byte and advances its address. */
    method Write(v: bv8)
      requires Valid()
      modifies this`x, this`y, ram
      ensures Valid() && ram[..] == old(ram[..])[old(y) * WIDTH + old(x) := v]
      ensures if old(x) + 1 < WIDTH then x == old(x) + 1 && y == old(y)
              else x == 0 && y == (old(y) + 1) % BANKS
    {
      ram[y * WIDTH + x] := v;
      x := x + 1;
      if x == WIDTH {
        x := 0;
        y := (y + 1) % BANKS;
      }
    }

    method PutPixel(px: nat, py: nat, color: bool, lazy: bool)
      requires Valid()
      modifies data, this`box
      ensures Valid()
      ensures if px < WIDTH && py < HEIGHT then
                && data[..] == Put(old(data[..]), px, py, color)
                && box == (if lazy then old(box) else Extend(old(box), px, py, px, py))
              else data[..] == old(data[..]) && box == old(box)
    {
      if px >= WIDTH {
        return;
      }
      if py >= HEIGHT {
        return;
      }
      var i := Index(px, py);
      data[i] := Paint(data[i], py % 8, color);
      if !lazy {
        box := Extend(box, px, py, px, py);
      }
    }

    /** One bank of `pcd8544_update`: its address, then the columns of the box. */
    method UpdateBank(i: nat)
      requires Valid() && i < BANKS
      modifies this`x, this`y, ram
      ensures Valid() && BankCopied(ram[..], old(ram[..]), data[..], box, i)
    {
      Command(SETYADDR + i);
      Command(SETXADDR + box.minX);
      var j := box.minX;
      while j <= box.maxX
        invariant Valid() && box.minX <= j && (j <= box.maxX ==> x == j && y == i)
        invariant j <= box.maxX + 1 || j == box.minX
        invariant forall k :: 0 <= k < SIZE ==>
                    ram[k] == if i * WIDTH + box.minX <= k < i * WIDTH + j then data[k] else old(ram[k])
        decreases box.maxX + 1 - j
      {
        Write(data[i * WIDTH + j]);
        j := j + 1;
      }
    }

    /** `pcd8544_update` copies exactly the box to the display, then makes it the whole screen. */
    method Update()
      requires Valid()
      modifies this`x, this`y, this`box, ram
      ensures Valid() && box == Extend(old(box), 0, 0, WIDTH - 1, HEIGHT - 1)
      ensures ram[..] == Refreshed(old(ram[..]), data[..], old(box))
    {
      ghost var start := ram[..];
      var i := 0;
      while i < BANKS
        invariant Valid() && box == old(box) && data[..] == old(data[..])
        invariant 0 <= i <= BANKS && RefreshedUpTo(ram[..], start, data[..], box, i)
        decreases BANKS - i
      {
        if box.minY > (i + 1) * 8 {
          i := i + 1;
          continue;
        }
        if i * 8 > box.maxY {
          break;
        }
        ghost var before := ram[..];
        UpdateBank(i);
        BankRefreshed(start, before, ram[..], data[..], box, i);
        i := i + 1;
      }
      AllRefreshed(start, ram[..], data[..], box, i);
      box := Extend(box, 0, 0, WIDTH - 1, HEIGHT - 1);
    }

    /** The `memset` of the whole structure, box included. */
    method Clear()
      requires Valid()
      modifies data, this`box
      ensures Valid() && box == Box(0, 0, 0, 0) && data[..] == seq(SIZE, _ => 0)
    {
      for k := 0 to SIZE
        invariant forall j :: 0 <= j < k ==> data[j] == 0
      {
        data[k] := 0;
      }
      box := NO_BOX;
    }

    /** `host_lcd_draw` with the picture the resource selects, if it selects one.  Afterwards the
        display shows exactly the picture, or nothing. */
    method Draw(picture: Option<seq<bv8>>)
      requires Valid() && (picture.Some? ==> |picture.value| == SIZE)
      modifies this, data, ram
      ensures Valid() && box == Box(0, 0, WIDTH - 1, HEIGHT - 1)
      ensures ram[..] == data[..] == if picture.Some? then picture.value else seq(SIZE, _ => 0)
    {
      Clear();
      Update();
      if picture.Some? {
        for k := 0 to SIZE
          invariant Valid() && box == Box(0, 0, WIDTH - 1, HEIGHT - 1)
          invariant forall j :: 0 <= j < k ==> data[j] == picture.value[j]
        {
          data[k] := picture.value[k];
        }
        assert data[..] == picture.value;
      }
      RefreshCompleteIff(ram[..], data[..], box);
      Update();
    }
  }
}
