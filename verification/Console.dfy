/** The console line editor and its input lock (common/console.c). */
module Console {
  import opened Cmd

  /** The lock, and the characters kept so far. */
  datatype Con = Con(locked: bool, line: Text)

  function InputPush(c: Con, ch: int): Con {
    if c.locked || |c.line| >= LINE_SIZE then c else c.(line := c.line + [ch])
  }

  function InputDel(c: Con): Con {
    if c.line == [] then c else c.(line := c.line[..|c.line| - 1])
  }

  const FRESH := Con(false, [])

  /** The string a reader of the buffer finds: the characters before the first NUL. */
  function CString(memory: Text): (r: Text)
    ensures NUL !in r && r <= memory
    ensures NUL in memory ==> |r| < |memory| && memory[|r|] == NUL
  {
    if memory == [] || memory[0] == NUL then [] else [memory[0]] + CString(memory[1..])
  }

  lemma {:induction false} CStringPadded(line: Text, pad: Text)
    requires NUL !in line && (pad == [] || pad[0] == NUL)
    ensures CString(line + pad) == line
  {
    if line != [] {
      CStringPadded(line[1..], pad);
      assert (line + pad)[1..] == line[1..] + pad;
    } else {
      assert line + pad == pad;
    }
  }

  class Editor {
    var lock: bool
    var index: nat
    const input: array<int>

    ghost predicate Valid()
      reads this, input
    {
      && input.Length == LINE_SIZE && index <= LINE_SIZE
      && forall k :: index <= k < LINE_SIZE ==> input[k] == NUL
    }

    ghost function Model(): Con
      requires Valid()
      reads this, input
    {
      Con(lock, input[..index])
    }

    constructor ()
      ensures Valid() && fresh(input) && Model() == FRESH
    {
      input := new int[LINE_SIZE](_ => NUL);
      lock, index := false, 0;
    }

    method Push(ch: int)
      requires Valid()
      modifies this, input
      ensures Valid() && Model() == InputPush(old(Model()), ch)
    {
      if lock || index >= LINE_SIZE {
        return;
      }
      input[index] := ch;
      index := index + 1;
    }

    method Del()
      requires Valid()
      modifies this, input
      ensures Valid() && Model() == InputDel(old(Model()))
    {
      if index != 0 {
        index := index - 1;
        input[index] := NUL;
      }
    }

    method Reset()
      requires Valid()
      modifies this, input
      ensures Valid() && Model() == FRESH
    {
      for k := 0 to LINE_SIZE
        invariant Valid()
        invariant forall j :: 0 <= j < k ==> input[j] == NUL
      {
        input[k] := NUL;
      }
      index, lock := 0, false;
    }

    /** The buffer ends with a NUL, so that it can be read as a string, exactly when fewer than 128
        characters were kept (or one of them is itself a NUL). */
    lemma TerminatedIff()
      requires Valid()
      ensures NUL in input[..] <==> index < LINE_SIZE || NUL in Model().line
      ensures NUL !in Model().line ==> CString(input[..]) == Model().line
    {
      var line, pad := input[..index], input[index..];
      assert input[..] == line + pad;
      if index < LINE_SIZE {
        assert input[..][index] == NUL;
      }
      if NUL !in line {
        CStringPadded(line, pad);
      }
    }
  }
}
