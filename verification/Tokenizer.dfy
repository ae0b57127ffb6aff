/** `cmd_tokenize` and `cmd_exec` (common/cmd.c) as they fill the token buffer, the argument
    vector and walk the command table. */
module Tokenizer {
  import opened Wrappers
  import opened Cmd

  /** The tokens one behind the other, each with its terminating NUL. */
  function Packed(tokens: seq<Text>): Text {
    if tokens == [] then []
    else Packed(tokens[..|tokens| - 1]) + tokens[|tokens| - 1] + [NUL]
  }

  lemma PackedSnoc(tokens: seq<Text>, w: Text)
    ensures Packed(tokens + [w]) == Packed(tokens) + w + [NUL]
  {
    assert (tokens + [w])[..|tokens|] == tokens;
  }

  /** Each token stands in the packed text, terminated, where its argument points. */
  lemma {:induction false} PackedAt(tokens: seq<Text>, k: nat)
    requires k < |tokens|
    ensures var at := |Packed(tokens[..k])|;
            && at + |tokens[k]| < |Packed(tokens)|
            && Packed(tokens)[at..at + |tokens[k]|] == tokens[k]
            && Packed(tokens)[at + |tokens[k]|] == NUL
  {
    var last := |tokens| - 1;
    if k < last {
      PackedAt(tokens[..last], k);
      assert tokens[..last][..k] == tokens[..k];
      assert tokens[..last][k] == tokens[k];
    }
  }

  /** The token buffer and the argument vector hold these tokens. */
  ghost predicate Filled(buffer: Text, argv: seq<nat>, tokens: seq<Text>) {
    && Packed(tokens) <= buffer && |tokens| <= |argv|
    && forall k :: 0 <= k < |tokens| ==> argv[k] == |Packed(tokens[..k])|
  }

  lemma FilledSnoc(buffer: Text, argv: seq<nat>, buffer': Text, tokens: seq<Text>, w: Text)
    requires Filled(buffer, argv, tokens) && |tokens| < |argv|
    requires var out := |Packed(tokens)|;
             out + |w| < |buffer'| && buffer'[..out + |w| + 1] == buffer[..out] + w + [NUL]
    ensures Filled(buffer', argv[|tokens| := |Packed(tokens)|], tokens + [w])
    ensures |Packed(tokens + [w])| == |Packed(tokens)| + |w| + 1
  {
    PackedSnoc(tokens, w);
    var longer := tokens + [w];
    forall k | 0 <= k < |longer|
      ensures argv[|tokens| := |Packed(tokens)|][k] == |Packed(longer[..k])|
    {
      assert longer[..k] == tokens[..k];
      assert tokens[..|tokens|] == tokens;
    }
  }

  /** The tokens done so far, and those the text from `i` still holds, are those of the line. */
  ghost predicate Progress(text: Text, i: nat, more: bool, done: seq<Text>) {
    && i <= |text| && |done| <= MAX_TOKENS && |Packed(done)| <= i + |done|
    && Tokens(text) == done + (if more then Scan(text[i..], MAX_TOKENS - |done|) else [])
  }

  lemma ProgressStarts(text: Text)
    ensures Progress(text, 0, true, [])
  {
    assert text[0..] == text;
  }

  lemma Reassociate<T>(a: seq<T>, x: T, b: seq<T>)
    ensures a + ([x] + b) == (a + [x]) + b
  {
  }

  lemma ProgressToken(text: Text, i: nat, done: seq<Text>, w: Text, i': nat)
    requires Progress(text, i, true, done) && |done| < MAX_TOKENS
    requires i <= i' <= |text| && Next(text[i..]) == Token(w, text[i'..])
    requires |Packed(done + [w])| <= i' + |done| + 1
    ensures Progress(text, i', true, done + [w])
  {
    var n := MAX_TOKENS - |done|;
    var before, rest := Scan(text[i..], n), Scan(text[i'..], n - 1);
    assert before == [w] + rest by {
      ScanToken(text[i..], w, text[i'..], n);
    }
    assert Tokens(text) == done + [w] + rest by {
      Reassociate(done, w, rest);
    }
  }

  lemma ProgressEnds(text: Text, i: nat, more: bool, done: seq<Text>)
    requires Progress(text, i, more, done) && (more ==> |done| == MAX_TOKENS)
    ensures done == Tokens(text)
  {
  }

  function At(text: Text, i: nat): int {
    if i < |text| then text[i] else NUL
  }

  lemma {:induction false} WordExtent(text: Text)
    ensures forall k :: 0 <= k < |Word(text)| ==> text[k] > SPACE
    ensures |Word(text)| < |text| ==> text[|Word(text)|] <= SPACE
  {
    if text != [] && text[0] > SPACE {
      WordExtent(text[1..]);
    }
  }

  lemma {:induction false} QuotedExtent(text: Text)
    ensures forall k :: 0 <= k < |Quoted(text)| ==> text[k] != QUOTE
    ensures |Quoted(text)| < |text| ==> text[|Quoted(text)|] == QUOTE
  {
    if text != [] && text[0] != QUOTE {
      QuotedExtent(text[1..]);
    }
  }

  class Shell {
    const buffer: array<int>
    var argc: nat
    const argv: array<nat>

    ghost predicate Shape() {
      buffer.Length == TOKEN_BUFFER_SIZE && argv.Length == MAX_TOKENS
      && (buffer as object) != (argv as object)
    }

    constructor ()
      ensures Shape() && argc == 0 && fresh(buffer) && fresh(argv)
    {
      buffer := new int[TOKEN_BUFFER_SIZE](_ => NUL);
      argv := new nat[MAX_TOKENS](_ => 0);
      argc := 0;
    }

    /** Copies a word and its terminator to the token buffer. */
    method CopyWord(text: Text, i: nat, out: nat, ghost w: Text) returns (i': nat, out': nat)
      requires i + |w| <= |text| && w == text[i..i + |w|] && out + |w| < buffer.Length
      requires forall k :: i <= k < i + |w| ==> text[k] > SPACE
      requires i + |w| < |text| ==> text[i + |w|] <= SPACE
      modifies buffer
      ensures i' == i + |w| && out' == out + |w| + 1
      ensures buffer[..out'] == old(buffer[..out]) + w + [NUL]
    {
      i', out' := i, out;
      while At(text, i') > SPACE
        invariant i <= i' <= i + |w| && out' - out == i' - i
        invariant forall k :: 0 <= k < out ==> buffer[k] == old(buffer[k])
        invariant forall k :: out <= k < out' ==> buffer[k] == w[k - out]
        decreases |text| - i'
      {
        buffer[out'] := text[i'];
        i', out' := i' + 1, out' + 1;
      }
      assert i' == i + |w|;
      assert buffer[..out] == old(buffer[..out]) && buffer[out..out'] == w;
      buffer[out'] := NUL;
      out' := out' + 1;
    }

    /** The same up to a closing quote. */
    method CopyQuoted(text: Text, i: nat, out: nat, ghost w: Text) returns (i': nat, out': nat)
      requires i + |w| <= |text| && w == text[i..i + |w|] && out + |w| < buffer.Length
      requires forall k :: 0 <= k < |w| ==> w[k] != QUOTE && w[k] != NUL
      requires i + |w| < |text| ==> text[i + |w|] == QUOTE
      modifies buffer
      ensures i' == i + |w| && out' == out + |w| + 1
      ensures buffer[..out'] == old(buffer[..out]) + w + [NUL]
    {
      i', out' := i, out;
      while At(text, i') != QUOTE && At(text, i') != NUL
        invariant i <= i' <= i + |w| && out' - out == i' - i
        invariant forall k :: 0 <= k < out ==> buffer[k] == old(buffer[k])
        invariant forall k :: out <= k < out' ==> buffer[k] == w[k - out]
        decreases |text| - i'
      {
        buffer[out'] := text[i'];
        i', out' := i' + 1, out' + 1;
      }
      assert i' == i + |w|;
      assert buffer[..out] == old(buffer[..out]) && buffer[out..out'] == w;
      buffer[out'] := NUL;
      out' := out' + 1;
    }

    method SkipSpaces(text: Text, i: nat) returns (i': nat)
      requires i <= |text|
      ensures i <= i' <= |text| && Skip(text[i..]) == text[i'..]
    {
      i' := i;
      while At(text, i') == SPACE
        invariant i <= i' <= |text| && Skip(text[i..]) == Skip(text[i'..])
        decreases |text| - i'
      {
        assert text[i'..][1..] == text[i' + 1..];
        i' := i' + 1;
      }
    }

    method CopyQuotedToken(text: Text, i: nat, out: nat) returns (i': nat, out': nat)
      requires NUL !in text && i < |text| && text[i] == QUOTE && out + |text| - i < buffer.Length
      modifies buffer
      ensures i <= i' <= |text| && Lex(text[i..]).rest == text[i'..]
      ensures out' == out + |Lex(text[i..]).word| + 1 && out' - out <= i' - i + 1
      ensures buffer[..out'] == old(buffer[..out]) + Lex(text[i..]).word + [NUL]
    {
      ghost var t := text[i..];
      ghost var w := Quoted(t[1..]);
      QuotedExtent(t[1..]);
      assert forall k :: 0 <= k < |w| ==> w[k] in text;
      i', out' := CopyQuoted(text, i + 1, out, w);
      assert i' < |text| ==> text[i'] in text;
      if At(text, i') != NUL {
        i' := i' + 1;
      }
    }

    method CopyPlainToken(text: Text, i: nat, out: nat) returns (i': nat, out': nat)
      requires i < |text| && text[i] != QUOTE && out + |text| - i < buffer.Length
      modifies buffer
      ensures i <= i' <= |text| && Lex(text[i..]).rest == text[i'..]
      ensures out' == out + |Lex(text[i..]).word| + 1 && out' - out <= i' - i + 1
      ensures buffer[..out'] == old(buffer[..out]) + Lex(text[i..]).word + [NUL]
    {
      ghost var t := text[i..];
      WordExtent(t);
      assert forall k :: i <= k < i + |Word(t)| ==> text[k] == t[k - i];
      i', out' := CopyWord(text, i, out, Word(t));
    }

    method CopyToken(text: Text, i: nat, out: nat) returns (i': nat, out': nat)
      requires NUL !in text && i < |text| && out + |text| - i < buffer.Length
      modifies buffer
      ensures i <= i' <= |text| && Lex(text[i..]).rest == text[i'..]
      ensures out' == out + |Lex(text[i..]).word| + 1 && out' - out <= i' - i + 1
      ensures buffer[..out'] == old(buffer[..out]) + Lex(text[i..]).word + [NUL]
    {
      if text[i] == QUOTE {
        i', out' := CopyQuotedToken(text, i, out);
      } else {
        i', out' := CopyPlainToken(text, i, out);
      }
    }

    /** One round of the loop: either the line is finished, or one token is appended. */
    method TakeToken(text: Text, i: nat, out: nat) returns (more: bool, i': nat, out': nat)
      requires Shape() && NUL !in text && i <= |text| <= LINE_SIZE && argc < MAX_TOKENS
      requires out <= i + argc
      modifies this, buffer, argv
      ensures i <= i' <= |text| && (more <==> Next(text[i..]).Token?)
      ensures !more ==> argc == old(argc) && buffer[..] == old(buffer[..]) && argv[..] == old(argv[..])
      ensures !more ==> out' == out
      ensures more ==>
                && argc == old(argc) + 1 && argv[..] == old(argv[..])[old(argc) := out]
                && text[i'..] == Next(text[i..]).rest
                && out' == out + |Next(text[i..]).word| + 1 <= i' + argc
                && buffer[..out'] == old(buffer[..out]) + Next(text[i..]).word + [NUL]
    {
      more, i', out' := false, i, out;
      if At(text, i) == SLASH && At(text, i + 1) == SLASH {
        return;
      }
      if At(text, i) == HASH {
        return;
      }
      i' := SkipSpaces(text, i);
      assert i' < |text| ==> text[i'] in text;
      if At(text, i') == NEWLINE || At(text, i') == RETURN || At(text, i') == NUL {
        return;
      }
      more := true;
      argv[argc] := out;
      argc := argc + 1;
      i', out' := CopyToken(text, i', out);
    }

    /** The tokens done so far fill the buffers. */
    ghost predicate Holds(text: Text, i: nat, out: nat, more: bool, done: seq<Text>)
      reads this, buffer, argv
    {
      && Shape() && argc == |done| && out == |Packed(done)|
      && Progress(text, i, more, done) && Filled(buffer[..], argv[..], done)
    }

    method Round(text: Text, i: nat, out: nat, ghost done: seq<Text>)
      returns (more: bool, i': nat, out': nat, ghost done': seq<Text>)
      requires Holds(text, i, out, true, done)
      requires NUL !in text && |text| <= LINE_SIZE && argc < MAX_TOKENS
      modifies this, buffer, argv
      ensures Holds(text, i', out', more, done') && argc == old(argc) + (if more then 1 else 0)
    {
      ghost var buffer0, argv0 := buffer[..], argv[..];
      more, i', out' := TakeToken(text, i, out);
      done' := done;
      if more {
        ghost var w := Next(text[i..]).word;
        FilledSnoc(buffer0, argv0, buffer[..], done, w);
        ProgressToken(text, i, done, w, i');
        done' := done + [w];
      }
    }

    /** Splits a line that fits the console buffer and is followed by a terminator.  The tokens fill the buffer
        from its start without gaps; nothing is ever written past its end. */
    method Tokenize(text: Text)
      requires Shape() && NUL !in text && |text| <= LINE_SIZE
      modifies this, buffer, argv
      ensures argc == |Tokens(text)| && Filled(buffer[..], argv[..], Tokens(text))
      ensures |Packed(Tokens(text))| <= |text| + argc
    {
      argc := 0;
      var i, out, more := 0, 0, true;
      ghost var done: seq<Text> := [];
      ProgressStarts(text);
      while more && argc != MAX_TOKENS
        invariant Holds(text, i, out, more, done)
        decreases MAX_TOKENS - argc, more
      {
        more, i, out, done := Round(text, i, out, done);
      }
      ProgressEnds(text, i, more, done);
    }
  }

  // ---------------------------------------------------------------- dispatch

  /** `uc_memcmp(a, b, n) == 0` on two terminated strings, one of which is at least `n` long.  The
      comparison stops at the first difference, so it never reads past a terminator. */
  method MemoryEqual(a: Text, b: Text, n: nat) returns (equal: bool)
    requires NUL !in a && NUL !in b && (n <= |a| || n <= |b|)
    ensures equal <==> n <= |a| && n <= |b| && a[..n] == b[..n]
  {
    var a0, b0 := a + [NUL], b + [NUL];
    var k := 0;
    while k < n
      invariant k <= n && k <= |a| && k <= |b| && a[..k] == b[..k]
    {
      assert k < |a| ==> a[k] in a;
      assert k < |b| ==> b[k] in b;
      if a0[k] != b0[k] {
        return false;
      }
      k := k + 1;
    }
    return true;
  }

  /** `cmd_exec`: the two prefix comparisons select the first command whose name is token 0. */
  method FindCommand(names: seq<Text>, token: Text) returns (index: Option<nat>)
    requires NUL !in token && forall k :: 0 <= k < |names| ==> NUL !in names[k]
    ensures index.None? ==> token !in names
    ensures index.Some? ==> index.value < |names| && names[index.value] == token
                            && token !in names[..index.value]
  {
    for k := 0 to |names|
      invariant token !in names[..k]
    {
      var prefix := MemoryEqual(names[k], token, |token|);
      if prefix {
        var whole := MemoryEqual(names[k], token, |names[k]|);
        if whole {
          return Some(k);
        }
      }
    }
    return None;
  }
}
