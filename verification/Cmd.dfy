/** The command line: splitting a line into tokens and finding the command (common/cmd.c).

    A C string is the sequence of its characters before the terminating NUL.  Characters are
    numbers as the platform's `char` reads them, so they may be negative. */
module Cmd {
  const MAX_TOKENS: nat := 16
  const LINE_SIZE: nat := 128
  const TOKEN_BUFFER_SIZE: nat := LINE_SIZE + MAX_TOKENS

  const NUL: int := 0
  const NEWLINE: int := 10
  const RETURN: int := 13
  const SPACE: int := 32
  const QUOTE: int := 34
  const HASH: int := 35
  const SLASH: int := 47

  type Text = seq<int>

  // ---------------------------------------------------------------- what a line means

  /** The text after its leading spaces. */
  function Skip(text: Text): (r: Text)
    ensures |r| <= |text|
  {
    if text != [] && text[0] == SPACE then Skip(text[1..]) else text
  }

  /** The characters up to a space or a control character. */
  function Word(text: Text): (r: Text)
    ensures r <= text
  {
    if text != [] && text[0] > SPACE then [text[0]] + Word(text[1..]) else []
  }

  /** The characters up to a closing quote. */
  function Quoted(text: Text): (r: Text)
    ensures r <= text
  {
    if text != [] && text[0] != QUOTE then [text[0]] + Quoted(text[1..]) else []
  }

  predicate Comment(text: Text) {
    (|text| >= 2 && text[0] == SLASH && text[1] == SLASH) || (text != [] && text[0] == HASH)
  }

  datatype Lexeme = End | Token(word: Text, rest: Text)

  /** The token at the start of the text; an unclosed quote takes the rest of the line. */
  function Lex(t: Text): (r: Lexeme)
    requires t != []
    ensures r.Token?
  {
    if t[0] == QUOTE then
      var w := Quoted(t[1..]);
      Token(w, if 1 + |w| == |t| then [] else t[|w| + 2..])
    else
      var w := Word(t);
      Token(w, t[|w|..])
  }

  /** One round of the loop of `cmd_tokenize`.  A comment is looked for before spaces are
      skipped. */
  function Next(text: Text): Lexeme {
    var t := Skip(text);
    if Comment(text) || t == [] || t[0] == NEWLINE || t[0] == RETURN then End else Lex(t)
  }

  /** At most `n` tokens of the text. */
  function Scan(text: Text, n: nat): (r: seq<Text>)
    ensures |r| <= n
    decreases n
  {
    if n == 0 then []
    else
      match Next(text)
      case End => []
      case Token(w, rest) => [w] + Scan(rest, n - 1)
  }

  function Tokens(text: Text): (r: seq<Text>)
    ensures |r| <= MAX_TOKENS
  {
    Scan(text, MAX_TOKENS)
  }

  /** A line is a comment exactly if it starts with a hash or two slashes, and then has no tokens. */
  lemma CommentIff(text: Text)
    ensures Comment(text) <==> [HASH] <= text || [SLASH, SLASH] <= text
    ensures Comment(text) ==> Tokens(text) == []
  {
  }

  // ---------------------------------------------------------------- round trips

  function First<T>(words: seq<T>, n: nat): seq<T> {
    if |words| <= n then words else words[..n]
  }

  lemma FirstCons<T>(words: seq<T>, n: nat)
    requires words != [] && n > 0
    ensures First(words, n) == [words[0]] + First(words[1..], n - 1)
  {
  }

  lemma ScanToken(t: Text, w: Text, rest: Text, n: nat)
    requires n > 0 && Next(t) == Token(w, rest)
    ensures Scan(t, n) == [w] + Scan(rest, n - 1)
  {
  }

  /** Words in quotes, separated by single spaces. */
  function PrintQuoted(words: seq<Text>): Text
    decreases |words|, 0
  {
    if words == [] then [] else [QUOTE] + words[0] + [QUOTE] + MoreQuoted(words[1..])
  }

  function MoreQuoted(words: seq<Text>): Text
    decreases |words|, 1
  {
    if words == [] then [] else [SPACE] + PrintQuoted(words)
  }

  lemma {:induction false} QuotedStops(w: Text, rest: Text)
    requires QUOTE !in w
    ensures Quoted(w + [QUOTE] + rest) == w
  {
    var t := w + [QUOTE] + rest;
    if w != [] {
      QuotedStops(w[1..], rest);
      assert t[1..] == w[1..] + [QUOTE] + rest;
    }
  }

  lemma NextQuoted(t: Text, w: Text, rest: Text)
    requires QUOTE !in w && t == [QUOTE] + w + [QUOTE] + rest
    ensures Next(t) == Token(w, rest)
  {
    assert t[1..] == w + [QUOTE] + rest;
    QuotedStops(w, rest);
    assert t[|w| + 2..] == rest;
  }

  lemma NextSpace(t: Text)
    requires !Comment(t)
    ensures Next([SPACE] + t) == Next(t)
  {
    assert ([SPACE] + t)[1..] == t;
  }

  lemma ScanMoreQuoted(words: seq<Text>, n: nat)
    ensures Scan(MoreQuoted(words), n) == Scan(PrintQuoted(words), n)
  {
    if words != [] {
      assert PrintQuoted(words)[0] == QUOTE;
      NextSpace(PrintQuoted(words));
    }
  }

  lemma FirstQuoted(words: seq<Text>, n: nat)
    requires words != [] && QUOTE !in words[0] && n > 0
    ensures Scan(PrintQuoted(words), n) == [words[0]] + Scan(PrintQuoted(words[1..]), n - 1)
  {
    var w, rest := words[0], MoreQuoted(words[1..]);
    NextQuoted(PrintQuoted(words), w, rest);
    ScanToken(PrintQuoted(words), w, rest, n);
    ScanMoreQuoted(words[1..], n - 1);
  }

  /** Any words free of quotes, printed in quotes, are read back exactly, up to the size of the
      token table. */
  lemma {:induction false} QuotedRoundTrip(words: seq<Text>, n: nat)
    requires forall k :: 0 <= k < |words| ==> QUOTE !in words[k]
    ensures Scan(PrintQuoted(words), n) == First(words, n)
  {
    if words != [] && n != 0 {
      FirstQuoted(words, n);
      QuotedRoundTrip(words[1..], n - 1);
      FirstCons(words, n);
    }
  }

  function PrintPlain(words: seq<Text>): Text
    decreases |words|, 0
  {
    if words == [] then [] else words[0] + MorePlain(words[1..])
  }

  function MorePlain(words: seq<Text>): Text
    decreases |words|, 1
  {
    if words == [] then [] else [SPACE] + PrintPlain(words)
  }

  predicate Plain(w: Text) {
    w != [] && w[0] != QUOTE && forall k :: 0 <= k < |w| ==> w[k] > SPACE
  }

  lemma {:induction false} WordStops(w: Text, rest: Text)
    requires forall k :: 0 <= k < |w| ==> w[k] > SPACE
    requires rest == [] || rest[0] <= SPACE
    ensures Word(w + rest) == w
  {
    if w != [] {
      WordStops(w[1..], rest);
      assert (w + rest)[1..] == w[1..] + rest;
    } else {
      assert w + rest == rest;
    }
  }

  lemma NextWord(t: Text, w: Text, rest: Text)
    requires Plain(w) && (rest == [] || rest[0] <= SPACE) && t == w + rest && !Comment(t)
    ensures Next(t) == Token(w, rest)
  {
    WordStops(w, rest);
    assert t[0] == w[0] && Skip(t) == t;
    assert t[|w|..] == rest;
  }

  lemma NextSpaceWord(t: Text, w: Text, rest: Text)
    requires Plain(w) && (rest == [] || rest[0] <= SPACE) && t == w + rest
    ensures Next([SPACE] + t) == Token(w, rest)
  {
    WordStops(w, rest);
    assert t[0] == w[0] && Skip(t) == t;
    assert ([SPACE] + t)[1..] == t && Skip([SPACE] + t) == t;
    assert t[|w|..] == rest;
  }

  /** After a space, words are read back even if the first looks like a comment. */
  lemma {:induction false} MorePlainScan(words: seq<Text>, n: nat)
    requires forall k :: 0 <= k < |words| ==> Plain(words[k])
    ensures Scan(MorePlain(words), n) == First(words, n)
  {
    if words != [] && n != 0 {
      var w, rest := words[0], MorePlain(words[1..]);
      NextSpaceWord(PrintPlain(words), w, rest);
      ScanToken(MorePlain(words), w, rest, n);
      MorePlainScan(words[1..], n - 1);
      FirstCons(words, n);
    }
  }

  /** Plain words separated by spaces are read back exactly unless the line as a whole starts with
      a comment; a later word may well begin with `#` or `//`. */
  lemma PlainRoundTrip(words: seq<Text>)
    requires forall k :: 0 <= k < |words| ==> Plain(words[k])
    ensures Tokens(PrintPlain(words)) ==
            if words != [] && Comment(PrintPlain(words)) then []
            else First(words, MAX_TOKENS)
  {
    var t := PrintPlain(words);
    if words != [] && !Comment(t) {
      var w, rest := words[0], MorePlain(words[1..]);
      NextWord(t, w, rest);
      ScanToken(t, w, rest, MAX_TOKENS);
      MorePlainScan(words[1..], MAX_TOKENS - 1);
      FirstCons(words, MAX_TOKENS);
    }
  }

  /** Any other control character is never passed: it yields empty tokens until the table is
      full. */
  lemma {:induction false} ControlFillsTable(text: Text, n: nat)
    requires text != [] && text[0] < SPACE && text[0] != NEWLINE && text[0] != RETURN && text[0] != NUL
    ensures Scan(text, n) == seq(n, _ => [])
  {
    if n != 0 {
      ControlFillsTable(text, n - 1);
      assert Word(text) == [] && text[0..] == text;
      var rest: seq<Text> := seq(n - 1, _ => []);
      var all: seq<Text> := seq(n, _ => []);
      assert [[]] + rest == all;
    }
  }
}
