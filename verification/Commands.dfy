/** What the commands of the console mean (common/player.c): instructions, how they are typed, and
    what the player then does. */
module Commands {
  import opened Wrappers
  import opened Ring
  import opened Cmd
  import opened Console
  import opened Events
  import opened Libc
  import opened EventLoop

  /** What the user wants.  The words for louder, softer and silence may be cut short. */
  datatype Instruction =
    | Louder(word: Text) | Softer(word: Text) | Silence(word: Text) | Loudness(n: int) | Mute
    | Halt | Song(name: Text) | Station(n: int)

  predicate Legal(i: Instruction) {
    match i
    case Louder(w) => w != [] && (w <= Chars("up") || w <= Chars("+"))
    case Softer(w) => w != [] && (w <= Chars("down") || w <= Chars("-"))
    case Silence(w) => w != [] && w <= Chars("mute")
    case Song(name) => Plain(name)
    case _ => true
  }

  /** The words of the command. */
  function Spell(i: Instruction): seq<Text> {
    match i
    case Louder(w) => [Chars("svol"), w]
    case Softer(w) => [Chars("svol"), w]
    case Silence(w) => [Chars("svol"), w]
    case Loudness(n) => [Chars("svol"), Signed(n)]
    case Mute => [Chars("mute")]
    case Halt => [Chars("stop")]
    case Song(name) => [Chars("play"), name]
    case Station(n) => [Chars("radio"), Signed(n)]
  }

  /** The volume afterwards. */
  function Volume(v: nat, i: Instruction): nat {
    match i
    case Louder(_) => if v >= 16 then 16 else v + 1
    case Softer(_) => if v == 0 then 0 else v - 1
    case Silence(_) => 0
    case Mute => 0
    case Loudness(n) => if n < 0 then 0 else if n > 16 then 16 else n
    case _ => v
  }

  /** The calls the player gets. */
  function Calls(i: Instruction): seq<Action> {
    match i
    case Halt => [Stop]
    case Song(name) => [Play(name)]
    case Station(n) => if 0 <= n < 16 then [PlayRadio(n)] else []
    case _ => []
  }

  function Effect(a: App, i: Instruction): App {
    a.(volume := Volume(a.volume, i), done := a.done + Calls(i), tokens := Spell(i), con := FRESH)
  }

  // ---------------------------------------------------------------- from words to events

  /** The first letters tell the commands apart. */
  lemma Words()
    ensures Chars("svol")[0] == 115 && Chars("mute")[0] == 109 && Chars("play")[0] == 112
    ensures Chars("radio")[0] == 114 && Chars("stop")[0] == 115
    ensures Chars("svol")[1] == 118 && Chars("stop")[1] == 116
    ensures Chars("up")[0] == 117 && Chars("down")[0] == 100 && Chars("+")[0] == PLUS && Chars("-") == [MINUS]
  {
  }

  /** A number is none of the words. */
  lemma SignedIsNoWord(n: int)
    ensures !(Signed(n) <= Chars("up")) && !(Signed(n) <= Chars("+"))
    ensures !(Signed(n) <= Chars("down")) && !(Signed(n) <= Chars("-")) && !(Signed(n) <= Chars("mute"))
  {
    Words();
    assert Decimal(if n < 0 then -n else n) != [];
  }

  lemma VolumeEvent(i: Instruction, v: nat)
    requires Legal(i) && (i.Louder? || i.Softer? || i.Silence? || i.Loudness? || i.Mute?) && v <= MAX_VOLUME
    ensures Command(Spell(i), v) == Some(VolSet(Volume(v, i)))
  {
    Words();
    match i {
      case Loudness(n) =>
        SignedIsNoWord(n);
        AtoiOfSigned(n, []);
        assert Signed(n) + [] == Signed(n);
      case Softer(w) => assert w[0] == 100 || w[0] == MINUS;
      case Silence(w) => assert w[0] == 109;
      case _ =>
    }
  }

  lemma PlayerEvent(i: Instruction, v: nat)
    requires Legal(i) && (i.Halt? || i.Song? || i.Station?)
    ensures Command(Spell(i), v) ==
            match i
            case Halt => Some(PlStop)
            case Song(_) => Some(PlPlay(Argument(1)))
            case Station(n) => if 0 <= n < 16 then Some(PlPlay(Radio(n))) else None
  {
    Words();
    if i.Station? {
      AtoiOfSigned(i.n, []);
      assert Signed(i.n) + [] == Signed(i.n);
    }
  }

  lemma CommandPerforms(a: App, i: Instruction)
    requires Legal(i) && a.volume <= MAX_VOLUME && a.tokens == Spell(i) && a.con == FRESH
    ensures Perform(a, Command(Spell(i), a.volume)) == Effect(a, i)
  {
    assert a.done + [] == a.done;
    if i.Halt? || i.Song? || i.Station? {
      PlayerEvent(i, a.volume);
    } else {
      VolumeEvent(i, a.volume);
    }
  }

  // ---------------------------------------------------------------- from typing to words

  /** The editor keeps the first 128 characters. */
  lemma {:induction false} FillKeepsFirst(line: Text, chars: Text)
    requires |line| <= LINE_SIZE
    ensures Fill(line, chars) == First(line + chars, LINE_SIZE)
    decreases |chars|
  {
    if chars == [] {
      assert line + chars == line;
    } else if |line| < LINE_SIZE {
      FillKeepsFirst(line + [chars[0]], chars[1..]);
      assert line + [chars[0]] + chars[1..] == line + chars;
    } else {
      FillKeepsFirst(line, chars[1..]);
      assert First(line + chars[1..], LINE_SIZE) == line;
      assert First(line + chars, LINE_SIZE) == line;
    }
  }

  lemma {:induction false} BeforeNewline(line: Text, rest: Text)
    requires NEWLINE !in line
    ensures Before(line + [NEWLINE] + rest) == line
  {
    var chars := line + [NEWLINE] + rest;
    if line != [] {
      BeforeNewline(line[1..], rest);
      assert chars[1..] == line[1..] + [NEWLINE] + rest;
    }
  }

  /** A line that fits is run as it was typed, whatever is typed after it in the same turn. */
  lemma TypedLineRuns(a: App, line: Text, rest: Text, words: seq<Text>)
    requires Quiet(a) && a.con.line == [] && a.q.head + 2 < U32
    requires |line| <= LINE_SIZE && NUL !in line && NEWLINE !in line && Tokens(line) == words
    ensures var r := Turn(a, line + [NEWLINE] + rest);
            && Quiet(r) && r.q.head <= a.q.head + 2
            && r == Perform(a.(con := FRESH, tokens := words), Command(words, a.volume)).(q := r.q)
  {
    var chars := line + [NEWLINE] + rest;
    assert chars[|line|] == NEWLINE;
    BeforeNewline(line, rest);
    FillKeepsFirst([], line);
    assert [] + line == line;
    CStringPadded(line, []);
    assert line + [] == line;
    TurnIsDirect(a, chars);
  }

  lemma {:induction false} PlainIsVisible(words: seq<Text>)
    requires forall k :: 0 <= k < |words| ==> Plain(words[k])
    ensures forall k :: 0 <= k < |PrintPlain(words)| ==> PrintPlain(words)[k] >= SPACE
  {
    if words != [] {
      var w, more := words[0], MorePlain(words[1..]);
      PlainIsVisible(words[1..]);
      forall k | 0 <= k < |more|
        ensures more[k] >= SPACE
      {
        if k > 0 {
          assert more[k] == PrintPlain(words[1..])[k - 1];
        }
      }
      assert PrintPlain(words) == w + more && Plain(words[0]);
    }
  }

  lemma SpelledPlain(i: Instruction)
    requires Legal(i)
    ensures forall k :: 0 <= k < |Spell(i)| ==> Plain(Spell(i)[k])
    ensures !Comment(PrintPlain(Spell(i))) && 0 < |Spell(i)| <= 2
  {
    Words();
    SignedPlain(if i.Loudness? || i.Station? then i.n else 0);
    assert PrintPlain(Spell(i))[0] == Spell(i)[0][0];
    assert forall k :: 0 <= k < |Chars("mute")| ==> Chars("mute")[k] > QUOTE;
    assert forall k :: 0 <= k < |Chars("down")| ==> Chars("down")[k] > QUOTE;
    assert forall k :: 0 <= k < |Chars("up")| ==> Chars("up")[k] > QUOTE;
  }

  lemma SignedPlain(n: int)
    ensures Plain(Signed(n))
  {
    if n < 0 {
      assert forall k :: 0 < k < |Signed(n)| ==> Signed(n)[k] == Decimal(-n)[k - 1];
    }
  }

  // ---------------------------------------------------------------- the console obeys

  /** The line for an instruction. */
  function Line(i: Instruction): Text {
    PrintPlain(Spell(i))
  }

  predicate Typable(i: Instruction) {
    Legal(i) && |Line(i)| <= LINE_SIZE
  }

  /** An instruction typed on a line has exactly its effect, in the same turn. */
  lemma Obeyed(a: App, i: Instruction)
    requires Quiet(a) && a.con.line == [] && a.q.head + 2 < U32 && a.volume <= MAX_VOLUME && Typable(i)
    ensures var r := Turn(a, Line(i) + [NEWLINE]);
            Quiet(r) && r.q.head <= a.q.head + 2 && r == Effect(a, i).(q := r.q)
  {
    SpelledPlain(i);
    PlainIsVisible(Spell(i));
    PlainRoundTrip(Spell(i));
    TypedLineRuns(a, Line(i), [], Spell(i));
    assert Line(i) + [NEWLINE] + [] == Line(i) + [NEWLINE];
    CommandPerforms(a.(con := FRESH, tokens := Spell(i)), i);
  }

  function Script(plan: seq<Instruction>): (r: seq<Text>)
    ensures |r| == |plan|
  {
    if plan == [] then [] else Script(plan[..|plan| - 1]) + [Line(plan[|plan| - 1]) + [NEWLINE]]
  }

  function Effects(a: App, plan: seq<Instruction>): App {
    if plan == [] then a else Effect(Effects(a, plan[..|plan| - 1]), plan[|plan| - 1])
  }

  /** And so over every session: the volume and the calls of the player are those that the
      instructions ask for, one after the other. */
  lemma {:induction false} SessionObeyed(a: App, plan: seq<Instruction>)
    requires Quiet(a) && a.con.line == [] && a.q.head + 2 * |plan| < U32 && a.volume <= MAX_VOLUME
    requires forall k :: 0 <= k < |plan| ==> Typable(plan[k])
    ensures var r := Turns(a, Script(plan)); r == Effects(a, plan).(q := r.q) && r.con.line == []
    ensures Turns(a, Script(plan)).volume <= MAX_VOLUME
  {
    if plan != [] {
      var before, i := plan[..|plan| - 1], plan[|plan| - 1];
      SessionObeyed(a, before);
      assert Script(plan)[..|before|] == Script(before);
      Obeyed(Turns(a, Script(before)), i);
    }
  }

  /** A name with spaces is played as it is if it is typed in quotes. */
  lemma QuotedSongObeyed(a: App, name: Text)
    requires Quiet(a) && a.con.line == [] && a.q.head + 2 < U32 && a.volume <= MAX_VOLUME
    requires QUOTE !in name && NUL !in name && NEWLINE !in name
    requires var line := PrintQuoted([Chars("play"), name]);
             |line| <= LINE_SIZE && NUL !in line && NEWLINE !in line
    ensures var r := Turn(a, PrintQuoted([Chars("play"), name]) + [NEWLINE]);
            Quiet(r) && r == Effect(a, Song(name)).(q := r.q)
  {
    var words, line := [Chars("play"), name], PrintQuoted([Chars("play"), name]);
    Words();
    QuotedRoundTrip(words, MAX_TOKENS);
    TypedLineRuns(a, line, [], words);
    assert line + [NEWLINE] + [] == line + [NEWLINE];
  }

  /** Nothing but these five commands does anything, and the last four only with their argument. */
  lemma IgnoredIff(tokens: seq<Text>, v: nat)
    ensures Command(tokens, v).None? <==>
            || tokens == []
            || tokens[0] !in {Chars("stop"), Chars("mute"), Chars("play"), Chars("svol"), Chars("radio")}
            || (tokens[0] in {Chars("play"), Chars("svol"), Chars("radio")} && |tokens| != 2)
            || (tokens[0] == Chars("radio") && !(0 <= Atoi(tokens[1]) < 16))
  {
    Words();
  }

  /** The two volume events that no command pushes: up stops at the loudest, down at zero goes round. */
  lemma VolumeKeys(a: App)
    requires Ready(a) && a.volume <= MAX_VOLUME
    ensures Handle(a, VolUp) == a.(volume := if a.volume == 16 then 16 else a.volume + 1)
    ensures Handle(a, VolDown) == a.(volume := if a.volume == 0 then 16 else a.volume - 1)
  {
    VolumeStep(a.volume);
  }
}
