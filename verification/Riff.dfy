/** The chunk walk of `fs_open_riff` (common/fs.c) over the first 128 bytes of a file, and the
    sample rates it accepts (common/snd.c). */
module Riff {
  import opened Wrappers

  const WINDOW: nat := 128
  const HEADER: nat := 12       // "RIFF", size, "WAVE"
  const FMT: int := 0x2074_6D66   // "fmt "
  const FACT: int := 0x7463_6166  // "fact"
  const DATA: int := 0x6174_6164  // "data"
  const PCM: int := 1

  type Bytes = seq<byte>

  // ---------------------------------------------------------------- sample rates

  datatype Rate = Hz8000 | Hz11025 | Hz12000 | Hz16000 | Hz22050 | Hz24000 | Hz32000 | Hz44100 | Hz48000

  function RateToFreq(r: Rate): nat {
    match r
    case Hz8000 => 8000
    case Hz11025 => 11025
    case Hz12000 => 12000
    case Hz16000 => 16000
    case Hz22050 => 22050
    case Hz24000 => 24000
    case Hz32000 => 32000
    case Hz44100 => 44100
    case Hz48000 => 48000
  }

  /** `snd_freq2rate`, whose parameter has 16 bits. */
  function FreqToRate(freq: nat): (r: Option<Rate>)
    ensures r.Some? ==> RateToFreq(r.value) == freq % 0x1_0000
    ensures r.None? ==> forall x: Rate :: RateToFreq(x) != freq % 0x1_0000
  {
    var f := freq % 0x1_0000;
    if f == 8000 then Some(Hz8000)
    else if f == 11025 then Some(Hz11025)
    else if f == 12000 then Some(Hz12000)
    else if f == 16000 then Some(Hz16000)
    else if f == 22050 then Some(Hz22050)
    else if f == 24000 then Some(Hz24000)
    else if f == 32000 then Some(Hz32000)
    else if f == 44100 then Some(Hz44100)
    else if f == 48000 then Some(Hz48000)
    else None
  }

  // ---------------------------------------------------------------- little-endian numbers

  function Le16(w: Bytes, i: nat): nat
    requires i + 2 <= |w|
  {
    var a: int, b: int := w[i], w[i + 1];
    a + 0x100 * b
  }

  function Le32(w: Bytes, i: nat): nat
    requires i + 4 <= |w|
  {
    Le16(w, i) + 0x1_0000 * Le16(w, i + 2)
  }

  function ToLe32(n: nat): (r: Bytes)
    requires n < 0x1_0000_0000
    ensures |r| == 4
  {
    var low, high := n % 0x1_0000, n / 0x1_0000;
    [low % 0x100, low / 0x100, high % 0x100, high / 0x100]
  }

  /** The tag in front of the sound data, as the format writes it. */
  const DATA_TAG: Bytes := ['d' as int, 'a' as int, 't' as int, 'a' as int]

  lemma DataTag(w: Bytes, at: nat)
    requires at + 4 <= |w|
    ensures w[at..at + 4] == DATA_TAG <==> Le32(w, at) == DATA
  {
    var v := w[at..at + 4];
    assert v[0] == w[at] && v[1] == w[at + 1] && v[2] == w[at + 2] && v[3] == w[at + 3];
    if Le32(w, at) == DATA {
      assert v == DATA_TAG;
    }
  }

  lemma Le32RoundTrip(n: nat)
    requires n < 0x1_0000_0000
    ensures Le32(ToLe32(n), 0) == n
  {
    var r := ToLe32(n);
    assert Le16(r, 0) == n % 0x1_0000;
    assert Le16(r, 2) == n / 0x1_0000;
  }

  // ---------------------------------------------------------------- the walk

  datatype Verdict =
    | OutOfWindow     // the walk left the bytes that were read
    | UnknownSection
    | NoFormat | NotPcm | UnknownRate
    | Accepted(rate: Rate, channels: nat, offset: nat)

  /** The checks made once the data chunk is found at `ptr`. */
  function Finish(w: Bytes, ptr: nat, fmt: Option<nat>): Verdict
    requires |w| == WINDOW
  {
    match fmt
    case None => NoFormat
    case Some(f) =>
      if f + 16 > WINDOW then OutOfWindow
      else if Le16(w, f) != PCM then NotPcm
      else
        match FreqToRate(Le32(w, f + 4))
        case None => UnknownRate
        case Some(rate) => Accepted(rate, Le16(w, f + 2), ptr)
  }

  function Walk(w: Bytes, ptr: nat, fmt: Option<nat>): Verdict
    requires |w| == WINDOW
    decreases WINDOW - ptr
  {
    if ptr + 8 > WINDOW then OutOfWindow
    else
      var signature, next := Le32(w, ptr), ptr + 8 + Le32(w, ptr + 4);
      if signature == FMT then Walk(w, next, Some(ptr + 8))
      else if signature == FACT then Walk(w, next, fmt)
      else if signature == DATA then Finish(w, ptr, fmt)
      else UnknownSection
  }

  /** The same as the source's loop of jumps. */
  method OpenRiff(w: Bytes) returns (v: Verdict)
    requires |w| == WINDOW
    ensures v == Walk(w, HEADER, None)
  {
    var ptr: nat, fmt: Option<nat> := HEADER, None;
    while ptr + 8 <= WINDOW
      invariant Walk(w, ptr, fmt) == Walk(w, HEADER, None)
      decreases WINDOW - ptr
    {
      var signature, size := Le32(w, ptr), Le32(w, ptr + 4);
      if signature == FMT {
        fmt := Some(ptr + 8);
        ptr := ptr + size + 8;
      } else if signature == FACT {
        ptr := ptr + size + 8;
      } else if signature == DATA {
        return Finish(w, ptr, fmt);
      } else {
        return UnknownSection;
      }
    }
    return OutOfWindow;
  }

  // ---------------------------------------------------------------- what a header means

  /** A chunk in front of the data. */
  datatype Chunk = Fmt(body: Bytes) | Fact(body: Bytes)

  predicate WellFormed(c: Chunk) {
    |c.body| < 0x1_0000_0000 && (c.Fmt? ==> |c.body| >= 16)
  }

  function Tag(c: Chunk): (r: Bytes)
    ensures |r| == 4 && Le32(r, 0) == if c.Fmt? then FMT else FACT
  {
    if c.Fmt? then [0x66, 0x6D, 0x74, 0x20] else [0x66, 0x61, 0x63, 0x74]
  }

  function Padding(c: Chunk): Bytes {
    if |c.body| % 2 == 1 then [0] else []
  }

  /** The bytes a chunk takes up, padding included. */
  function Extent(c: Chunk): nat {
    8 + |c.body| + |c.body| % 2
  }

  /** A chunk as the RIFF format writes it: tag, size, contents, and a byte of padding after
      contents of odd size. */
  function Written(c: Chunk): (r: Bytes)
    requires WellFormed(c)
    ensures |r| == Extent(c)
  {
    Tag(c) + ToLe32(|c.body|) + c.body + Padding(c)
  }

  datatype Chunks = Nil | Cons(head: Chunk, tail: Chunks) {
    predicate AllWellFormed() {
      this.Cons? ==> WellFormed(head) && tail.AllWellFormed()
    }

    predicate AllEven() {
      this.Cons? ==> |head.body| % 2 == 0 && tail.AllEven()
    }

    /** Their size as the walk counts it. */
    function Size(): nat {
      if this.Nil? then 0 else 8 + |head.body| + tail.Size()
    }

    function Serialise(): Bytes
      requires AllWellFormed()
    {
      if this.Nil? then [] else Written(head) + tail.Serialise()
    }

    /** The contents of the last format chunk. */
    function LastFormat(before: Option<Bytes>): (r: Option<Bytes>)
      requires AllWellFormed() && (before.Some? ==> |before.value| >= 16)
      ensures r.Some? ==> |r.value| >= 16
    {
      if this.Nil? then before else tail.LastFormat(if head.Fmt? then Some(head.body) else before)
    }
  }

  /** What the format chunk says about the sound that starts at `offset`. */
  function Meaning(format: Option<Bytes>, offset: nat): Verdict
    requires format.Some? ==> |format.value| >= 16
  {
    match format
    case None => NoFormat
    case Some(body) =>
      if Le16(body, 0) != PCM then NotPcm
      else
        match FreqToRate(Le32(body, 4))
        case None => UnknownRate
        case Some(rate) => Accepted(rate, Le16(body, 2), offset)
  }

  /** The contents of a format chunk: the number of the PCM format, the channels, the frequency and
      whatever else. */
  function Format(rate: Rate, channels: nat, rest: Bytes): (r: Bytes)
    requires channels < 0x1_0000 && |rest| >= 8
    ensures |r| == 8 + |rest| >= 16
  {
    [1, 0] + [channels % 0x100, channels / 0x100] + ToLe32(RateToFreq(rate)) + rest
  }

  lemma RateIsFound(rate: Rate)
    ensures FreqToRate(RateToFreq(rate)) == Some(rate)
  {
  }

  /** A format is understood as it was written. */
  lemma FormatRoundTrip(rate: Rate, channels: nat, rest: Bytes, offset: nat)
    requires channels < 0x1_0000 && |rest| >= 8
    ensures Meaning(Some(Format(rate, channels, rest)), offset) == Accepted(rate, channels, offset)
  {
    var body, freq := Format(rate, channels, rest), ToLe32(RateToFreq(rate));
    assert body[4..4 + |freq|] == freq;
    SameNumbers(body, 4, freq, 0);
    Le32RoundTrip(RateToFreq(rate));
    RateIsFound(rate);
  }

  /** A format is accepted exactly if it is PCM at one of the nine frequencies, of which only the low
      16 bits count. */
  lemma AcceptedIff(body: Bytes, offset: nat)
    requires |body| >= 16
    ensures Meaning(Some(body), offset).Accepted? <==>
            body[0] == 1 && body[1] == 0 && exists r: Rate :: RateToFreq(r) == Le32(body, 4) % 0x1_0000
  {
  }

  lemma SameNumbers(w: Bytes, at: nat, v: Bytes, i: nat)
    requires at + |v| <= |w| && w[at..at + |v|] == v
    ensures i + 2 <= |v| ==> Le16(w, at + i) == Le16(v, i)
    ensures i + 4 <= |v| ==> Le32(w, at + i) == Le32(v, i)
  {
    assert forall k :: 0 <= k < |v| ==> w[at + k] == v[k];
  }

  /** The first `n` bytes of `v` stand at `at`. */
  predicate Holds(w: Bytes, at: nat, v: Bytes, n: nat)
    requires n <= |v| && at + n <= |w|
  {
    forall k :: 0 <= k < n ==> w[at + k] == v[k]
  }

  /** `fmt` points at a copy of the format chunk met last. */
  predicate Remembers(w: Bytes, ptr: nat, fmt: Option<nat>, format: Option<Bytes>) {
    match (fmt, format)
    case (None, None) => true
    case (Some(f), Some(body)) => |body| >= 16 && f + 16 <= ptr <= |w| && Holds(w, f, body, 16)
    case _ => false
  }

  lemma FinishMeans(w: Bytes, ptr: nat, fmt: Option<nat>, format: Option<Bytes>)
    requires |w| == WINDOW && Remembers(w, ptr, fmt, format)
    ensures Finish(w, ptr, fmt) == Meaning(format, ptr)
  {
    if fmt.Some? {
      var f, v := fmt.value, format.value;
      assert w[f + 0] == v[0] && w[f + 1] == v[1] && w[f + 2] == v[2] && w[f + 3] == v[3];
      assert w[f + 4] == v[4] && w[f + 5] == v[5] && w[f + 6] == v[6] && w[f + 7] == v[7];
    }
  }

  /** The chunk stands at `ptr`. */
  predicate ChunkAt(w: Bytes, ptr: nat, c: Chunk) {
    var size := |c.body|;
    && ptr + Extent(c) <= |w|
    && Le32(w, ptr) == (if c.Fmt? then FMT else FACT) && Le32(w, ptr + 4) == size
    && Holds(w, ptr + 8, c.body, size)
    && (size % 2 == 1 ==> w[ptr + 8 + size] == 0)
  }

  /** The chunks stand one behind the other from `ptr`, and the data chunk follows. */
  predicate Laid(w: Bytes, ptr: nat, chunks: Chunks)
    decreases chunks
  {
    if chunks.Nil? then ptr + 8 <= |w| && Le32(w, ptr) == DATA
    else ChunkAt(w, ptr, chunks.head) && Laid(w, ptr + Extent(chunks.head), chunks.tail)
  }

  lemma WrittenIsChunk(c: Chunk)
    requires WellFormed(c)
    ensures ChunkAt(Written(c), 0, c)
  {
    var v, size := Written(c), ToLe32(|c.body|);
    assert v[0..4] == Tag(c);
    assert v[4..8] == size;
    SameNumbers(v, 0, Tag(c), 0);
    SameNumbers(v, 4, size, 0);
    Le32RoundTrip(|c.body|);
  }

  lemma ChunkMoves(w: Bytes, ptr: nat, c: Chunk, v: Bytes)
    requires ChunkAt(v, 0, c) && ptr + |v| <= |w| && w[ptr..ptr + |v|] == v
    ensures ChunkAt(w, ptr, c)
  {
    SameNumbers(w, ptr, v, 0);
    SameNumbers(w, ptr, v, 4);
    var size := |c.body|;
    assert forall k :: 0 <= k < |v| ==> w[ptr + k] == v[k];
    forall k | 0 <= k < size
      ensures w[ptr + 8 + k] == c.body[k]
    {
      assert w[ptr + (8 + k)] == v[8 + k] == c.body[k];
    }
    assert size % 2 == 1 ==> v[8 + size] == 0;
  }

  lemma SplitSlice(w: Bytes, ptr: nat, v: Bytes, rest: Bytes)
    requires ptr + |v| + |rest| <= |w| && w[ptr..ptr + |v| + |rest|] == v + rest
    ensures w[ptr..ptr + |v|] == v && w[ptr + |v|..ptr + |v| + |rest|] == rest
  {
    var all := v + rest;
    assert all[..|v|] == v && all[|v|..] == rest;
  }

  lemma WrittenMoves(w: Bytes, ptr: nat, c: Chunk, rest: Bytes)
    requires WellFormed(c) && ptr + Extent(c) + |rest| <= |w|
    requires w[ptr..ptr + Extent(c) + |rest|] == Written(c) + rest
    ensures ChunkAt(w, ptr, c)
    ensures w[ptr + Extent(c)..ptr + Extent(c) + |rest|] == rest
  {
    SplitSlice(w, ptr, Written(c), rest);
    WrittenIsChunk(c);
    ChunkMoves(w, ptr, c, Written(c));
  }

  lemma {:induction false} SerialisedIsLaid(w: Bytes, ptr: nat, chunks: Chunks)
    requires chunks.AllWellFormed() && ptr + |chunks.Serialise()| + 8 <= |w|
    requires w[ptr..ptr + |chunks.Serialise()|] == chunks.Serialise()
    requires Le32(w, ptr + |chunks.Serialise()|) == DATA
    ensures Laid(w, ptr, chunks)
    decreases chunks
  {
    if chunks.Cons? {
      WrittenMoves(w, ptr, chunks.head, chunks.tail.Serialise());
      SerialisedIsLaid(w, ptr + Extent(chunks.head), chunks.tail);
    }
  }

  lemma WalkPasses(w: Bytes, ptr: nat, c: Chunk, fmt: Option<nat>)
    requires |w| == WINDOW && ChunkAt(w, ptr, c)
    ensures Walk(w, ptr, fmt) == Walk(w, ptr + 8 + |c.body|, if c.Fmt? then Some(ptr + 8) else fmt)
  {
  }

  lemma WalkFinishes(w: Bytes, ptr: nat, fmt: Option<nat>)
    requires |w| == WINDOW && Laid(w, ptr, Nil)
    ensures Walk(w, ptr, fmt) == Finish(w, ptr, fmt)
  {
  }

  lemma WalkStopsAtZero(w: Bytes, ptr: nat, fmt: Option<nat>)
    requires |w| == WINDOW && ptr + 8 <= WINDOW && w[ptr] == 0
    ensures Walk(w, ptr, fmt) == UnknownSection
  {
    assert Le32(w, ptr) % 0x100 == 0;
  }

  /** Past a chunk of even size the walk remembers the format chunk met last. */
  lemma PassChunk(w: Bytes, ptr: nat, c: Chunk, fmt: Option<nat>, format: Option<Bytes>)
    requires |w| == WINDOW && ChunkAt(w, ptr, c) && WellFormed(c) && |c.body| % 2 == 0
    requires Remembers(w, ptr, fmt, format)
    ensures var fmt' := if c.Fmt? then Some(ptr + 8) else fmt;
            && Walk(w, ptr, fmt) == Walk(w, ptr + Extent(c), fmt')
            && Remembers(w, ptr + Extent(c), fmt', if c.Fmt? then Some(c.body) else format)
  {
    WalkPasses(w, ptr, c, fmt);
    if c.Fmt? {
      assert Holds(w, ptr + 8, c.body, 16);
    }
  }

  /** The walk arrives at the data chunk, remembering the last format chunk. */
  lemma {:induction false} WalkArrives(w: Bytes, ptr: nat, chunks: Chunks, fmt: Option<nat>,
                                       format: Option<Bytes>) returns (last: Option<nat>)
    requires |w| == WINDOW && Laid(w, ptr, chunks) && chunks.AllEven() && chunks.AllWellFormed()
    requires Remembers(w, ptr, fmt, format)
    ensures Walk(w, ptr, fmt) == Walk(w, ptr + chunks.Size(), last)
    ensures Laid(w, ptr + chunks.Size(), Nil)
    ensures Remembers(w, ptr + chunks.Size(), last, chunks.LastFormat(format))
    decreases chunks
  {
    match chunks
    case Nil =>
      last := fmt;
    case Cons(c, tail) =>
      PassChunk(w, ptr, c, fmt, format);
      last := WalkArrives(w, ptr + Extent(c), tail, if c.Fmt? then Some(ptr + 8) else fmt,
                          if c.Fmt? then Some(c.body) else format);
  }

  lemma LaidFits(w: Bytes, ptr: nat, chunks: Chunks)
    requires Laid(w, ptr, chunks)
    ensures ptr + 8 <= |w|
  {
  }

  /** A chunk of odd size derails the walk, which does not skip the padding. */
  lemma {:induction false} OddDerails(w: Bytes, ptr: nat, chunks: Chunks, fmt: Option<nat>)
    requires |w| == WINDOW && Laid(w, ptr, chunks) && !chunks.AllEven()
    ensures Walk(w, ptr, fmt) == UnknownSection
    decreases chunks
  {
    var c := chunks.head;
    var fmt' := if c.Fmt? then Some(ptr + 8) else fmt;
    WalkPasses(w, ptr, c, fmt);
    if |c.body| % 2 == 0 {
      OddDerails(w, ptr + Extent(c), chunks.tail, fmt');
    } else {
      LaidFits(w, ptr + Extent(c), chunks.tail);
      WalkStopsAtZero(w, ptr + 8 + |c.body|, fmt');
    }
  }

  /** A file header: `RIFF`/`WAVE`, format and fact chunks in any number and order, and the header
      of the data chunk, all within the bytes that are read. */
  predicate IsHeader(w: Bytes, chunks: Chunks) {
    && |w| == WINDOW && chunks.AllWellFormed()
    && HEADER + |chunks.Serialise()| + 8 <= WINDOW
    && w[HEADER..HEADER + |chunks.Serialise()|] == chunks.Serialise()
    && w[HEADER + |chunks.Serialise()|..HEADER + |chunks.Serialise()| + 4] == DATA_TAG
  }

  lemma EvenHeader(w: Bytes, chunks: Chunks)
    requires |w| == WINDOW && Laid(w, HEADER, chunks) && chunks.AllWellFormed() && chunks.AllEven()
    ensures Walk(w, HEADER, None) == Meaning(chunks.LastFormat(None), HEADER + chunks.Size())
  {
    var last := WalkArrives(w, HEADER, chunks, None, None);
    WalkFinishes(w, HEADER + chunks.Size(), last);
    FinishMeans(w, HEADER + chunks.Size(), last, chunks.LastFormat(None));
  }

  lemma HeaderIsLaid(w: Bytes, chunks: Chunks)
    requires IsHeader(w, chunks)
    ensures Laid(w, HEADER, chunks) && |w| == WINDOW && chunks.AllWellFormed()
  {
    DataTag(w, HEADER + |chunks.Serialise()|);
    SerialisedIsLaid(w, HEADER, chunks);
  }

  /** For every such header the walk terminates and reports what the last format chunk says, with
      the offset of the data chunk's header, provided no chunk has an odd size; otherwise it gives
      up at the padding. */
  lemma HeaderRoundTrip(w: Bytes, chunks: Chunks)
    requires IsHeader(w, chunks)
    ensures chunks.AllEven() ==>
              Walk(w, HEADER, None) == Meaning(chunks.LastFormat(None), HEADER + chunks.Size())
    ensures !chunks.AllEven() ==> Walk(w, HEADER, None) == UnknownSection
  {
    HeaderIsLaid(w, chunks);
    if chunks.AllEven() {
      EvenHeader(w, chunks);
    } else {
      OddDerails(w, HEADER, chunks, None);
    }
  }
}
