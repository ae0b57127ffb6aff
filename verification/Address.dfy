/** Splitting a URL and reading a dotted-quad address (common/net.c). */
module Address {
  import opened Arithmetic
  import opened Wrappers
  import opened Cmd
  import opened Libc

  const COLON: int := 58
  const DOT: int := 46

  function Http(): Text {
    Chars("http://")
  }

  // ---------------------------------------------------------------- URLs

  /** Host name, port if the URL has one, and the rest. */
  datatype Url = Url(host: Text, port: Option<int>, remote: Text)

  predicate EndsHost(c: int) {
    c == COLON || c == SLASH
  }

  function HostPart(text: Text): (r: Text)
    ensures r <= text && (forall k :: 0 <= k < |r| ==> !EndsHost(r[k]))
    ensures |r| < |text| ==> EndsHost(text[|r|])
  {
    if text == [] || EndsHost(text[0]) then [] else [text[0]] + HostPart(text[1..])
  }

  function DigitPart(text: Text): (r: Text)
    ensures r <= text && (forall k :: 0 <= k < |r| ==> IsDigit(r[k]))
    ensures |r| < |text| ==> !IsDigit(text[|r|])
  {
    if text == [] || !IsDigit(text[0]) then [] else [text[0]] + DigitPart(text[1..])
  }

  /** What follows the scheme. */
  function AfterScheme(address: Text): Text {
    if Http() <= address then address[|Http()|..] else address
  }

  /** `net_parse_url` behind the scheme; the port is read from where the digits start. */
  function SplitText(text: Text): Url {
    var host := HostPart(text);
    var rest := text[|host|..];
    if rest != [] && rest[0] == COLON then
      var tail := rest[1..];
      Url(host, Some(Atoi(tail)), tail[|DigitPart(tail)|..])
    else Url(host, None, rest)
  }

  function Split(address: Text): Url {
    SplitText(AfterScheme(address))
  }

  method ScanHost(text: Text) returns (index: nat)
    ensures index <= |text| && text[..index] == HostPart(text)
  {
    ghost var host := HostPart(text);
    assert forall k :: 0 <= k < |host| ==> !EndsHost(text[k]);
    index := 0;
    while index < |text| && text[index] != COLON && text[index] != SLASH
      invariant index <= |host|
    {
      index := index + 1;
    }
  }

  method ScanDigits(text: Text) returns (index: nat)
    ensures index <= |text| && text[..index] == DigitPart(text)
  {
    ghost var digits := DigitPart(text);
    assert forall k :: 0 <= k < |digits| ==> IsDigit(text[k]);
    index := 0;
    while index < |text| && IsDigit(text[index])
      invariant index <= |digits|
    {
      index := index + 1;
    }
  }

  /** The scans of the source: scheme, host, port, rest. */
  method ParseUrl(address: Text) returns (url: Url)
    ensures url == Split(address)
  {
    var text := address;
    if Http() <= address {
      text := address[|Http()|..];
    }
    var index := ScanHost(text);
    var host, rest := text[..index], text[index..];
    if rest != [] && rest[0] == COLON {
      var tail := rest[1..];
      index := ScanDigits(tail);
      return Url(host, Some(Atoi(tail)), tail[index..]);
    }
    return Url(host, None, rest);
  }

  /** The port as written: a colon and digits, or nothing. */
  function PortPart(rest: Text): Text {
    if rest != [] && rest[0] == COLON then [COLON] + DigitPart(rest[1..]) else []
  }

  function RemotePart(rest: Text): Text {
    if rest != [] && rest[0] == COLON then rest[1..][|DigitPart(rest[1..])|..] else rest
  }

  lemma RestIsLossless(rest: Text)
    ensures rest == PortPart(rest) + RemotePart(rest)
  {
    if rest != [] && rest[0] == COLON {
      var tail := rest[1..];
      assert rest == [COLON] + tail;
      assert tail == DigitPart(tail) + tail[|DigitPart(tail)|..];
    }
  }

  /** The parts make up the address again, for every address: scheme, host, an optional colon with
      digits, and the rest. */
  lemma SplitIsLossless(address: Text)
    ensures var url := Split(address);
            var scheme := if Http() <= address then Http() else [];
            var rest := AfterScheme(address)[|url.host|..];
            && address == scheme + (url.host + (PortPart(rest) + url.remote))
            && (url.port.None? <==> PortPart(rest) == [])
  {
    var text := AfterScheme(address);
    SplitParts(text);
    RestIsLossless(text[|HostPart(text)|..]);
    SchemeIsLossless(address);
  }

  lemma SplitParts(text: Text)
    ensures var rest := text[|HostPart(text)|..];
            && SplitText(text).host == HostPart(text)
            && SplitText(text).remote == RemotePart(rest)
            && (SplitText(text).port.None? <==> PortPart(rest) == [])
            && text == HostPart(text) + rest
  {
  }

  lemma SchemeIsLossless(address: Text)
    ensures address == (if Http() <= address then Http() else []) + AfterScheme(address)
  {
  }

  /** A well-formed URL in print. */
  function Print(host: Text, port: Option<nat>, path: Text): Text {
    Http() + host + (if port.Some? then [COLON] + Decimal(port.value) else []) + path
  }

  lemma {:induction false} HostPartIs(host: Text, rest: Text)
    requires forall k :: 0 <= k < |host| ==> !EndsHost(host[k])
    requires rest == [] || EndsHost(rest[0])
    ensures HostPart(host + rest) == host
  {
    if host != [] {
      HostPartIs(host[1..], rest);
      assert (host + rest)[1..] == host[1..] + rest;
    } else {
      assert host + rest == rest;
    }
  }

  lemma {:induction false} DigitPartIs(digits: Text, rest: Text)
    requires forall k :: 0 <= k < |digits| ==> IsDigit(digits[k])
    requires rest == [] || !IsDigit(rest[0])
    ensures DigitPart(digits + rest) == digits
  {
    if digits != [] {
      DigitPartIs(digits[1..], rest);
      assert (digits + rest)[1..] == digits[1..] + rest;
    } else {
      assert digits + rest == rest;
    }
  }

  /** Printing and splitting are inverse: a host name without colon or slash, any port or none, and
      a path that is empty or starts with a slash. */
  lemma SplitInvertsPrint(host: Text, port: Option<nat>, path: Text)
    requires forall k :: 0 <= k < |host| ==> !EndsHost(host[k])
    requires path == [] || path[0] == SLASH
    ensures Split(Print(host, port, path)) == Url(host, port, path)
  {
    var address := Print(host, port, path);
    var digits := if port.Some? then Decimal(port.value) else [];
    var rest := if port.Some? then [COLON] + (digits + path) else path;
    assert address == Http() + (host + rest);
    assert AfterScheme(address) == host + rest;
    HostPartIs(host, rest);
    assert (host + rest)[|host|..] == rest;
    if port.Some? {
      var tail := digits + path;
      assert rest[1..] == tail;
      DigitPartIs(digits, path);
      AtoiOfDecimal(port.value, path);
      assert tail[|digits|..] == path;
    }
  }

  // ---------------------------------------------------------------- dotted quads

  /** The loop of `net_str2ip` from `head`, with the segment that starts at `tail`.  After a dot the
      first character of the next segment is not looked at. */
  function Scan(s: Text, head: nat, tail: nat, ip: nat): Option<nat>
    requires tail <= head
    decreases |s| + 2 - head
  {
    if head > |s| then Some(ip)
    else if head == |s| || s[head] == DOT then
      var segment := Atoi(s[tail..head]);
      if head - tail > 3 || segment < 0 || segment > 255 then None
      else Scan(s, head + 2, head + 1, (ip * 256) % 0x1_0000_0000 + segment)
    else Scan(s, head + 1, tail, ip)
  }

  function StrToIp(s: Text): Option<nat> {
    if |s| < 7 then None else Scan(s, 0, 0, 0)
  }

  method ParseIp(s: Text) returns (ip: Option<nat>)
    ensures ip == StrToIp(s)
  {
    if |s| < 7 {
      return None;
    }
    var head, tail, sum := 0, 0, 0;
    while head <= |s|
      invariant 0 <= tail <= head && 0 <= sum && Scan(s, head, tail, sum) == Scan(s, 0, 0, 0)
      decreases |s| + 2 - head
    {
      if head == |s| || s[head] == DOT {
        if head - tail > 3 {
          return None;
        }
        var segment := Atoi(s[tail..head]);
        if segment < 0 || segment > 255 {
          return None;
        }
        sum := (sum * 256) % 0x1_0000_0000 + segment;
        head := head + 1;
        tail := head;
      }
      head := head + 1;
    }
    return Some(sum);
  }

  lemma {:induction false} ScanSkips(s: Text, head: nat, tail: nat, end: nat, ip: nat)
    requires tail <= head <= end <= |s| && forall k :: head <= k < end ==> s[k] != DOT
    ensures Scan(s, head, tail, ip) == Scan(s, end, tail, ip)
    decreases end - head
  {
    if head < end {
      ScanSkips(s, head + 1, tail, end, ip);
    }
  }

  lemma DecimalLength(n: nat)
    requires n < 256
    ensures 1 <= |Decimal(n)| <= 3
  {
    assert n >= 10 ==> |Decimal(n / 10)| <= 2;
  }

  /** One segment, followed by a dot or the end. */
  lemma ScanSegment(s: Text, tail: nat, head: nat, n: nat, ip: nat)
    requires n < 256 && tail <= head <= tail + 1 && tail + |Decimal(n)| <= |s|
    requires s[tail..tail + |Decimal(n)|] == Decimal(n)
    requires var end := tail + |Decimal(n)|; end == |s| || s[end] == DOT
    ensures var end := tail + |Decimal(n)|;
            Scan(s, head, tail, ip) == Scan(s, end + 2, end + 1, (ip * 256) % 0x1_0000_0000 + n)
  {
    var d := Decimal(n);
    var end := tail + |d|;
    DecimalLength(n);
    forall k | head <= k < end
      ensures s[k] != DOT
    {
      assert s[tail..end][k - tail] == d[k - tail];
    }
    ScanSkips(s, head, tail, end, ip);
    AtoiOfDecimal(n, []);
    assert d + [] == d;
  }

  /** Numbers with dots between them. */
  function Dotted(bytes: seq<nat>): Text
    requires bytes != []
  {
    if |bytes| == 1 then Decimal(bytes[0]) else Decimal(bytes[0]) + ([DOT] + Dotted(bytes[1..]))
  }

  /** The number they stand for, as far as 32 bits hold it. */
  function Value(bytes: seq<nat>, ip: nat): nat {
    if bytes == [] then ip else Value(bytes[1..], (ip * 256) % 0x1_0000_0000 + bytes[0])
  }

  lemma DottedFront(s: Text, at: nat, bytes: seq<nat>)
    requires |bytes| > 1 && at <= |s| && s[at..] == Dotted(bytes)
    ensures var end := at + |Decimal(bytes[0])|;
            && end < |s| && s[at..end] == Decimal(bytes[0]) && s[end] == DOT
            && s[end + 1..] == Dotted(bytes[1..])
  {
    var d, rest := Decimal(bytes[0]), Dotted(bytes[1..]);
    var all := d + ([DOT] + rest);
    assert all[..|d|] == d && all[|d|] == DOT && all[|d| + 1..] == rest;
    assert s[at + |d| + 1..] == s[at..][|d| + 1..];
  }

  lemma {:induction false} ScanDotted(s: Text, at: nat, head: nat, bytes: seq<nat>, ip: nat)
    requires bytes != [] && forall k :: 0 <= k < |bytes| ==> bytes[k] < 256
    requires at <= head <= at + 1 && at <= |s| && s[at..] == Dotted(bytes)
    ensures Scan(s, head, at, ip) == Some(Value(bytes, ip))
    decreases |bytes|
  {
    var n := bytes[0];
    var end, ip' := at + |Decimal(n)|, (ip * 256) % 0x1_0000_0000 + n;
    assert Value(bytes, ip) == Value(bytes[1..], ip');
    if |bytes| == 1 {
      assert Scan(s, head, at, ip) == Scan(s, end + 2, end + 1, ip') by {
        ScanSegment(s, at, head, n, ip);
      }
    } else {
      assert Scan(s, head, at, ip) == Scan(s, end + 2, end + 1, ip') by {
        DottedFront(s, at, bytes);
        ScanSegment(s, at, head, n, ip);
      }
      assert Scan(s, end + 2, end + 1, ip') == Some(Value(bytes[1..], ip')) by {
        DottedFront(s, at, bytes);
        ScanDotted(s, end + 1, end + 2, bytes[1..], ip');
      }
    }
  }

  // ---------------------------------------------------------------- what the value is

  /** The number that bytes stand for, most significant first, with no limit on its size. */
  function BigEndian(bytes: seq<nat>): nat {
    if bytes == [] then 0 else BigEndian(bytes[..|bytes| - 1]) * 256 + bytes[|bytes| - 1]
  }

  function LastFour(bytes: seq<nat>): seq<nat> {
    if |bytes| <= 4 then bytes else bytes[|bytes| - 4..]
  }

  /** Shifting a byte into 32 bits, and into a number of any size. */
  lemma ShiftIn(x: nat, d: nat)
    requires d < 256
    ensures ((x % 0x1_0000_0000) * 256) % 0x1_0000_0000 + d == (x * 256 + d) % 0x1_0000_0000
  {
    var q, r := x / 0x1_0000_0000, x % 0x1_0000_0000;
    var h, l := r / 0x100_0000, r % 0x100_0000;
    ModUnique(r * 256, h, l * 256, 0x1_0000_0000);
    ModUnique(x * 256 + d, q * 256 + h, l * 256 + d, 0x1_0000_0000);
  }

  lemma {:induction false} ValueSnoc(bytes: seq<nat>, d: nat, ip: nat)
    ensures Value(bytes + [d], ip) == (Value(bytes, ip) * 256) % 0x1_0000_0000 + d
    decreases |bytes|
  {
    if bytes == [] {
      assert [] + [d] == [d] && [d][1..] == [];
      assert Value([d], ip) == Value([], (ip * 256) % 0x1_0000_0000 + d);
    } else {
      var ip' := (ip * 256) % 0x1_0000_0000 + bytes[0];
      assert (bytes + [d])[1..] == bytes[1..] + [d];
      assert Value(bytes + [d], ip) == Value(bytes[1..] + [d], ip');
      ValueSnoc(bytes[1..], d, ip');
    }
  }

  lemma {:induction false} ValueIsLow32(bytes: seq<nat>)
    requires forall k :: 0 <= k < |bytes| ==> bytes[k] < 256
    ensures Value(bytes, 0) == BigEndian(bytes) % 0x1_0000_0000
    decreases |bytes|
  {
    if bytes != [] {
      var before, d := bytes[..|bytes| - 1], bytes[|bytes| - 1];
      ValueIsLow32(before);
      assert bytes == before + [d];
      ValueSnoc(before, d, 0);
      ShiftIn(BigEndian(before), d);
    }
  }

  lemma BigEndianSnoc(bytes: seq<nat>, d: nat)
    ensures BigEndian(bytes + [d]) == BigEndian(bytes) * 256 + d
  {
    assert (bytes + [d])[..|bytes|] == bytes;
  }

  lemma BigEndianOfFour(front: seq<nat>, a: nat, b: nat, c: nat, d: nat)
    ensures BigEndian(front + [a] + [b] + [c] + [d]) ==
            BigEndian(front) * 0x1_0000_0000 + (((a * 256 + b) * 256 + c) * 256 + d)
  {
    BigEndianSnoc(front + [a] + [b] + [c], d);
    BigEndianSnoc(front + [a] + [b], c);
    BigEndianSnoc(front + [a], b);
    BigEndianSnoc(front, a);
  }

  lemma {:induction false} BigEndianBound(bytes: seq<nat>)
    requires |bytes| < 4 && forall k :: 0 <= k < |bytes| ==> bytes[k] < 256
    ensures BigEndian(bytes) < 0x100_0000
    ensures |bytes| < 3 ==> BigEndian(bytes) < 0x1_0000
    ensures |bytes| < 2 ==> BigEndian(bytes) < 256
    decreases |bytes|
  {
    if bytes != [] {
      BigEndianBound(bytes[..|bytes| - 1]);
      assert |bytes| == 1 ==> BigEndian(bytes[..0]) == 0;
    }
  }

  lemma QuadBound(a: nat, b: nat, c: nat, d: nat)
    requires a < 256 && b < 256 && c < 256 && d < 256
    ensures ((a * 256 + b) * 256 + c) * 256 + d < 0x1_0000_0000
  {
  }

  lemma LowPart(x: nat, high: nat, low: nat)
    requires low < 0x1_0000_0000 && x == high * 0x1_0000_0000 + low
    ensures x % 0x1_0000_0000 == low
  {
  }

  lemma FourBehind(front: seq<nat>, a: nat, b: nat, c: nat, d: nat)
    requires a < 256 && b < 256 && c < 256 && d < 256
    ensures BigEndian(front + [a] + [b] + [c] + [d]) % 0x1_0000_0000 ==
            BigEndian([] + [a] + [b] + [c] + [d]) < 0x1_0000_0000
  {
    var long, high := BigEndian(front + [a] + [b] + [c] + [d]), BigEndian(front);
    var low := BigEndian([] + [a] + [b] + [c] + [d]);
    assert low < 0x1_0000_0000 && long == high * 0x1_0000_0000 + low by {
      BigEndianOfFour([], a, b, c, d);
      BigEndianOfFour(front, a, b, c, d);
      QuadBound(a, b, c, d);
    }
    LowPart(long, high, low);
  }

  lemma SplitFour(bytes: seq<nat>)
    requires |bytes| >= 4
    ensures var n := |bytes|;
            && bytes == bytes[..n - 4] + [bytes[n - 4]] + [bytes[n - 3]] + [bytes[n - 2]] + [bytes[n - 1]]
            && LastFour(bytes) == [] + [bytes[n - 4]] + [bytes[n - 3]] + [bytes[n - 2]] + [bytes[n - 1]]
  {
  }

  /** Of more than four bytes, 32 bits keep the last four. */
  lemma LastFourCount(bytes: seq<nat>)
    requires forall k :: 0 <= k < |bytes| ==> bytes[k] < 256
    ensures BigEndian(bytes) % 0x1_0000_0000 == BigEndian(LastFour(bytes)) < 0x1_0000_0000
  {
    if |bytes| < 4 {
      BigEndianBound(bytes);
    } else {
      var n := |bytes|;
      SplitFour(bytes);
      FourBehind(bytes[..n - 4], bytes[n - 4], bytes[n - 3], bytes[n - 2], bytes[n - 1]);
    }
  }

  /** Bytes printed with dots are read back if their text is long enough; of more than four the last
      four count, and fewer than four are accepted too. */
  lemma DottedRoundTrip(bytes: seq<nat>)
    requires bytes != [] && forall k :: 0 <= k < |bytes| ==> bytes[k] < 256
    ensures StrToIp(Dotted(bytes)) ==
            if |Dotted(bytes)| < 7 then None else Some(BigEndian(LastFour(bytes)))
  {
    var s := Dotted(bytes);
    assert s[0..] == s;
    ScanDotted(s, 0, 0, bytes, 0);
    ValueIsLow32(bytes);
    LastFourCount(bytes);
  }

  // ---------------------------------------------------------------- every text

  /** The first character of every piece but the first is not looked at, so it may be a dot. */
  predicate Pieces(pieces: seq<Text>) {
    && pieces != [] && DOT !in pieces[0]
    && forall k :: 0 < k < |pieces| ==> pieces[k] != [] && DOT !in pieces[k][1..]
  }

  function Join(pieces: seq<Text>): Text
    requires pieces != []
  {
    if |pieces| == 1 then pieces[0] else pieces[0] + ([DOT] + Join(pieces[1..]))
  }

  predicate Good(piece: Text) {
    |piece| <= 3 && 0 <= Atoi(piece) <= 255
  }

  predicate AllGood(pieces: seq<Text>) {
    forall k :: 0 <= k < |pieces| ==> Good(pieces[k])
  }

  function Numbers(pieces: seq<Text>): (r: seq<nat>)
    requires AllGood(pieces)
    ensures |r| == |pieces| && forall k :: 0 <= k < |r| ==> r[k] < 256
  {
    seq(|pieces|, k requires 0 <= k < |pieces| => Atoi(pieces[k]))
  }

  /** One piece of the text. */
  lemma ScanPiece(s: Text, tail: nat, head: nat, piece: Text, ip: nat)
    requires tail <= head <= tail + 1 && tail + |piece| <= |s| && s[tail..tail + |piece|] == piece
    requires head <= tail + |piece| && DOT !in piece[head - tail..]
    requires var end := tail + |piece|; end == |s| || s[end] == DOT
    ensures var end := tail + |piece|;
            Scan(s, head, tail, ip) ==
            if !Good(piece) then None else Scan(s, end + 2, end + 1, (ip * 256) % 0x1_0000_0000 + Atoi(piece))
  {
    var end := tail + |piece|;
    forall k | head <= k < end
      ensures s[k] != DOT
    {
      assert s[k] == piece[k - tail] == piece[head - tail..][k - head];
    }
    ScanSkips(s, head, tail, end, ip);
  }

  lemma {:induction false} ScanPieces(s: Text, tail: nat, head: nat, pieces: seq<Text>, dot: bool, ip: nat)
    requires pieces != [] && tail <= head <= tail + 1 && tail <= |s|
    requires s[tail..] == Join(pieces) + if dot then [DOT] else []
    requires head - tail <= |pieces[0]| && DOT !in pieces[0][head - tail..]
    requires forall k :: 0 < k < |pieces| ==> pieces[k] != [] && DOT !in pieces[k][1..]
    ensures Scan(s, head, tail, ip) == if AllGood(pieces) then Some(Value(Numbers(pieces), ip)) else None
    decreases |pieces|
  {
    var piece, rest := pieces[0], pieces[1..];
    var end := tail + |piece|;
    PieceEnds(s, tail, pieces, dot);
    ScanPiece(s, tail, head, piece, ip);
    if Good(piece) {
      var ip' := (ip * 256) % 0x1_0000_0000 + Atoi(piece);
      if rest != [] {
        ScanPieces(s, end + 1, end + 2, rest, dot, ip');
      }
      if AllGood(rest) {
        NumbersFront(pieces, ip);
      }
      AllGoodFront(pieces);
    }
  }

  lemma AllGoodFront(pieces: seq<Text>)
    requires pieces != []
    ensures AllGood(pieces) <==> Good(pieces[0]) && AllGood(pieces[1..])
  {
    if Good(pieces[0]) && AllGood(pieces[1..]) {
      forall k | 0 <= k < |pieces|
        ensures Good(pieces[k])
      {
        if k > 0 {
          assert pieces[k] == pieces[1..][k - 1];
        }
      }
    }
  }

  lemma NumbersFront(pieces: seq<Text>, ip: nat)
    requires pieces != [] && Good(pieces[0]) && AllGood(pieces[1..])
    ensures AllGood(pieces)
    ensures Value(Numbers(pieces), ip) ==
            Value(Numbers(pieces[1..]), (ip * 256) % 0x1_0000_0000 + Atoi(pieces[0]))
  {
    AllGoodFront(pieces);
    assert Numbers(pieces)[1..] == Numbers(pieces[1..]);
  }

  lemma PieceEnds(s: Text, tail: nat, pieces: seq<Text>, dot: bool)
    requires pieces != [] && tail <= |s| && s[tail..] == Join(pieces) + if dot then [DOT] else []
    ensures var end := tail + |pieces[0]|;
            && end <= |s| && s[tail..end] == pieces[0] && (end == |s| || s[end] == DOT)
            && (pieces[1..] == [] ==> |s| <= end + 1)
            && (pieces[1..] != [] ==>
                  end < |s| && s[end + 1..] == Join(pieces[1..]) + if dot then [DOT] else [])
  {
    var last: Text := if dot then [DOT] else [];
    var piece, t := pieces[0], s[tail..];
    if |pieces| == 1 {
      assert t == piece + last;
    } else {
      var rest := Join(pieces[1..]);
      assert t == piece + ([DOT] + (rest + last));
      assert t[|piece| + 1..] == rest + last;
      assert s[tail + |piece| + 1..] == t[|piece| + 1..];
    }
    assert t[..|piece|] == piece;
  }

  /** The exact meaning of every dotted text: it is refused if it has fewer than seven characters, or
      if some piece is longer than three characters or not a number up to 255; otherwise it is the
      number of the last four pieces.  A dot at the end is ignored. */
  lemma TextMeans(pieces: seq<Text>, dot: bool)
    requires Pieces(pieces)
    ensures var s := Join(pieces) + if dot then [DOT] else [];
            StrToIp(s) == if |s| < 7 || !AllGood(pieces) then None else Some(BigEndian(LastFour(Numbers(pieces))))
  {
    var s := Join(pieces) + if dot then [DOT] else [];
    assert s[0..] == s && pieces[0][0..] == pieces[0];
    ScanPieces(s, 0, 0, pieces, dot, 0);
    if AllGood(pieces) {
      ValueIsLow32(Numbers(pieces));
      LastFourCount(Numbers(pieces));
    }
  }

  /** And every text is one of these. */
  lemma {:induction false} EveryTextIsDotted(s: Text) returns (pieces: seq<Text>, dot: bool)
    ensures Pieces(pieces) && s == Join(pieces) + if dot then [DOT] else []
    decreases |s|
  {
    var n := FirstDot(s, 0);
    if n == |s| {
      pieces, dot := [s], false;
      assert s + [] == s;
    } else {
      pieces, dot := SplitAt(s, n);
    }
  }

  function FirstDot(s: Text, from: nat): (n: nat)
    requires from <= |s|
    ensures from <= n <= |s| && DOT !in s[from..n] && (n < |s| ==> s[n] == DOT)
    decreases |s| - from
  {
    if from == |s| || s[from] == DOT then from
    else
      var n := FirstDot(s, from + 1);
      assert s[from..n] == [s[from]] + s[from + 1..n];
      n
  }

  /** The pieces of a text that has its first dot at `n`. */
  lemma {:induction false} SplitAt(s: Text, n: nat) returns (pieces: seq<Text>, dot: bool)
    requires n < |s| && s[n] == DOT && DOT !in s[..n]
    ensures Pieces(pieces) && s == Join(pieces) + if dot then [DOT] else []
    decreases |s| - n, 1
  {
    var first, rest := s[..n], s[n + 1..];
    assert s == first + ([DOT] + rest);
    if rest == [] {
      pieces, dot := [first], true;
      assert s == first + [DOT];
    } else {
      var more;
      more, dot := SplitRest(rest);
      pieces := [first] + more;
      assert pieces[1..] == more;
      var last: Text := if dot then [DOT] else [];
      assert first + ([DOT] + (Join(more) + last)) == first + ([DOT] + Join(more)) + last;
      forall k | 0 < k < |pieces|
        ensures pieces[k] != [] && DOT !in pieces[k][1..]
      {
        assert pieces[k] == more[k - 1];
      }
    }
  }

  lemma {:induction false} SplitRest(s: Text) returns (pieces: seq<Text>, dot: bool)
    requires s != []
    ensures pieces != [] && forall k :: 0 <= k < |pieces| ==> pieces[k] != [] && DOT !in pieces[k][1..]
    ensures s == Join(pieces) + if dot then [DOT] else []
    decreases |s|
  {
    var n := FirstDot(s, 1);
    var piece := s[..n];
    assert piece[1..] == s[1..n];
    if n == |s| {
      pieces, dot := [piece], false;
      assert s == piece + [];
    } else if n + 1 == |s| {
      pieces, dot := [piece], true;
      assert s == piece + [DOT];
    } else {
      var more;
      more, dot := SplitRest(s[n + 1..]);
      pieces := [piece] + more;
      assert pieces[1..] == more;
      var last: Text := if dot then [DOT] else [];
      assert s == piece + ([DOT] + s[n + 1..]);
      assert piece + ([DOT] + (Join(more) + last)) == piece + ([DOT] + Join(more)) + last;
    }
  }

  lemma {:induction false} DottedLength(bytes: seq<nat>)
    requires bytes != []
    ensures |Dotted(bytes)| >= 2 * |bytes| - 1
  {
    if |bytes| > 1 {
      DottedLength(bytes[1..]);
    }
  }

  lemma ByteByByte(ip: nat)
    requires ip < 0x1_0000_0000
    ensures var (a, b, c, d) := (ip / 0x100_0000, (ip / 0x1_0000) % 256, (ip / 256) % 256, ip % 256);
            a < 256 && ((a * 256 + b) * 256 + c) * 256 + d == ip
  {
    assert ip / 0x1_0000 == 256 * (ip / 0x100_0000) + (ip / 0x1_0000) % 256;
    assert ip / 256 == 256 * (ip / 0x1_0000) + (ip / 256) % 256;
  }

  /** Every 32-bit address, printed as a dotted quad, is read back. */
  lemma EveryAddressRoundTrips(ip: nat)
    requires ip < 0x1_0000_0000
    ensures var quad := [ip / 0x100_0000, (ip / 0x1_0000) % 256, (ip / 256) % 256, ip % 256];
            StrToIp(Dotted(quad)) == Some(ip)
  {
    var a, b, c, d := ip / 0x100_0000, (ip / 0x1_0000) % 256, (ip / 256) % 256, ip % 256;
    ByteByByte(ip);
    assert [a, b, c, d] == [] + [a] + [b] + [c] + [d];
    BigEndianOfFour([], a, b, c, d);
    DottedLength([a, b, c, d]);
    DottedRoundTrip([a, b, c, d]);
  }
}
