/** The two library routines the command handlers lean on (libs/libc/libc.c, libs/libc/strings.c). */
module Libc {
  import opened Cmd

  const PLUS: int := 43
  const MINUS: int := 45
  const ZERO: int := 48

  predicate IsDigit(c: int) {
    ZERO <= c <= ZERO + 9
  }

  /** The number spelt by the leading digits, given the value so far. */
  function Digits(text: Text, value: nat): (r: int)
    ensures r >= 0
  {
    if text != [] && IsDigit(text[0]) then Digits(text[1..], 10 * value + (text[0] - ZERO)) else value
  }

  /** `q3_atoi`, without the overflow of its accumulator. */
  function Atoi(text: Text): int {
    if text == [] then 0
    else if text[0] <= SPACE then Atoi(text[1..])
    else if text[0] == PLUS then Digits(text[1..], 0)
    else if text[0] == MINUS then -Digits(text[1..], 0)
    else Digits(text, 0)
  }

  /** The characters of a string literal. */
  function Chars(s: string): (r: Text)
    ensures |r| == |s|
  {
    seq(|s|, i requires 0 <= i < |s| => s[i] as int)
  }

  /** A number in decimal. */
  function Decimal(n: nat): (r: Text)
    ensures r != [] && forall k :: 0 <= k < |r| ==> IsDigit(r[k])
  {
    if n < 10 then [ZERO + n] else Decimal(n / 10) + [ZERO + n % 10]
  }

  lemma {:induction false} DigitsAppend(a: Text, b: Text, value: nat)
    requires forall k :: 0 <= k < |a| ==> IsDigit(a[k])
    ensures Digits(a + b, value) == Digits(b, Digits(a, value))
    decreases |a|
  {
    if a == [] {
      assert a + b == b;
    } else {
      DigitsAppend(a[1..], b, 10 * value + (a[0] - ZERO));
      assert (a + b)[1..] == a[1..] + b;
    }
  }

  lemma OneDigit(d: nat, rest: Text, value: nat)
    requires d < 10 && (rest == [] || !IsDigit(rest[0]))
    ensures Digits([ZERO + d] + rest, value) == 10 * value + d
  {
    assert ([ZERO + d] + rest)[1..] == rest;
  }

  /** Reading back a printed number, whatever follows it. */
  lemma {:induction false} DigitsOfDecimal(n: nat, rest: Text)
    requires rest == [] || !IsDigit(rest[0])
    ensures Digits(Decimal(n) + rest, 0) == n
  {
    if n < 10 {
      OneDigit(n, rest, 0);
    } else {
      var d := [ZERO + n % 10];
      DigitsOfDecimal(n / 10, []);
      assert Decimal(n / 10) + [] == Decimal(n / 10);
      assert Decimal(n) + rest == Decimal(n / 10) + (d + rest);
      DigitsAppend(Decimal(n / 10), d + rest, 0);
      OneDigit(n % 10, rest, n / 10);
    }
  }

  lemma {:induction false} PrefixFits(n: nat, k: nat)
    requires k <= |Decimal(n)|
    ensures Digits(Decimal(n)[..k], 0) <= n
    decreases n
  {
    if k == |Decimal(n)| {
      assert Decimal(n)[..k] == Decimal(n) + [];
      DigitsOfDecimal(n, []);
    } else if n >= 10 {
      assert Decimal(n)[..k] == Decimal(n / 10)[..k];
      PrefixFits(n / 10, k);
    }
  }

  /** The accumulator stays inside a 32-bit `int` on all of a printed number exactly when the number
      itself does. */
  lemma AccumulatorFitsIff(n: nat)
    ensures (forall k :: 0 <= k <= |Decimal(n)| ==> Digits(Decimal(n)[..k], 0) < 0x8000_0000)
            <==> n < 0x8000_0000
  {
    var d := Decimal(n);
    assert Digits(d[..|d|], 0) == n by {
      assert d[..|d|] == d + [];
      DigitsOfDecimal(n, []);
    }
    forall k | 0 <= k <= |d|
      ensures Digits(d[..k], 0) <= n
    {
      PrefixFits(n, k);
    }
  }

  lemma AtoiOfDecimal(n: nat, rest: Text)
    requires rest == [] || !IsDigit(rest[0])
    ensures Atoi(Decimal(n) + rest) == n
  {
    DigitsOfDecimal(n, rest);
    assert (Decimal(n) + rest)[0] == Decimal(n)[0];
  }

  /** A number with its sign. */
  function Signed(n: int): (r: Text)
    ensures r != []
  {
    if n < 0 then [MINUS] + Decimal(-n) else Decimal(n)
  }

  lemma AtoiOfMinus(n: nat, rest: Text)
    requires rest == [] || !IsDigit(rest[0])
    ensures Atoi([MINUS] + (Decimal(n) + rest)) == 0 - n
  {
    var digits := Decimal(n) + rest;
    assert ([MINUS] + digits)[1..] == digits;
    DigitsOfDecimal(n, rest);
  }

  lemma AtoiOfPlus(n: nat, rest: Text)
    requires rest == [] || !IsDigit(rest[0])
    ensures Atoi([PLUS] + (Decimal(n) + rest)) == n
  {
    var digits := Decimal(n) + rest;
    assert ([PLUS] + digits)[1..] == digits;
    DigitsOfDecimal(n, rest);
  }

  lemma Reassociate<T>(a: seq<T>, b: seq<T>, c: seq<T>)
    ensures a + b + c == a + (b + c)
  {
  }

  lemma {:induction false} AtoiOfSigned(n: int, rest: Text)
    requires rest == [] || !IsDigit(rest[0])
    ensures Atoi(Signed(n) + rest) == n
  {
    if n < 0 {
      Reassociate([MINUS], Decimal(-n), rest);
      AtoiOfMinus(-n, rest);
    } else {
      AtoiOfDecimal(n, rest);
    }
  }

  /** Whatever leads up to the first visible character is skipped. */
  lemma {:induction false} AtoiSkips(blank: Text, text: Text)
    requires forall k :: 0 <= k < |blank| ==> blank[k] <= SPACE
    ensures Atoi(blank + text) == Atoi(text)
  {
    if blank == [] {
      assert blank + text == text;
    } else {
      assert (blank + text)[1..] == blank[1..] + text;
      AtoiSkips(blank[1..], text);
    }
  }
}
