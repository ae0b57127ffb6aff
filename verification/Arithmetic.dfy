/** Facts about products, quotients and remainders that the other modules share. */
module Arithmetic {
  lemma MulBound(d: int, m: int)
    requires m > 0
    ensures d >= 1 ==> d * m >= m
    ensures d <= -1 ==> d * m <= -m
  {
  }

  lemma ModUnique(x: int, q: int, r: int, m: int)
    requires 0 <= r < m && x == q * m + r
    ensures x % m == r && x / m == q
  {
    var d := x / m - q;
    assert d * m == r - x % m by {
      assert x == (x / m) * m + x % m;
      assert d * m == (x / m) * m - q * m;
    }
    MulBound(d, m);
  }

  lemma ModShift(a: int, c: int, m: int)
    requires m > 0
    ensures (a + c * m) % m == a % m
  {
    assert a + c * m == (a / m + c) * m + a % m by {
      assert (a / m + c) * m == (a / m) * m + c * m;
    }
    ModUnique(a + c * m, a / m + c, a % m, m);
  }

  lemma MulOrder(a: int, b: int, m: int)
    requires m > 0
    ensures a <= b ==> a * m <= b * m
    ensures a < b ==> a * m + m <= b * m
    ensures a * m <= b * m ==> a <= b
  {
    assert (b - a) * m == b * m - a * m;
    MulBound(b - a, m);
  }

  lemma FloorBounds(x: int, m: int)
    requires m > 0
    ensures (x / m) * m <= x < (x / m) * m + m
  {
  }

  lemma Exact(q: int, m: int)
    requires m > 0
    ensures (q * m) / m == q
  {
    MulOrder((q * m) / m, q, m);
    MulOrder(q, (q * m) / m, m);
    FloorBounds(q * m, m);
  }
}
