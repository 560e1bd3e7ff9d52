/** Products and quotients. */
module Arithmetic {
  lemma DivRemainder(n: int, r: int)
    requires n >= 0 && r > 0
    ensures n == n / r * r + n % r && 0 <= n % r < r && n / r >= 0
  {
    assert n == r * (n / r) + n % r;
    assert r * (n / r) == n / r * r;
  }

  lemma MulOrder(r: int, a: int, b: int)
    requires r > 0 && a <= b
    ensures r * a <= r * b && a * r == r * a && b * r == r * b
    ensures r * b == r * a + r * (b - a)
  {
    assert r * (b - a) >= 0;
  }

  lemma SmallQuotient(n: int, r: int)
    requires 0 <= n < r
    ensures n / r == 0
  {
  }

  lemma ShiftQuotient(n: int, r: int, j: int)
    requires n >= 0 && r > 0 && 0 <= j <= n / r
    ensures (n - r * j) / r == n / r - j
  {
    DivRemainder(n, r);
    var m := n - r * j;
    assert m == r * (n / r - j) + n % r;
    UniqueQuotient(m, r, n / r - j, n % r);
  }

  lemma UniqueQuotient(n: int, r: int, q: int, rem: int)
    requires r > 0 && n == r * q + rem && 0 <= rem < r && q >= 0
    ensures n / r == q
  {
    assert n >= 0 by { MulOrder(r, 0, q); }
    DivRemainder(n, r);
    var d := n / r;
    if d < q { MulOrder(r, d + 1, q); } else if d > q { MulOrder(r, q + 1, d); }
  }
}
