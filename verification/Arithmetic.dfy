/** Number facts shared by the coder, the frequency tables and the copy loops. */
module Arithmetic {

  function Pow2(n: nat): (p: nat)
    ensures p >= 1
  {
    if n == 0 then 1 else 2 * Pow2(n - 1)
  }

  lemma {:induction false} Pow2Adds(m: nat, n: nat)
    ensures Pow2(m + n) == Pow2(m) * Pow2(n)
  {
    if m == 0 {
    } else {
      Pow2Adds(m - 1, n);
      assert Pow2(m + n) == 2 * Pow2(m - 1 + n);
      assert 2 * (Pow2(m - 1) * Pow2(n)) == (2 * Pow2(m - 1)) * Pow2(n);
    }
  }

  lemma {:induction false} Pow2Grows(m: nat, n: nat)
    requires m <= n
    ensures Pow2(m) <= Pow2(n)
    decreases n - m
  {
    if m < n {
      Pow2Grows(m, n - 1);
    }
  }

  /** One more than the largest 64-bit word. */
  const WORD: nat := 0x1_0000_0000_0000_0000

  lemma Pow64()
    ensures Pow2(64) == WORD && Pow2(63) == WORD / 2
  {
    assert Pow2(8) == 256;
    Pow2Adds(8, 8);
    Pow2Adds(16, 16);
    Pow2Adds(32, 32);
    assert Pow2(64) == 2 * Pow2(63);
    hide Pow2;
  }

  lemma MulOrdered(a: int, b: int, c: nat)
    requires a <= b
    ensures a * c <= b * c
  {
  }

  /** Floor division: q == x / y exactly when q * y <= x < (q + 1) * y. */
  lemma DivBounds(x: nat, y: nat)
    requires y > 0
    ensures x / y * y <= x < (x / y + 1) * y
  {
  }

  lemma DivAtLeast(x: nat, y: nat, q: nat)
    requires y > 0 && q * y <= x
    ensures q <= x / y
  {
    DivBounds(x, y);
    if q > x / y {
      MulOrdered(x / y + 1, q, y);
    }
  }

  lemma DivBelow(x: nat, y: nat, q: nat)
    requires y > 0 && x < q * y
    ensures x / y < q
  {
    DivBounds(x, y);
    if q <= x / y {
      MulOrdered(q, x / y, y);
    }
  }

  lemma DivOrdered(a: nat, b: nat, y: nat)
    requires y > 0 && a <= b
    ensures a / y <= b / y
  {
    var q := a / y;
    assert 0 <= q && q * y <= b by { DivBounds(a, y); }
    DivAtLeast(b, y, q);
  }

  /** Cutting a range in proportion lo : hi out of t leaves a non-empty part inside it. */
  lemma ProportionalPart(range: nat, t: nat, lo: nat, hi: nat)
    requires lo < hi <= t <= range
    ensures 0 <= lo * range / t < hi * range / t <= range
  {
    DivAtLeast(lo * range, t, 0);
    var a, b := lo * range, hi * range;
    assert a + range <= b by { MulOrdered(lo + 1, hi, range); }
    var q := a / t;
    assert (q + 1) * t <= b by { DivBounds(a, t); }
    DivAtLeast(b, t, q + 1);
    assert b < (range + 1) * t by { MulOrdered(hi, t, range); }
    DivBelow(b, t, range + 1);
  }

  lemma ProductsOrdered(a: nat, b: nat, x: nat, y: nat)
    requires a <= b && x <= y
    ensures a * x <= b * y
  {
    MulOrdered(a, b, x);
    MulOrdered(x, y, b);
  }

  /** Integer division of C: the quotient is truncated toward zero. */
  function TruncDiv(a: int, b: int): (q: int)
    requires b > 0
  {
    if a >= 0 then a / b else -((-a) / b)
  }

  /** Its sign is that of the dividend, its magnitude the floor of the magnitudes' quotient. */
  lemma TruncDivIs(a: int, b: int)
    requires b > 0
    ensures a >= 0 ==> TruncDiv(a, b) >= 0 && TruncDiv(a, b) * b <= a < (TruncDiv(a, b) + 1) * b
    ensures a <= 0 ==> TruncDiv(a, b) <= 0 && -TruncDiv(a, b) * b <= -a < (-TruncDiv(a, b) + 1) * b
  {
    var n := if a >= 0 then a else -a;
    DivBounds(n, b);
    DivAtLeast(n, b, 0);
  }

  /** The floor of a quotient, by multiplication. */
  ghost predicate IsQuotient(q: nat, x: nat, y: nat)
  {
    q * y <= x < (q + 1) * y
  }

  lemma FloorIsQuotient(x: nat, y: nat)
    requires y > 0
    ensures x / y >= 0 && IsQuotient(x / y, x, y)
  {
    DivBounds(x, y);
    DivAtLeast(x, y, 0);
  }

  lemma QuotientIsUnique(q: nat, p: nat, x: nat, y: nat)
    requires IsQuotient(q, x, y) && IsQuotient(p, x, y)
    ensures q == p
  {
    if q < p {
      MulOrdered(q + 1, p, y);
    } else if p < q {
      MulOrdered(p + 1, q, y);
    }
  }

  lemma TruncDivOrdered(a: int, c: int, b: int)
    requires b > 0 && a <= c
    ensures TruncDiv(a, b) <= TruncDiv(c, b)
  {
    if 0 <= a {
      DivOrdered(a, c, b);
    } else if c < 0 {
      DivOrdered(-c, -a, b);
    } else {
      DivAtLeast(c, b, 0);
      DivAtLeast(-a, b, 0);
    }
  }
}
