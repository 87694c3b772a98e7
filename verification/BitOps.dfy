/** The bitwise operators of C on unsigned words, as operations on naturals. */
module BitOps {
  import opened Arithmetic

  function And(x: nat, y: nat): (r: nat)
  {
    if x == 0 || y == 0 then 0 else 2 * And(x / 2, y / 2) + (if x % 2 == 1 && y % 2 == 1 then 1 else 0)
  }

  function Or(x: nat, y: nat): (r: nat)
  {
    if x == 0 then y else if y == 0 then x
    else 2 * Or(x / 2, y / 2) + (if x % 2 == 1 || y % 2 == 1 then 1 else 0)
  }

  function Xor(x: nat, y: nat): (r: nat)
  {
    if x == 0 then y else if y == 0 then x
    else 2 * Xor(x / 2, y / 2) + (if x % 2 == y % 2 then 0 else 1)
  }

  /** Complement of a 64-bit word. */
  function Not64(x: nat): (r: nat)
    requires x < WORD
  {
    WORD - 1 - x
  }

  /** Bit k of x, the least significant bit being bit 0. */
  function NthBit(x: nat, k: nat): (b: nat)
    ensures b < 2
  {
    if k == 0 then x % 2 else NthBit(x / 2, k - 1)
  }

  lemma {:induction false} BitOfXor(x: nat, y: nat, k: nat)
    ensures NthBit(Xor(x, y), k) == (if NthBit(x, k) == NthBit(y, k) then 0 else 1)
    decreases k
  {
    if x == 0 { BitOfZero(k); }
    if y == 0 { BitOfZero(k); }
    if x != 0 && y != 0 && k > 0 {
      BitOfXor(x / 2, y / 2, k - 1);
    }
  }

  lemma {:induction false} BitOfAnd(x: nat, y: nat, k: nat)
    ensures NthBit(And(x, y), k) == (if NthBit(x, k) == 1 && NthBit(y, k) == 1 then 1 else 0)
    decreases k
  {
    if x == 0 || y == 0 {
      BitOfZero(k);
    } else if k > 0 {
      BitOfAnd(x / 2, y / 2, k - 1);
    }
  }

  lemma {:induction false} BitOfZero(k: nat)
    ensures NthBit(0, k) == 0
  {
    if k > 0 { BitOfZero(k - 1); }
  }

  /** Masking with a single bit keeps exactly that bit. */
  lemma {:induction false} AndSingleBit(x: nat, k: nat)
    ensures And(x, Pow2(k)) == (if NthBit(x, k) == 1 then Pow2(k) else 0)
    decreases k
  {
    if x == 0 {
      BitOfZero(k);
    } else if k > 0 {
      AndSingleBit(x / 2, k - 1);
      assert Pow2(k) % 2 == 0 && Pow2(k) / 2 == Pow2(k - 1);
    } else {
      assert And(x / 2, 0) == 0;
    }
  }

  /** Masking with 2^k - 1 is the remainder modulo 2^k. */
  lemma {:induction false} AndMask(x: nat, k: nat)
    ensures And(x, Pow2(k) - 1) == x % Pow2(k)
    decreases k
  {
    if k > 0 {
      var p := Pow2(k - 1);
      AndMask(x / 2, k - 1);
      HalvedRemainder(x, p);
      AndOdd(x, p - 1);
    }
  }

  lemma AndOdd(x: nat, m: nat)
    ensures And(x, 2 * m + 1) == 2 * And(x / 2, m) + x % 2
  {
  }

  lemma HalvedRemainder(x: nat, p: nat)
    requires p > 0
    ensures x % (2 * p) == 2 * (x / 2 % p) + x % 2
  {
    var h := x / 2;
    var q, r := h / p, h % p;
    assert h == q * p + r;
    assert 2 * (q * p) == q * (2 * p);
    RemainderIs(x, 2 * p, q, 2 * r + x % 2);
  }

  lemma RemainderIs(x: nat, y: nat, q: nat, r: nat)
    requires r < y && x == q * y + r
    ensures x % y == r && x / y == q
  {
    DivBounds(x, y);
    if x / y < q { MulOrdered(x / y + 1, q, y); }
    if x / y > q { MulOrdered(q + 1, x / y, y); }
  }

  /** The top bit of a word of k + 1 bits. */
  lemma {:induction false} TopBit(x: nat, k: nat)
    requires x < Pow2(k + 1)
    ensures NthBit(x, k) == (if x >= Pow2(k) then 1 else 0)
    decreases k
  {
    if k > 0 {
      TopBit(x / 2, k - 1);
    }
  }

  /** Bits below the top one do not depend on it. */
  lemma {:induction false} BitBelowTop(x: nat, j: nat, k: nat)
    requires j < k
    ensures NthBit(x + Pow2(k), j) == NthBit(x, j)
    decreases j
  {
    assert Pow2(k) == 2 * Pow2(k - 1);
    if j > 0 {
      assert (x + Pow2(k)) / 2 == x / 2 + Pow2(k - 1);
      BitBelowTop(x / 2, j - 1, k - 1);
    }
  }

  lemma {:induction false} BitOfComplement(x: nat, k: nat, w: nat)
    requires x < Pow2(w) && k < w
    ensures NthBit(Pow2(w) - 1 - x, k) == 1 - NthBit(x, k)
    decreases k
  {
    if k > 0 {
      assert (Pow2(w) - 1 - x) / 2 == Pow2(w - 1) - 1 - x / 2;
      BitOfComplement(x / 2, k - 1, w - 1);
    }
  }

  /** Joining disjoint words: or and exclusive or with a free bit add it. */
  lemma {:induction false} JoinBit(x: nat, k: nat)
    requires x < Pow2(k)
    ensures Or(x, Pow2(k)) == x + Pow2(k) == Xor(x, Pow2(k))
    decreases k
  {
    if k > 0 && x > 0 {
      JoinBit(x / 2, k - 1);
      assert Pow2(k) % 2 == 0 && Pow2(k) / 2 == Pow2(k - 1);
    }
  }

  /** Exclusive or with the top bit, when set, clears it. */
  lemma {:induction false} ClearBit(x: nat, k: nat)
    requires Pow2(k) <= x < Pow2(k + 1)
    ensures Xor(x, Pow2(k)) == x - Pow2(k)
    decreases k
  {
    if k > 0 {
      ClearBit(x / 2, k - 1);
      assert Pow2(k) % 2 == 0 && Pow2(k) / 2 == Pow2(k - 1);
    } else {
      assert x == 1;
      assert Xor(0, 0) == 0;
    }
  }

  lemma OrOne(x: nat)
    requires x % 2 == 0
    ensures Or(x, 1) == x + 1
  {
    if x > 0 {
      assert Or(x / 2, 0) == x / 2;
    }
  }
}
