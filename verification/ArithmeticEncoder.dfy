/**
 The arithmetic encoder as the source runs it: 64-bit registers updated in place with
 bitwise operators, bits going out through the stream. Each method is tied to the function
 of module RangeCoder that it computes.
 */
module ArithmeticEncoder {
  import opened Arithmetic
  import opened BitOps
  import opened RangeCoder
  import opened BitStream
  import opened Words

  lemma StateFits(w: nat)
    requires 1 <= w <= 63
    ensures 2 * Pow2(w) <= WORD
  {
    Pow64();
    Pow2Grows(w, 63);
  }

  /** The greatest total within both limits. */
  lemma MaximumTotalIsGreatest(w: nat, total: nat)
    requires w >= 1
    ensures total <= MaximumTotal(w) <==> total <= Quarter(w) + 2 && total * Pow2(w) < WORD
  {
    var q := (WORD - 1) / Pow2(w);
    DivBounds(WORD - 1, Pow2(w));
    if total <= q {
      MulOrdered(total, q, Pow2(w));
    } else {
      MulOrdered(q + 1, total, Pow2(w));
    }
  }

  function MaximumTotal(w: nat): (m: nat)
    requires w >= 1
  {
    var bySize := (WORD - 1) / Pow2(w);
    var byRange := Quarter(w) + 2;
    if bySize < byRange then bySize else byRange
  }

  /** A total up to the maximum is no more than any settled range, and its products fit. */
  lemma MaximumTotalSuffices(w: nat, total: nat, x: nat, range: nat)
    requires w >= 1 && x <= total <= MaximumTotal(w) && range <= Pow2(w)
    ensures total <= Quarter(w) + 2 && x * range < WORD
  {
    var m := (WORD - 1) / Pow2(w);
    DivBounds(WORD - 1, Pow2(w));
    ProductsOrdered(x, m, range, Pow2(w));
  }

  // ---------------------------------------------------------------- what the bit tests mean

  lemma TopBitsAgree(w: nat, low: nat, high: nat)
    requires Registers(w, low, high)
    ensures And(Xor(low, high), Half(w)) == 0 <==> SameTop(w, low, high)
  {
    AndSingleBit(Xor(low, high), w - 1);
    BitOfXor(low, high, w - 1);
    TopBit(low, w - 1);
    TopBit(high, w - 1);
  }

  lemma SecondBitsCross(w: nat, low: nat, high: nat)
    requires 1 <= w <= 63 && low < Half(w) <= high < Pow2(w)
    ensures high < WORD
    ensures And(And(low, Not64(high)), Quarter(w)) != 0 <==> Straddles(w, low, high)
  {
    StateFits(w);
    if w >= 2 {
      AndSingleBit(And(low, Not64(high)), w - 2);
      CrossedBit(low, high, w - 2);
      SecondBit(w, high);
      TopBit(low, w - 2);
    }
  }

  lemma CrossedBit(low: nat, high: nat, k: nat)
    requires high < WORD && k < 64
    ensures NthBit(And(low, Not64(high)), k) == 1 <==> NthBit(low, k) == 1 && NthBit(high, k) == 0
  {
    BitOfAnd(low, Not64(high), k);
    Pow64();
    BitOfComplement(high, k, 64);
  }

  lemma SecondBit(w: nat, high: nat)
    requires w >= 2 && Half(w) <= high < Pow2(w)
    ensures NthBit(high, w - 2) == (if high >= Half(w) + Quarter(w) then 1 else 0)
  {
    BitBelowTop(high - Half(w), w - 2, w - 1);
    TopBit(high - Half(w), w - 2);
  }

  /** Doubling a register and masking drops its top bit. */
  lemma {:induction false} DoubledAndMasked(w: nat, x: nat)
    requires 1 <= w <= 63 && x < Pow2(w)
    ensures And(U64(x * 2), Pow2(w) - 1) == 2 * x - (if x >= Half(w) then Pow2(w) else 0)
    ensures Or(And(U64(x * 2), Pow2(w) - 1), 1) == 2 * x + 1 - (if x >= Half(w) then Pow2(w) else 0)
  {
    hide U64, And, Or, Pow2, Half;
    StateFits(w);
    AndMask(2 * x, w);
    DoubleModulo(x, Half(w));
    OrOne(And(2 * x, Pow2(w) - 1));
  }

  lemma DoubleModulo(x: nat, h: nat)
    requires x < 2 * h
    ensures 2 * x % (2 * h) == 2 * x - (if x >= h then 2 * h else 0)
  {
    if x >= h {
      RemainderIs(2 * x, 2 * h, 1, 2 * x - 2 * h);
    } else {
      RemainderIs(2 * x, 2 * h, 0, 2 * x);
    }
  }

  lemma UnderflowedLow(w: nat, low: nat)
    requires 2 <= w <= 63 && Quarter(w) <= low < Half(w)
    ensures Xor(U64(low * 2), Half(w)) == 2 * low - Half(w)
  {
    StateFits(w);
    ClearBit(2 * low, w - 1);
  }

  lemma UnderflowedHigh(w: nat, high: nat)
    requires 2 <= w <= 63 && Half(w) <= high < Half(w) + Quarter(w)
    ensures Or(Or(U64(Xor(high, Half(w)) * 2), Half(w)), 1) == 2 * high - Half(w) + 1
  {
    hide U64, Or, Xor;
    StateFits(w);
    var h := 2 * (high - Half(w));
    assert U64(Xor(high, Half(w)) * 2) == h by { ClearBit(high, w - 1); }
    assert Or(h, Half(w)) == h + Half(w) by { JoinBit(h, w - 1); }
    OrOne(h + Half(w));
  }

  /** The top bit of `low`, and its complement. */
  lemma EmittedBit(w: nat, low: nat)
    requires w >= 1 && low < Pow2(w)
    ensures var b := low / Pow2(w - 1);
            b == (if low >= Half(w) then 1 else 0) && Xor(b, 1) == 1 - b
  {
    var b := if low >= Half(w) then 1 else 0;
    RemainderIs(low, Half(w), b, low - b * Half(w));
    assert Xor(0, 0) == 0;
  }

  /** No product of the narrowing step overflows, so 64-bit arithmetic computes it exactly. */
  lemma NarrowingDoesNotWrap(w: nat, low: nat, high: nat, s: Sym)
    requires 1 <= w <= 63 && Settled(w, low, high)
    requires s.lo < s.hi <= s.total <= MaximumTotal(w)
    ensures SymOk(w, s)
    ensures var range := U64(high - low + 1);
            && U64(low + U64(s.lo * range) / s.total) == NewLow(low, high, s)
            && U64(low + U64(s.hi * range) / s.total - 1) == NewEnd(low, high, s) - 1
  {
    hide U64, MaximumTotal, Pow2;
    StateFits(w);
    var range := high - low + 1;
    assert U64(range) == range;
    MaximumTotalSuffices(w, s.total, s.hi, range);
    MaximumTotalSuffices(w, s.total, s.lo, range);
    assert U64(s.lo * range) == s.lo * range && U64(s.hi * range) == s.hi * range;
    NarrowingFits(w, low, high, s);
    hide Settled, Half, Quarter;
  }

  /** k doublings have happened and another is due: there were fewer than w. */
  lemma DoublingsLeft(w: nat, k: nat, width: nat)
    requires w >= 1 && Pow2(k) <= width <= Half(w)
    ensures k < w
  {
    if k >= w {
      Pow2Grows(w, k);
    }
  }

  lemma RepeatNone(b: Bit)
    ensures Repeat(0, b) == []
  {
  }

  lemma RepeatOneMore(bits: seq<Bit>, n: nat, b: Bit)
    ensures bits + Repeat(n + 1, b) == (bits + Repeat(n, b)) + [b]
  {
  }

  lemma JoinTop(bits: seq<Bit>, b: Bit, rest: seq<Bit>)
    ensures (bits + [b]) + rest == bits + ([b] + rest)
  {
  }

  class Encoder {
    const numStateBits: nat
    const fullRange: nat
    const halfRange: nat
    const quarterRange: nat
    const minimumRange: nat
    const maximumTotal: nat
    const stateMask: nat
    const output: BitOutputStream
    var low: nat
    var high: nat
    var numUnderflow: nat

    ghost predicate Constants()
    {
      && 1 <= numStateBits <= 63
      && fullRange == Pow2(numStateBits) && stateMask == fullRange - 1
      && halfRange == Half(numStateBits) && quarterRange == Quarter(numStateBits)
      && minimumRange == quarterRange + 2 && maximumTotal == MaximumTotal(numStateBits)
    }

    ghost predicate Valid()
      reads this, output
    {
      Constants() && output.Valid() && Settled(numStateBits, low, high)
    }

    /** The state as a value. */
    ghost function State(): (e: Enc)
      requires output.Consistent()
      reads this, output, output.buffer
    {
      Enc(low, high, numUnderflow, output.Bits())
    }

    ghost predicate InLoop()
      reads this, output
    {
      Constants() && output.Valid() && Registers(numStateBits, low, high)
    }

    /** The stream can take the pending bits and n more. */
    ghost predicate Room(n: nat)
      reads this, output
    {
      output.Room(numUnderflow + n)
    }

    constructor (numBits: int, out: BitOutputStream)
      requires 1 <= numBits <= 63 && out.Valid()
      ensures Valid() && State() == Start(numBits).(out := out.Bits()) && numStateBits == numBits && output == out
    {
      numStateBits := numBits;
      fullRange := Pow2(numBits);
      halfRange := Pow2(numBits) / 2;
      quarterRange := Pow2(numBits) / 2 / 2;
      minimumRange := Pow2(numBits) / 2 / 2 + 2;
      maximumTotal := MaximumTotal(numBits);
      stateMask := Pow2(numBits) - 1;
      low, high, numUnderflow := 0, Pow2(numBits) - 1, 0;
      output := out;
    }

    method Shift()
      requires InLoop() && Room(1)
      modifies `numUnderflow, output, output.buffer
      ensures output.Valid() && numUnderflow == 0
      ensures output.Bits() == old(output.Bits() + TopBits(numStateBits, State()))
      ensures output.Header() == old(output.Header())
    {
      var bit := low / Pow2(numStateBits - 1);
      EmittedBit(numStateBits, low);
      JoinTop(output.Bits(), bit, Repeat(numUnderflow, 1 - bit));
      hide BitOutputStream.Bits, BitOutputStream.Header, BitOutputStream.Bytes, Pow2, Repeat, Xor, Half;
      var ok := output.Write(bit);
      WritePending(Xor(bit, 1));
    }

    method WritePending(b: nat)
      requires b < 2 && output.Valid() && Room(0)
      modifies `numUnderflow, output, output.buffer
      ensures output.Valid() && numUnderflow == 0
      ensures output.Bits() == old(output.Bits()) + Repeat(old(numUnderflow), b)
      ensures output.Header() == old(output.Header())
    {
      hide BitOutputStream.Bits, BitOutputStream.Header, BitOutputStream.Bytes, Repeat, Half, Pow2;
      RepeatNone(b);
      ghost var n, bits := numUnderflow, output.Bits();
      while numUnderflow > 0
        invariant output.Valid() && numUnderflow <= n && output.Room(numUnderflow)
        invariant output.Bits() == bits + Repeat(n - numUnderflow, b)
        invariant output.Header() == old(output.Header())
      {
        RepeatOneMore(bits, n - numUnderflow, b);
        var ok := output.Write(b);
        numUnderflow := numUnderflow - 1;
      }
    }

    method Underflow()
      modifies `numUnderflow
      ensures numUnderflow == old(numUnderflow) + 1
    {
      numUnderflow := numUnderflow + 1;
    }

    /** Whatever the caller's table says, the new state is the coder function's. */
    method Update(total: nat, symLow: nat, symHigh: nat)
      requires Valid() && symLow < symHigh <= total <= maximumTotal && Room(numStateBits)
      modifies this, output, output.buffer
      ensures SymOk(numStateBits, Sym(total, symLow, symHigh))
      ensures Valid() && State() == Encode(numStateBits, old(State()), Sym(total, symLow, symHigh))
      ensures output.Header() == old(output.Header())
    {
      NarrowRegisters(total, symLow, symHigh);
      ShiftLoop();
      UnderflowLoop();
    }

    method NarrowRegisters(total: nat, symLow: nat, symHigh: nat)
      requires Valid() && symLow < symHigh <= total <= maximumTotal
      modifies `low, `high
      ensures SymOk(numStateBits, Sym(total, symLow, symHigh))
      ensures State() == Narrow(numStateBits, old(State()), Sym(total, symLow, symHigh))
      ensures old(low) <= low <= high <= old(high) && IsNarrowed(old(low), old(high), Sym(total, symLow, symHigh), low, high)
    {
      NarrowingDoesNotWrap(numStateBits, low, high, Sym(total, symLow, symHigh));
      var range := U64(high - low + 1);
      var newLow := U64(low + U64(symLow * range) / total);
      var newHigh := U64(low + U64(symHigh * range) / total - 1);
      low := newLow;
      high := newHigh;
      NarrowingIsProportional(numStateBits, old(State()), Sym(total, symLow, symHigh));
    }

    /** k doublings are done, and the stream has room for the rest. */
    ghost predicate Budget(k: nat)
      requires numStateBits >= 1
      reads this, output
    {
      k <= numStateBits && Room(numStateBits - k) && Pow2(k) <= high - low + 1
    }

    /** One turn of the first loop of `update`. */
    method ShiftTurn(ghost k: nat)
      requires InLoop() && Budget(k) && SameTop(numStateBits, low, high)
      modifies this, output, output.buffer
      ensures InLoop() && Budget(k + 1) && State() == ShiftOnce(numStateBits, old(State()))
      ensures output.Header() == old(output.Header())
    {
      DoublingsLeft(numStateBits, k, high - low + 1);
      Shift();
      ShiftRegisters();
    }

    method ShiftRegisters()
      requires InLoop() && SameTop(numStateBits, low, high)
      modifies `low, `high
      ensures var drop := if old(low) >= halfRange then fullRange else 0;
              low == 2 * old(low) - drop && high == 2 * old(high) + 1 - drop
    {
      DoubledAndMasked(numStateBits, low);
      DoubledAndMasked(numStateBits, high);
      low := And(U64(low * 2), stateMask);
      high := Or(And(U64(high * 2), stateMask), 1);
    }

    /** The first loop of `update`. */
    method ShiftLoop()
      requires InLoop() && Budget(0)
      modifies this, output, output.buffer
      ensures InLoop() && State() == Shifts(numStateBits, old(State()))
      ensures output.Header() == old(output.Header())
    {
      hide And, Xor, Pow2, ShiftOnce, BitOutputStream.Bits, BitOutputStream.Bytes, BitOutputStream.Header;
      ghost var w, k := numStateBits, 0;
      TopBitsAgree(w, low, high);
      while And(Xor(low, high), halfRange) == 0
        invariant InLoop() && Budget(k)
        invariant And(Xor(low, high), halfRange) == 0 <==> SameTop(w, low, high)
        invariant Shifts(w, State()) == Shifts(w, old(State()))
        invariant output.Header() == old(output.Header())
        decreases Pow2(w) - (high - low)
      {
        ShiftTurn(k);
        TopBitsAgree(w, low, high);
        k := k + 1;
      }
    }

    /** One turn of the second loop of `update`. */
    method UnderflowTurn()
      requires InLoop()
      requires Straddles(numStateBits, low, high)
      modifies this
      ensures State() == UnderflowOnce(numStateBits, old(State()))
    {
      UnderflowedLow(numStateBits, low);
      UnderflowedHigh(numStateBits, high);
      Underflow();
      low := Xor(U64(low * 2), halfRange);
      high := Or(Or(U64(Xor(high, halfRange) * 2), halfRange), 1);
    }

    /** The second loop of `update`. */
    method UnderflowLoop()
      requires InLoop()
      requires !SameTop(numStateBits, low, high)
      modifies this
      ensures Valid() && State() == Underflows(numStateBits, old(State()))
    {
      ghost var w := numStateBits;
      SecondBitsCross(w, low, high);
      while And(And(low, Not64(high)), quarterRange) != 0
        invariant Registers(w, low, high) && !SameTop(w, low, high) && high < WORD
        invariant And(And(low, Not64(high)), quarterRange) != 0 <==> Straddles(w, low, high)
        invariant Underflows(w, State()) == Underflows(w, old(State()))
        decreases Pow2(w) - (high - low)
      {
        UnderflowTurn();
        SecondBitsCross(w, low, high);
      }
    }

    /** Writes the single one that ends the stream. */
    method Finish()
      requires Valid() && output.Room(1)
      modifies output, output.buffer
      ensures Valid() && output.Bits() == old(output.Bits()) + [1]
      ensures output.Header() == old(output.Header())
    {
      var ok := output.Write(1);
    }
  }

  /** Rejects a state size outside 1..63; the source throws `domain_error`. */
  method NewEncoder(numBits: int, out: BitOutputStream) returns (enc: Encoder?)
    requires out.Valid()
    ensures enc != null <==> 1 <= numBits <= 63
    ensures enc != null ==> enc.Valid() && fresh(enc) && enc.output == out && enc.numStateBits == numBits
    ensures enc != null ==> enc.State() == Start(numBits).(out := out.Bits())
  {
    if !(1 <= numBits <= 63) {
      return null;
    }
    enc := new Encoder(numBits, out);
  }
}
