/**
 The range coder as a function on values: the registers `low` and `high`, the number of
 pending underflow bits, and the bits written so far. `w` is the number of state bits.

 The meaning of an encoder state is an interval of rationals. Over the denominator
 2^Scale(w, e) its numerators run from Lo(w, e) to Hi(w, e), the upper end excluded.
 */
module RangeCoder {
  import opened Arithmetic

  type Bit = b: nat | b < 2

  datatype Sym = Sym(total: nat, lo: nat, hi: nat)

  datatype Enc = Enc(low: nat, high: nat, pending: nat, out: seq<Bit>)

  function Half(w: nat): (h: nat)
    requires w >= 1
    ensures 1 <= h && 2 * h == Pow2(w)
  {
    Pow2(w - 1)
  }

  /** Zero for a one-bit state. */
  function Quarter(w: nat): (q: nat)
    requires w >= 1
    ensures w >= 2 ==> 2 * q == Half(w)
    ensures w == 1 ==> q == 0
  {
    Half(w) / 2
  }

  ghost predicate Registers(w: nat, low: nat, high: nat)
  {
    w >= 1 && low <= high < Pow2(w)
  }

  /** The top bits of the two registers agree. */
  predicate SameTop(w: nat, low: nat, high: nat)
    requires w >= 1
  {
    high < Half(w) || low >= Half(w)
  }

  /** Both registers lie in the middle half of the state space. */
  predicate Straddles(w: nat, low: nat, high: nat)
    requires w >= 1
  {
    Quarter(w) > 0 && Quarter(w) <= low && low < Half(w) && Half(w) <= high < Half(w) + Quarter(w)
  }

  /** What every `update` leaves behind. */
  ghost predicate Settled(w: nat, low: nat, high: nat)
  {
    && w >= 1
    && low < Half(w) <= high < Pow2(w)
    && high - low + 1 >= Quarter(w) + 2
  }

  /** A non-empty part of a total no larger than the narrowest settled range. */
  ghost predicate SymOk(w: nat, s: Sym)
  {
    w >= 1 && s.lo < s.hi <= s.total <= Quarter(w) + 2
  }

  function NewLow(low: nat, high: nat, s: Sym): (r: nat)
    requires low <= high && s.total > 0
  {
    low + s.lo * (high - low + 1) / s.total
  }

  function NewEnd(low: nat, high: nat, s: Sym): (r: nat)
    requires low <= high && s.total > 0
  {
    low + s.hi * (high - low + 1) / s.total
  }

  /** Settled registers are wide enough for every admissible symbol, and stay in place. */
  lemma NarrowingFits(w: nat, low: nat, high: nat, s: Sym)
    requires Settled(w, low, high) && SymOk(w, s)
    ensures low <= NewLow(low, high, s) < NewEnd(low, high, s) <= high + 1
  {
    ProportionalPart(high - low + 1, s.total, s.lo, s.hi);
  }

  function Narrow(w: nat, e: Enc, s: Sym): (r: Enc)
    requires Settled(w, e.low, e.high) && SymOk(w, s)
    ensures Registers(w, r.low, r.high)
  {
    NarrowingFits(w, e.low, e.high, s);
    e.(low := NewLow(e.low, e.high, s), high := NewEnd(e.low, e.high, s) - 1)
  }

  /** Both ends of the narrowed registers, by multiplication: the cell's proportional part of the range, rounded down. */
  ghost predicate IsNarrowed(low: nat, high: nat, s: Sym, low': nat, high': nat)
    requires low <= high && low <= low' && low <= high'
  {
    && IsQuotient(low' - low, s.lo * (high - low + 1), s.total)
    && IsQuotient(high' + 1 - low, s.hi * (high - low + 1), s.total)
  }

  lemma NarrowingIsProportional(w: nat, e: Enc, s: Sym)
    requires Settled(w, e.low, e.high) && SymOk(w, s)
    ensures var r := Narrow(w, e, s);
            e.low <= r.low <= r.high <= e.high && IsNarrowed(e.low, e.high, s, r.low, r.high)
  {
    hide IsQuotient, Pow2, Half, Quarter;
    NarrowingFits(w, e.low, e.high, s);
    var lo, hi := s.lo * (e.high - e.low + 1), s.hi * (e.high - e.low + 1);
    FloorIsQuotient(lo, s.total);
    FloorIsQuotient(hi, s.total);
    assert NewLow(e.low, e.high, s) == e.low + lo / s.total && NewEnd(e.low, e.high, s) == e.low + hi / s.total;
    hide NewLow, NewEnd;
  }

  function Repeat(n: nat, b: Bit): (r: seq<Bit>)
    ensures |r| == n
  {
    seq(n, _ => b)
  }

  /** The settled top bit, then the pending bits, which are its complement. */
  function TopBits(w: nat, e: Enc): (r: seq<Bit>)
    requires w >= 1
  {
    var b: Bit := if e.low >= Half(w) then 1 else 0;
    [b] + Repeat(e.pending, 1 - b)
  }

  function ShiftOnce(w: nat, e: Enc): (r: Enc)
    requires Registers(w, e.low, e.high) && SameTop(w, e.low, e.high)
    ensures Registers(w, r.low, r.high)
    ensures r.high - r.low + 1 == 2 * (e.high - e.low + 1)
  {
    var drop := if e.low >= Half(w) then Pow2(w) else 0;
    Enc(2 * e.low - drop, 2 * e.high + 1 - drop, 0, e.out + TopBits(w, e))
  }

  function Shifts(w: nat, e: Enc): (r: Enc)
    requires Registers(w, e.low, e.high)
    ensures Registers(w, r.low, r.high) && !SameTop(w, r.low, r.high)
    decreases Pow2(w) - (e.high - e.low)
  {
    if SameTop(w, e.low, e.high) then Shifts(w, ShiftOnce(w, e)) else e
  }

  function UnderflowOnce(w: nat, e: Enc): (r: Enc)
    requires Registers(w, e.low, e.high) && Straddles(w, e.low, e.high)
    ensures Registers(w, r.low, r.high) && !SameTop(w, r.low, r.high)
    ensures r.high - r.low + 1 == 2 * (e.high - e.low + 1)
  {
    Enc(2 * e.low - Half(w), 2 * e.high - Half(w) + 1, e.pending + 1, e.out)
  }

  function Underflows(w: nat, e: Enc): (r: Enc)
    requires Registers(w, e.low, e.high) && !SameTop(w, e.low, e.high)
    ensures Settled(w, r.low, r.high)
    decreases Pow2(w) - (e.high - e.low)
  {
    if Straddles(w, e.low, e.high) then Underflows(w, UnderflowOnce(w, e)) else e
  }

  /** One call of `update`. */
  function Encode(w: nat, e: Enc, s: Sym): (r: Enc)
    requires Settled(w, e.low, e.high) && SymOk(w, s)
    ensures Settled(w, r.low, r.high)
  {
    Underflows(w, Shifts(w, Narrow(w, e, s)))
  }

  ghost predicate AllOk(w: nat, syms: seq<Sym>)
  {
    forall i | 0 <= i < |syms| :: SymOk(w, syms[i])
  }

  function EncodeAll(w: nat, e: Enc, syms: seq<Sym>): (r: Enc)
    requires Settled(w, e.low, e.high) && AllOk(w, syms)
    ensures Settled(w, r.low, r.high)
    decreases |syms|
  {
    if syms == [] then e else EncodeAll(w, Encode(w, e, syms[0]), syms[1..])
  }

  function Start(w: nat): (e: Enc)
    requires w >= 1
    ensures Settled(w, e.low, e.high)
  {
    Enc(0, Pow2(w) - 1, 0, [])
  }

  // ---------------------------------------------------------------- bit strings as numbers

  function BitAt(s: seq<Bit>, i: nat): (b: Bit)
  {
    if i < |s| then s[i] else 0
  }

  /** The value of the first n bits of s, most significant first, zeros following s. */
  function Value(s: seq<Bit>, n: nat): (v: nat)
  {
    if n == 0 then 0 else 2 * Value(s, n - 1) + BitAt(s, n - 1)
  }

  lemma {:induction false} ValueOfPrefix(s: seq<Bit>, t: seq<Bit>, n: nat)
    requires n <= |s|
    ensures Value(s + t, n) == Value(s, n)
  {
    if n > 0 {
      ValueOfPrefix(s, t, n - 1);
    }
  }

  lemma RepeatArithmetic(v: int, p: int, b: Bit)
    ensures 2 * (v * p + b * (p - 1)) + b == v * (2 * p) + b * (2 * p - 1)
  {
  }

  lemma {:induction false} ValueOfRepeat(s: seq<Bit>, n: nat, b: Bit)
    ensures Value(s + Repeat(n, b), |s| + n) == Value(s, |s|) * Pow2(n) + b * (Pow2(n) - 1)
  {
    if n == 0 {
      assert s + Repeat(n, b) == s;
    } else {
      ValueOfRepeat(s, n - 1, b);
      var t := s + Repeat(n - 1, b);
      assert s + Repeat(n, b) == t + [b];
      ValueOfPrefix(t, [b], |s| + n - 1);
      RepeatArithmetic(Value(s, |s|), Pow2(n - 1), b);
    }
  }

  lemma Doubling(x: int, p: int)
    ensures x * (2 * p) == 2 * (x * p) == (2 * x) * p == (x * 2) * p
  {
  }

  /** Reading d more bits scales the value and adds less than 2^d. */
  lemma {:induction false} ValueExtends(s: seq<Bit>, n: nat, d: nat)
    ensures Value(s, n) * Pow2(d) <= Value(s, n + d) < (Value(s, n) + 1) * Pow2(d)
  {
    if d > 0 {
      ValueExtends(s, n, d - 1);
      Doubling(Value(s, n), Pow2(d - 1));
      Doubling(Value(s, n) + 1, Pow2(d - 1));
    }
  }

  // ---------------------------------------------------------------- the interval of a state

  /** Numerator of the point where the registers' zero lies. */
  ghost function Base(w: nat, e: Enc): (b: int)
    requires w >= 1
  {
    Value(e.out, |e.out|) * Pow2(w + e.pending) + Half(w) * (Pow2(e.pending) - 1)
  }

  ghost function Lo(w: nat, e: Enc): (l: int)
    requires w >= 1
  {
    Base(w, e) + e.low
  }

  ghost function Hi(w: nat, e: Enc): (h: int)
    requires w >= 1
  {
    Base(w, e) + e.high + 1
  }

  /** The denominator is 2^Scale: bits written, bits pending, state bits. */
  ghost function Scale(w: nat, e: Enc): (n: nat)
  {
    |e.out| + e.pending + w
  }

  /** r denotes the same interval as e, over a denominator 2^d times as large. */
  ghost predicate SameInterval(w: nat, e: Enc, r: Enc, d: nat)
    requires w >= 1
  {
    && Scale(w, r) == Scale(w, e) + d
    && Lo(w, r) == Lo(w, e) * Pow2(d)
    && Hi(w, r) == Hi(w, e) * Pow2(d)
  }

  /** The interval of r lies within that of e. */
  ghost predicate Within(w: nat, e: Enc, r: Enc)
    requires w >= 1
  {
    && Scale(w, r) >= Scale(w, e)
    && var d := Scale(w, r) - Scale(w, e);
       Lo(w, e) * Pow2(d) <= Lo(w, r) && Hi(w, r) <= Hi(w, e) * Pow2(d)
  }

  lemma ValueAfterShift(w: nat, e: Enc)
    requires w >= 1
    ensures var b := if e.low >= Half(w) then 1 else 0;
            var r := e.out + TopBits(w, e);
            Value(r, |r|) == Value(e.out, |e.out|) * (2 * Pow2(e.pending)) + b * Pow2(e.pending) + (1 - b) * (Pow2(e.pending) - 1)
  {
    var b: Bit := if e.low >= Half(w) then 1 else 0;
    var head := e.out + [b];
    ValueOfPrefix(e.out, [b], |e.out|);
    ValueOfRepeat(head, e.pending, 1 - b);
    assert e.out + TopBits(w, e) == head + Repeat(e.pending, 1 - b);
    ShiftedValue(Value(e.out, |e.out|), Pow2(e.pending), b);
  }

  lemma ShiftedValue(v: int, p: int, b: Bit)
    ensures (2 * v + b) * p + (1 - b) * (p - 1) == v * (2 * p) + b * p + (1 - b) * (p - 1)
  {
  }

  lemma ShiftArithmetic(v: int, p: int, h: int, b: Bit)
    ensures (v * (2 * p) + b * p + (1 - b) * (p - 1)) * (2 * h)
         == 2 * (v * ((2 * h) * p) + h * (p - 1)) + b * (2 * h)
  {
  }

  /** A shift step only rewrites the interval over twice the denominator. */
  lemma ShiftKeepsInterval(w: nat, e: Enc)
    requires Registers(w, e.low, e.high) && SameTop(w, e.low, e.high)
    ensures SameInterval(w, e, ShiftOnce(w, e), 1)
  {
    var r := ShiftOnce(w, e);
    var b: Bit := if e.low >= Half(w) then 1 else 0;
    ValueAfterShift(w, e);
    Pow2Adds(w, e.pending);
    ShiftArithmetic(Value(e.out, |e.out|), Pow2(e.pending), Half(w), b);
    assert Base(w, r) == 2 * Base(w, e) + b * Pow2(w);
  }

  lemma UnderflowArithmetic(v: int, p: int, h: int)
    ensures v * ((2 * h) * (2 * p)) + h * (2 * p - 1) == 2 * (v * ((2 * h) * p) + h * (p - 1)) + h
  {
  }

  /** So does an underflow step. */
  lemma UnderflowKeepsInterval(w: nat, e: Enc)
    requires Registers(w, e.low, e.high) && Straddles(w, e.low, e.high)
    ensures SameInterval(w, e, UnderflowOnce(w, e), 1)
  {
    Pow2Adds(w, e.pending);
    Pow2Adds(w, e.pending + 1);
    UnderflowArithmetic(Value(e.out, |e.out|), Pow2(e.pending), Half(w));
    assert Base(w, UnderflowOnce(w, e)) == 2 * Base(w, e) + Half(w);
  }

  lemma IntervalComposes(w: nat, e: Enc, m: Enc, r: Enc, d: nat)
    requires w >= 1 && SameInterval(w, e, m, 1) && SameInterval(w, m, r, d)
    ensures SameInterval(w, e, r, d + 1)
  {
    Doubling(Lo(w, e), Pow2(d));
    Doubling(Hi(w, e), Pow2(d));
  }

  /** Shifts done by the first loop of `update`. */
  lemma {:induction false} ShiftsKeepInterval(w: nat, e: Enc) returns (d: nat)
    requires Registers(w, e.low, e.high)
    ensures SameInterval(w, e, Shifts(w, e), d)
    ensures var r := Shifts(w, e); r.high - r.low + 1 == (e.high - e.low + 1) * Pow2(d)
    decreases Pow2(w) - (e.high - e.low)
  {
    if SameTop(w, e.low, e.high) {
      var m := ShiftOnce(w, e);
      ShiftKeepsInterval(w, e);
      var k := ShiftsKeepInterval(w, m);
      IntervalComposes(w, e, m, Shifts(w, e), k);
      Doubling(e.high - e.low + 1, Pow2(k));
      d := k + 1;
    } else {
      d := 0;
    }
  }

  lemma {:induction false} UnderflowsKeepInterval(w: nat, e: Enc) returns (d: nat)
    requires Registers(w, e.low, e.high) && !SameTop(w, e.low, e.high)
    ensures SameInterval(w, e, Underflows(w, e), d)
    ensures var r := Underflows(w, e); r.high - r.low + 1 == (e.high - e.low + 1) * Pow2(d)
    decreases Pow2(w) - (e.high - e.low)
  {
    if Straddles(w, e.low, e.high) {
      var m := UnderflowOnce(w, e);
      UnderflowKeepsInterval(w, e);
      var k := UnderflowsKeepInterval(w, m);
      IntervalComposes(w, e, m, Underflows(w, e), k);
      Doubling(e.high - e.low + 1, Pow2(k));
      d := k + 1;
    } else {
      d := 0;
    }
  }

  // ---------------------------------------------------------------- whole steps and runs

  lemma IntervalsCompose(w: nat, e: Enc, m: Enc, r: Enc, c: nat, d: nat)
    requires w >= 1 && SameInterval(w, e, m, c) && SameInterval(w, m, r, d)
    ensures SameInterval(w, e, r, c + d)
  {
    Pow2Adds(c, d);
    Reassociate(Lo(w, e), Pow2(c), Pow2(d));
    Reassociate(Hi(w, e), Pow2(c), Pow2(d));
  }

  lemma Reassociate(x: int, y: int, z: int)
    ensures (x * y) * z == x * (y * z)
  {
  }

  lemma NarrowStaysWithin(w: nat, e: Enc, s: Sym)
    requires Settled(w, e.low, e.high) && SymOk(w, s)
    ensures Scale(w, Narrow(w, e, s)) == Scale(w, e)
    ensures Lo(w, e) <= Lo(w, Narrow(w, e, s)) < Hi(w, Narrow(w, e, s)) <= Hi(w, e)
  {
    NarrowingFits(w, e.low, e.high, s);
  }

  /** Renormalising rewrites the narrowed interval, and takes at most w doublings. */
  lemma RenormalisingKeepsInterval(w: nat, e: Enc, s: Sym) returns (d: nat)
    requires Settled(w, e.low, e.high) && SymOk(w, s)
    ensures d <= w
    ensures SameInterval(w, Narrow(w, e, s), Encode(w, e, s), d)
  {
    var n := Narrow(w, e, s);
    var m := Shifts(w, n);
    var r := Underflows(w, m);
    var i := ShiftsKeepInterval(w, n);
    var j := UnderflowsKeepInterval(w, m);
    IntervalsCompose(w, n, m, r, i, j);
    d := i + j;
    DoublingsBounded(w, n.high - n.low + 1, i, j);
  }

  lemma {:induction false} DoublingsBounded(w: nat, x: nat, i: nat, j: nat)
    requires x >= 1 && (x * Pow2(i)) * Pow2(j) <= Pow2(w)
    ensures i + j <= w
  {
    Pow2Adds(i, j);
    Reassociate(x, Pow2(i), Pow2(j));
    MulOrdered(1, x, Pow2(i + j));
    if i + j > w {
      Pow2Grows(w + 1, i + j);
    }
  }

  /** One symbol shrinks the interval and adds at most w bits to the scale. */
  lemma EncodeNests(w: nat, e: Enc, s: Sym)
    requires Settled(w, e.low, e.high) && SymOk(w, s)
    ensures Within(w, e, Encode(w, e, s))
    ensures Scale(w, Encode(w, e, s)) <= Scale(w, e) + w
  {
    var d := RenormalisingKeepsInterval(w, e, s);
    NarrowStaysWithin(w, e, s);
    var n := Narrow(w, e, s);
    MulOrdered(Lo(w, e), Lo(w, n), Pow2(d));
    MulOrdered(Hi(w, n), Hi(w, e), Pow2(d));
  }

  lemma WithinComposes(w: nat, e: Enc, m: Enc, r: Enc)
    requires w >= 1 && Within(w, e, m) && Within(w, m, r)
    ensures Within(w, e, r)
  {
    var c, d := Scale(w, m) - Scale(w, e), Scale(w, r) - Scale(w, m);
    Pow2Adds(c, d);
    MulOrdered(Lo(w, e) * Pow2(c), Lo(w, m), Pow2(d));
    MulOrdered(Hi(w, m), Hi(w, e) * Pow2(c), Pow2(d));
    Reassociate(Lo(w, e), Pow2(c), Pow2(d));
    Reassociate(Hi(w, e), Pow2(c), Pow2(d));
  }

  /** Over a whole run the intervals nest, and k symbols add at most w * k bits. */
  lemma {:induction false} RunNests(w: nat, e: Enc, syms: seq<Sym>)
    requires Settled(w, e.low, e.high) && AllOk(w, syms)
    ensures Within(w, e, EncodeAll(w, e, syms))
    ensures Scale(w, EncodeAll(w, e, syms)) <= Scale(w, e) + w * |syms|
    decreases |syms|
  {
    if syms == [] {
    } else {
      var m := Encode(w, e, syms[0]);
      EncodeNests(w, e, syms[0]);
      RunNests(w, m, syms[1..]);
      WithinComposes(w, e, m, EncodeAll(w, m, syms[1..]));
      assert w * |syms| == w + w * (|syms| - 1);
    }
  }

  // ---------------------------------------------------------------- the point the bits name

  /** The stream, followed by zeros for ever, names a point of the interval of e. */
  ghost predicate Inside(w: nat, e: Enc, stream: seq<Bit>)
    requires w >= 1
  {
    Lo(w, e) <= Value(stream, Scale(w, e)) < Hi(w, e)
  }

  lemma InsideOuter(w: nat, e: Enc, r: Enc, stream: seq<Bit>)
    requires w >= 1 && Within(w, e, r) && Inside(w, r, stream)
    ensures Inside(w, e, stream)
  {
    var n := Scale(w, e);
    var d := Scale(w, r) - n;
    var v, p := Value(stream, n), Pow2(d);
    ValueExtends(stream, n, d);
    if v < Lo(w, e) {
      MulOrdered(v + 1, Lo(w, e), p);
    }
    if v >= Hi(w, e) {
      MulOrdered(Hi(w, e), v, p);
    }
  }

  /** What `finish` writes: a one after the bits of the run, then only padding zeros. */
  ghost predicate Finished(e: Enc, stream: seq<Bit>)
  {
    && |stream| > |e.out|
    && stream[..|e.out|] == e.out
    && stream[|e.out|] == 1
    && forall i | |e.out| < i < |stream| :: stream[i] == 0
  }

  lemma {:induction false} ZerosScale(stream: seq<Bit>, n: nat, d: nat)
    requires forall i | n <= i < |stream| :: stream[i] == 0
    ensures Value(stream, n + d) == Value(stream, n) * Pow2(d)
  {
    if d > 0 {
      ZerosScale(stream, n, d - 1);
      Doubling(Value(stream, n), Pow2(d - 1));
    }
  }

  /** No flushing is needed: whatever is pending, a single one lands inside the interval. */
  lemma FinishLandsInside(w: nat, e: Enc, stream: seq<Bit>)
    requires Settled(w, e.low, e.high) && Finished(e, stream)
    ensures Inside(w, e, stream)
  {
    var n, u := |e.out|, e.pending;
    var v := Value(e.out, n);
    assert stream == e.out + stream[n..];
    ValueOfPrefix(e.out, stream[n..], n);
    assert Value(stream, n + 1) == 2 * v + 1;
    ZerosScale(stream, n + 1, u + w - 1);
    Pow2Adds(u, w - 1);
    Pow2Adds(w, u);
    FinishArithmetic(v, Pow2(u), Half(w));
  }

  lemma FinishArithmetic(v: int, p: int, h: int)
    ensures (2 * v + 1) * (p * h) == v * ((2 * h) * p) + h * (p - 1) + h
  {
  }
}
