/**
 CRC-16 with generator x^16 + x^12 + x^5 + 1 and initial value all ones. A word is its
 bits, most significant first; a message is a string of bytes, most significant bit first.
 */
module Crc {
  import opened Arithmetic
  import opened Words
  import opened CrcTable

  function Zeros(n: nat): (r: seq<bool>)
    ensures |r| == n && forall i | 0 <= i < n :: !r[i]
  {
    seq(n, _ => false)
  }

  /** The initial register. */
  function Ones(): (r: seq<bool>)
    ensures |r| == 16 && forall i | 0 <= i < 16 :: r[i]
  {
    seq(16, _ => true)
  }

  // ---------------------------------------------------------------- numbers as bits

  /** The low n bits of v, most significant first. */
  function Bits(v: nat, n: nat): (r: seq<bool>)
    ensures |r| == n
  {
    if n == 0 then [] else Bits(v / 2, n - 1) + [v % 2 == 1]
  }

  function Value(bits: seq<bool>): (v: nat)
  {
    if bits == [] then 0 else 2 * Value(bits[..|bits| - 1]) + (if bits[|bits| - 1] then 1 else 0)
  }

  lemma {:induction false} BitsOfValue(bits: seq<bool>)
    ensures Bits(Value(bits), |bits|) == bits
  {
    if bits != [] {
      BitsOfValue(bits[..|bits| - 1]);
    }
  }

  lemma {:induction false} ValueOfBits(v: nat, n: nat)
    requires v < Pow2(n)
    ensures Value(Bits(v, n)) == v
  {
    if n > 0 {
      ValueOfBits(v / 2, n - 1);
      assert Bits(v, n)[..n - 1] == Bits(v / 2, n - 1);
    }
  }

  lemma {:induction false} ValueBounded(bits: seq<bool>)
    ensures Value(bits) < Pow2(|bits|)
  {
    if bits != [] {
      ValueBounded(bits[..|bits| - 1]);
    }
  }

  /** The bits of a message. */
  function MessageBits(bytes: seq<Byte>): (r: seq<bool>)
    ensures |r| == 8 * |bytes|
  {
    if bytes == [] then [] else Bits(bytes[0], 8) + MessageBits(bytes[1..])
  }

  // ---------------------------------------------------------------- the bit-serial register

  function Step(r: seq<bool>, b: bool): (s: seq<bool>)
    requires |r| == 16
    ensures |s| == 16
  {
    var v := r[1..] + [false];
    if r[0] != b then Add(v, GENERATOR) else v
  }

  function Serial(r: seq<bool>, bits: seq<bool>): (s: seq<bool>)
    requires |r| == 16
    ensures |s| == 16
    decreases |bits|
  {
    if bits == [] then r else Serial(Step(r, bits[0]), bits[1..])
  }

  lemma {:induction false} SerialJoins(r: seq<bool>, a: seq<bool>, b: seq<bool>)
    requires |r| == 16
    ensures Serial(r, a + b) == Serial(Serial(r, a), b)
    decreases |a|
  {
    hide Step;
    if a == [] {
      assert a + b == b;
    } else {
      assert (a + b)[1..] == a[1..] + b;
      SerialJoins(Step(r, a[0]), a[1..], b);
    }
  }

  lemma StepLinear(r: seq<bool>, s: seq<bool>, a: bool, b: bool)
    requires |r| == |s| == 16
    ensures Step(Add(r, s), a != b) == Add(Step(r, a), Step(s, b))
  {
    hide GENERATOR;
  }

  lemma {:induction false} SerialLinear(r: seq<bool>, s: seq<bool>, x: seq<bool>, y: seq<bool>)
    requires |r| == |s| == 16 && |x| == |y|
    ensures Serial(Add(r, s), Add(x, y)) == Add(Serial(r, x), Serial(s, y))
    decreases |x|
  {
    hide Step;
    if x != [] {
      StepLinear(r, s, x[0], y[0]);
      assert Add(x, y)[1..] == Add(x[1..], y[1..]);
      SerialLinear(Step(r, x[0]), Step(s, y[0]), x[1..], y[1..]);
    }
  }

  /** Bits that meet their equals at the top of the register shift out without a trace. */
  lemma {:induction false} SerialCancels(r: seq<bool>, bits: seq<bool>)
    requires |bits| <= |r| == 16 && r[..|bits|] == bits
    ensures Serial(r, bits) == r[|bits|..] + Zeros(|bits|)
    decreases |bits|
  {
    if bits != [] {
      var v := r[1..] + [false];
      assert r[0] == bits[0];
      assert Step(r, bits[0]) == v;
      assert v[..|bits| - 1] == bits[1..] by {
        assert r[..|bits|][1..] == bits[1..];
      }
      SerialCancels(v, bits[1..]);
    }
  }

  // ---------------------------------------------------------------- the table-driven register

  lemma SerialOne(r: seq<bool>, b: bool)
    requires |r| == 16
    ensures Serial(r, [b]) == Step(r, b)
  {
    assert [b][1..] == [];
  }

  /** One more zero bit may be fed first or last. */
  lemma ZerosCommute(r: seq<bool>, n: nat)
    requires |r| == 16
    ensures Serial(Step(r, false), Zeros(n)) == Step(Serial(r, Zeros(n)), false)
  {
    hide Step;
    SerialOne(r, false);
    SerialOne(Serial(r, Zeros(n)), false);
    SerialJoins(r, [false], Zeros(n));
    SerialJoins(r, Zeros(n), [false]);
    assert [false] + Zeros(n) == Zeros(n) + [false];
  }

  /** What an entry must be: eight zero bits fed to a register with x on top. */
  function Entry(x: nat): (e: seq<bool>)
    ensures |e| == 16
  {
    Serial(Bits(x, 8) + Zeros(8), Zeros(8))
  }

  lemma {:induction false} SmallTop(y: nat, n: nat)
    requires n > 0 && y < Pow2(n - 1)
    ensures !Bits(y, n)[0] && Bits(2 * y, n) == Bits(y, n)[1..] + [false]
  {
    if n > 1 {
      SmallTop(y / 2, n - 1);
      HalfBits(y, n - 1);
    }
    assert 2 * y / 2 == y && 2 * y % 2 == 0;
  }

  /** Dropping the top bit of n + 1 bits leaves the low n. */
  lemma {:induction false} HalfBits(y: nat, n: nat)
    ensures Bits(y, n + 1)[1..] == Bits(y, n)
  {
    if n > 0 {
      HalfBits(y / 2, n - 1);
    }
  }

  lemma EntryDoubles(y: nat)
    requires y < 128
    ensures Entry(2 * y) == Step(Entry(y), false)
  {
    var r := Bits(y, 8) + Zeros(8);
    assert Pow2(7) == 128;
    SmallTop(y, 8);
    assert Step(r, false) == Bits(2 * y, 8) + Zeros(8);
    ZerosCommute(r, 8);
  }

  lemma EntryOfOne()
    ensures Entry(1) == GENERATOR
  {
    var r := Bits(1, 8) + Zeros(8);
    OneBits();
    var v := [true] + Zeros(15);
    assert r[..7] == Zeros(7) && r[7..] + Zeros(7) == v;
    SerialCancels(r, Zeros(7));
    assert Zeros(8) == Zeros(7) + [false];
    SerialJoins(r, Zeros(7), [false]);
    SerialOne(v, false);
    assert v[1..] + [false] == Zeros(16);
    assert Add(Zeros(16), GENERATOR) == GENERATOR;
  }

  lemma OneBits()
    ensures Bits(1, 8) == Zeros(7) + [true]
  {
    ZeroBits(7);
  }

  lemma {:induction false} ZeroBits(n: nat)
    ensures Bits(0, n) == Zeros(n)
  {
    if n > 0 {
      ZeroBits(n - 1);
    }
  }

  lemma EntryOfOdd(y: nat)
    requires y < 128
    ensures Entry(2 * y + 1) == Add(Entry(2 * y), GENERATOR)
  {
    var a, b := Bits(2 * y, 8) + Zeros(8), Bits(1, 8) + Zeros(8);
    OneBits();
    assert (2 * y + 1) / 2 == y && 2 * y / 2 == y;
    assert Bits(2 * y + 1, 8) + Zeros(8) == Add(a, b);
    assert Zeros(8) == Add(Zeros(8), Zeros(8));
    SerialLinear(a, b, Zeros(8), Zeros(8));
    EntryOfOne();
  }

  /** Every entry of the table is the bit-serial one. */
  lemma {:induction false} TableIsRight(x: nat)
    requires x < 256
    ensures |TABLE| == 256 && Bits16(TABLE[x]) == Entry(x)
  {
    hide Bits16, Twice, Flip, TABLE, Entry;
    TableRecurrence(x / 2);
    if x == 0 {
      EntryOfZero();
    } else if x % 2 == 0 {
      TableIsRight(x / 2);
      BitsOfTwice(TABLE[x / 2]);
      EntryDoubles(x / 2);
    } else {
      TableIsRight(x - 1);
      BitsOfFlip(TABLE[x - 1]);
      EntryOfOdd(x / 2);
    }
  }

  lemma EntryOfZero()
    ensures Bits16(0) == Zeros(16) == Entry(0)
  {
    ZeroBits(8);
    var r := Zeros(8) + Zeros(8);
    assert r[..8] == Zeros(8) && r[8..] + Zeros(8) == Zeros(16);
    SerialCancels(r, Zeros(8));
  }

  /** One turn of the loop: shift a byte out, add the table's entry for it and the message byte. */
  function TableStep(r: seq<bool>, b: Byte): (s: seq<bool>)
    requires |r| == 16
    ensures |s| == 16
  {
    var i := Value(Add(r[..8], Bits(b, 8)));
    TableIndex(Add(r[..8], Bits(b, 8)));
    Add(r[8..] + Zeros(8), Bits16(TABLE[i]))
  }

  lemma {:induction false} TableIndex(bits: seq<bool>)
    requires |bits| == 8
    ensures Value(bits) < 256 == |TABLE|
  {
    ValueBounded(bits);
    assert Pow2(8) == 256;
    TableRecurrence(0);
  }

  /** Eight bit-serial steps in one. */
  lemma TableStepIsSerial(r: seq<bool>, b: Byte)
    requires |r| == 16
    ensures TableStep(r, b) == Serial(r, Bits(b, 8))
  {
    hide Bits16, Serial, TABLE, Value, Bits;
    var x, y := Bits(b, 8), Add(r[..8], Bits(b, 8));
    TableIndex(y);
    TableIsRight(Value(y));
    BitsOfValue(y);
    var high, low, mess := y + Zeros(8), Zeros(8) + r[8..], x + Zeros(8);
    SerialCancels(low, Zeros(8));
    SerialCancels(mess, x);
    SerialLinear(low, mess, Zeros(8), x);
    SerialLinear(high, Add(low, mess), Zeros(8), x);
    assert Add(Zeros(8), x) == x;
    assert Add(high, Add(low, mess)) == r;
    assert low[8..] + Zeros(8) == r[8..] + Zeros(8);
    assert mess[8..] + Zeros(8) == Zeros(16);
    SumUp(Serial(high, Zeros(8)), r[8..] + Zeros(8));
  }

  lemma SumUp(e: seq<bool>, s: seq<bool>)
    requires |e| == |s| == 16
    ensures Add(e, Add(s, Zeros(16))) == Add(s, e)
  {
  }

  /** The register after a whole message. */
  function Register(bytes: seq<Byte>): (r: seq<bool>)
    ensures |r| == 16
  {
    Serial(Ones(), MessageBits(bytes))
  }

  lemma {:induction false} MessageBitsJoin(a: seq<Byte>, b: seq<Byte>)
    ensures MessageBits(a + b) == MessageBits(a) + MessageBits(b)
  {
    if a == [] {
      assert a + b == b;
    } else {
      assert (a + b)[1..] == a[1..] + b;
      MessageBitsJoin(a[1..], b);
    }
  }

  lemma RegisterGrows(buffer: seq<Byte>, p: nat)
    requires p < |buffer|
    ensures Register(buffer[..p + 1]) == TableStep(Register(buffer[..p]), buffer[p])
  {
    hide Serial, TableStep, Bits;
    var bytes, b := buffer[..p], buffer[p];
    assert buffer[..p + 1] == bytes + [b];
    MessageBitsJoin(bytes, [b]);
    assert [b][1..] == [];
    assert MessageBits([b]) == Bits(b, 8);
    SerialJoins(Ones(), MessageBits(bytes), Bits(b, 8));
    TableStepIsSerial(Register(bytes), b);
  }

  /** Exchanges the two bytes of a word. */
  function Swap(r: seq<bool>): (s: seq<bool>)
    requires |r| == 16
    ensures |s| == 16
  {
    r[8..] + r[..8]
  }

  /** The number `crc16` returns. */
  function Checksum(bytes: seq<Byte>): (v: nat)
  {
    Value(Swap(Register(bytes)))
  }

  lemma RegisterStarts(bytes: seq<Byte>)
    ensures Register(bytes[..0]) == Ones()
  {
    assert bytes[..0] == [];
  }

  /** The table-driven loop computes the bit-serial register, bytes exchanged. */
  method Crc16(buffer: seq<Byte>) returns (v: nat)
    ensures v == Checksum(buffer)
  {
    hide TableStep, Register, Value, Swap, Ones;
    RegisterStarts(buffer);
    var r, p, count := Ones(), 0, |buffer|;
    while count > 0
      invariant 0 <= count && p + count == |buffer| && |r| == 16
      invariant r == Register(buffer[..p])
    {
      RegisterGrows(buffer, p);
      r := TableStep(r, buffer[p]);
      p := p + 1;
      count := count - 1;
    }
    assert buffer[..p] == buffer;
    v := Value(Swap(r));
  }

  // ---------------------------------------------------------------- division of polynomials

  /**
   Long division by the generator, coefficients highest power first: while the dividend is
   longer than a remainder, subtract the generator if the leading coefficient is one.
   */
  function Remainder(p: seq<bool>): (r: seq<bool>)
    requires |p| >= 16
    ensures |r| == 16
    decreases |p|
  {
    if |p| == 16 then p
    else Remainder((if p[0] then Add(p[1..17], GENERATOR) else p[1..17]) + p[17..])
  }

  /** The message times x^16, with the initial register added to its leading terms. */
  function Dividend(r: seq<bool>, m: seq<bool>): (p: seq<bool>)
    requires |r| == 16
    ensures |p| == |m| + 16
  {
    Add(r + Zeros(|m|), m + Zeros(16))
  }

  lemma DividendShrinks(r: seq<bool>, m: seq<bool>)
    requires |r| == 16 && |m| > 0
    ensures var p := Dividend(r, m);
            (if p[0] then Add(p[1..17], GENERATOR) else p[1..17]) + p[17..] == Dividend(Step(r, m[0]), m[1..])
  {
    assert |GENERATOR| == 16;
    hide GENERATOR;
    var p, q := Dividend(r, m), Dividend(Step(r, m[0]), m[1..]);
    var v := r[1..] + [false];
    forall i | 0 <= i < |q| ensures q[i] == (p[i + 1] != (p[0] && i < 16 && GENERATOR[i])) {
      assert i < 16 ==> Step(r, m[0])[i] == (v[i] != (p[0] && GENERATOR[i]));
    }
  }

  /** The register is the remainder of the polynomial division. */
  lemma {:induction false} SerialIsRemainder(r: seq<bool>, m: seq<bool>)
    requires |r| == 16
    ensures Serial(r, m) == Remainder(Dividend(r, m))
    decreases |m|
  {
    hide Step;
    if m == [] {
      assert Dividend(r, m) == r;
    } else {
      DividendShrinks(r, m);
      SerialIsRemainder(Step(r, m[0]), m[1..]);
      hide Dividend;
    }
  }

  // ---------------------------------------------------------------- error detection

  lemma StepInjective(r: seq<bool>, s: seq<bool>, b: bool)
    requires |r| == |s| == 16 && Step(r, b) == Step(s, b)
    ensures r == s
  {
    LastTerm();
    assert |GENERATOR| == 16;
    hide GENERATOR;
    var v, u := r[1..] + [false], s[1..] + [false];
    assert Step(r, b)[15] == (r[0] != b) && Step(s, b)[15] == (s[0] != b);
    forall i | 0 <= i < 16 ensures v[i] == u[i] {
      assert Step(r, b)[i] == (v[i] != ((r[0] != b) && GENERATOR[i]));
      assert Step(s, b)[i] == (u[i] != ((s[0] != b) && GENERATOR[i]));
    }
    forall i | 0 <= i < 16 ensures r[i] == s[i] {
      if i > 0 {
        assert r[i] == v[i - 1] && s[i] == u[i - 1];
      }
    }
  }

  lemma LastTerm()
    ensures GENERATOR[15]
  {
  }

  lemma {:induction false} SerialInjective(r: seq<bool>, s: seq<bool>, bits: seq<bool>)
    requires |r| == |s| == 16 && Serial(r, bits) == Serial(s, bits)
    ensures r == s
    decreases |bits|
  {
    hide Step;
    if bits != [] {
      SerialInjective(Step(r, bits[0]), Step(s, bits[0]), bits[1..]);
      StepInjective(r, s, bits[0]);
    }
  }

  /** At most 16 bits clear the register only if they are what it holds on top of zeros. */
  lemma {:induction false} ClearsOnlyItself(d: seq<bool>, e: seq<bool>)
    requires |e| <= |d| == 16
    ensures Serial(d, e) == Zeros(16) <==> d == e + Zeros(16 - |e|)
    decreases |e|
  {
    if d == e + Zeros(16 - |e|) {
      assert d[..|e|] == e && d[|e|..] + Zeros(|e|) == Zeros(16);
      SerialCancels(d, e);
    }
    if Serial(d, e) == Zeros(16) && e != [] {
      var s := Step(d, e[0]);
      ClearsOnlyItself(s, e[1..]);
      UndoShift(d, e);
    }
  }

  lemma UndoShift(d: seq<bool>, e: seq<bool>)
    requires 0 < |e| <= |d| == 16 && Step(d, e[0]) == e[1..] + Zeros(17 - |e|)
    ensures d == e + Zeros(16 - |e|)
  {
    LastTerm();
    assert |GENERATOR| == 16;
    hide GENERATOR;
    var v, s := d[1..] + [false], Step(d, e[0]);
    assert !s[15];
    assert d[0] == e[0] && s == v;
    forall i | 0 < i < 16 ensures d[i] == (e + Zeros(16 - |e|))[i] {
      assert d[i] == v[i - 1] == s[i - 1];
    }
  }

  /** A burst of at most 16 bits anywhere in the message changes the register. */
  lemma BurstChangesRegister(r: seq<bool>, pre: seq<bool>, a: seq<bool>, b: seq<bool>, post: seq<bool>)
    requires |r| == 16 && |a| == |b| <= 16 && a != b
    ensures Serial(r, pre + a + post) != Serial(r, pre + b + post)
  {
    hide Serial;
    var s := Serial(r, pre);
    SerialJoins(r, pre + a, post);
    SerialJoins(r, pre, a);
    SerialJoins(r, pre + b, post);
    SerialJoins(r, pre, b);
    if Serial(Serial(s, a), post) == Serial(Serial(s, b), post) {
      SerialInjective(Serial(s, a), Serial(s, b), post);
      SameRegisterSameBurst(s, a, b);
    }
  }

  lemma SameRegisterSameBurst(s: seq<bool>, a: seq<bool>, b: seq<bool>)
    requires |s| == 16 && |a| == |b| <= 16 && Serial(s, a) == Serial(s, b)
    ensures a == b
  {
    SerialLinear(s, s, a, b);
    assert Add(s, s) == Zeros(16) && Add(Serial(s, a), Serial(s, b)) == Zeros(16);
    ClearsOnlyItself(Zeros(16), Add(a, b));
    var e := Add(a, b);
    forall i | 0 <= i < |a| ensures a[i] == b[i] {
      assert (e + Zeros(16 - |e|))[i] == e[i];
    }
  }

  lemma ChecksumIsRegister(a: seq<Byte>, b: seq<Byte>)
    ensures Checksum(a) == Checksum(b) <==> Register(a) == Register(b)
  {
    hide Register;
    var x, y := Register(a), Register(b);
    BitsOfValue(Swap(x));
    BitsOfValue(Swap(y));
    if Swap(x) == Swap(y) {
      assert x == Swap(Swap(x)) && y == Swap(Swap(y));
    }
  }

  lemma {:induction false} MessageBitsInjective(a: seq<Byte>, b: seq<Byte>)
    requires |a| == |b| && MessageBits(a) == MessageBits(b)
    ensures a == b
  {
    hide Bits;
    if a != [] {
      assert Bits(a[0], 8) == MessageBits(a)[..8] && Bits(b[0], 8) == MessageBits(b)[..8];
      assert MessageBits(a[1..]) == MessageBits(a)[8..] && MessageBits(b[1..]) == MessageBits(b)[8..];
      assert Pow2(8) == 256;
      ValueOfBits(a[0], 8);
      ValueOfBits(b[0], 8);
      MessageBitsInjective(a[1..], b[1..]);
    }
  }

  /** Any two messages of one length that differ only within 16 consecutive bits differ in their checksum. */
  lemma BurstDetected(a: seq<Byte>, b: seq<Byte>, i: nat)
    requires |a| == |b| && a != b && Near(a, b, i)
    ensures Checksum(a) != Checksum(b)
  {
    hide Serial, Checksum, Bits;
    var x, y := MessageBits(a), MessageBits(b);
    if x == y {
      MessageBitsInjective(a, b);
    }
    hide MessageBits;
    var n := |x|;
    var lo := if i < n then i else n;
    var hi := if i + 16 < n then i + 16 else n;
    assert x == x[..lo] + x[lo..hi] + x[hi..] && y == y[..lo] + y[lo..hi] + y[hi..];
    assert x[..lo] == y[..lo] && x[hi..] == y[hi..];
    BurstChangesRegister(Ones(), x[..lo], x[lo..hi], y[lo..hi], x[hi..]);
    ChecksumIsRegister(a, b);
  }

  /** An odd number of ones. */
  function Odd(bits: seq<bool>): (r: bool)
  {
    bits != [] && bits[0] != Odd(bits[1..])
  }

  lemma {:induction false} OddOfSum(a: seq<bool>, b: seq<bool>)
    requires |a| == |b|
    ensures Odd(Add(a, b)) == (Odd(a) != Odd(b))
  {
    if a != [] {
      OddOfSum(a[1..], b[1..]);
      assert Add(a, b)[1..] == Add(a[1..], b[1..]);
    }
  }

  lemma {:induction false} OddOfJoin(a: seq<bool>, b: seq<bool>)
    ensures Odd(a + b) == (Odd(a) != Odd(b))
  {
    if a == [] {
      assert a + b == b;
    } else {
      OddOfJoin(a[1..], b);
      assert (a + b)[1..] == a[1..] + b;
    }
  }

  lemma OddFirst(b: bool, rest: seq<bool>)
    ensures Odd([b] + rest) == (b != Odd(rest))
  {
    assert ([b] + rest)[1..] == rest;
  }

  lemma OddFour(a: bool, b: bool, c: bool, d: bool)
    ensures Odd([a, b, c, d]) == ((a != b) != (c != d))
  {
    OddFirst(a, [b, c, d]);
    OddFirst(b, [c, d]);
    OddFirst(c, [d]);
    OddFirst(d, []);
    assert [a] + [b, c, d] == [a, b, c, d] && [b] + [c, d] == [b, c, d] && [c] + [d] == [c, d] && [d] + [] == [d];
    hide Odd;
  }

  lemma OddGenerator()
    ensures Odd(GENERATOR)
  {
    hide Odd;
    var a, b, c, d := [false, false, false, true], [false, false, false, false], [false, false, true, false], [false, false, false, true];
    OddFour(false, false, false, true);
    OddFour(false, false, false, false);
    OddFour(false, false, true, false);
    OddOfJoin(a, b);
    OddOfJoin(c, d);
    OddOfJoin(a + b, c + d);
  }

  /** The generator is divisible by x + 1: a step carries the parity of register and message. */
  lemma StepKeepsOdd(r: seq<bool>, b: bool)
    requires |r| == 16
    ensures Odd(Step(r, b)) == (Odd(r) != b)
  {
    OddGenerator();
    assert |GENERATOR| == 16;
    hide GENERATOR;
    assert [false][1..] == [] && !Odd([false]);
    OddOfJoin(r[1..], [false]);
    OddOfSum(r[1..] + [false], GENERATOR);
  }

  lemma {:induction false} SerialKeepsOdd(r: seq<bool>, bits: seq<bool>)
    requires |r| == 16
    ensures Odd(Serial(r, bits)) == (Odd(r) != Odd(bits))
    decreases |bits|
  {
    hide Step;
    if bits != [] {
      StepKeepsOdd(r, bits[0]);
      SerialKeepsOdd(Step(r, bits[0]), bits[1..]);
    }
  }

  /** Any odd number of flipped bits, wherever they are, changes the checksum. */
  lemma OddDetected(a: seq<Byte>, b: seq<Byte>)
    requires |a| == |b| && Odd(Add(MessageBits(a), MessageBits(b)))
    ensures Checksum(a) != Checksum(b)
  {
    hide Odd, MessageBits, Checksum;
    OddOfSum(MessageBits(a), MessageBits(b));
    SerialKeepsOdd(Ones(), MessageBits(a));
    SerialKeepsOdd(Ones(), MessageBits(b));
    ChecksumIsRegister(a, b);
  }

  /** Seventeen bits are too many: flipping the generator's own pattern goes unnoticed anywhere. */
  lemma GeneratorEscapes(r: seq<bool>, pre: seq<bool>, a: seq<bool>, post: seq<bool>)
    requires |r| == 16 && |a| == 17
    ensures Serial(r, pre + a + post) == Serial(r, pre + Add(a, [true] + GENERATOR) + post)
  {
    assert |GENERATOR| == 16;
    hide GENERATOR, Serial;
    var g, s := [true] + GENERATOR, Serial(r, pre);
    var b := Add(a, g);
    GeneratorVanishes();
    SerialLinear(s, Zeros(16), a, g);
    assert Add(s, Zeros(16)) == s && Add(Serial(s, a), Zeros(16)) == Serial(s, a);
    SerialJoins(r, pre + a, post);
    SerialJoins(r, pre, a);
    SerialJoins(r, pre + b, post);
    SerialJoins(r, pre, b);
  }

  lemma GeneratorVanishes()
    ensures |GENERATOR| == 16 && Serial(Zeros(16), [true] + GENERATOR) == Zeros(16)
  {
    assert |GENERATOR| == 16;
    hide GENERATOR, Serial;
    assert Zeros(16)[1..] + [false] == Zeros(16) && Add(Zeros(16), GENERATOR) == GENERATOR;
    SerialOne(Zeros(16), true);
    SerialJoins(Zeros(16), [true], GENERATOR);
    SerialCancels(GENERATOR, GENERATOR);
    assert GENERATOR[16..] + Zeros(16) == Zeros(16) && GENERATOR[..16] == GENERATOR;
  }

  /** The messages agree outside 16 consecutive bits. */
  ghost predicate Near(a: seq<Byte>, b: seq<Byte>, i: nat)
    requires |a| == |b|
  {
    forall k | 0 <= k < 8 * |a| && !(i <= k < i + 16) :: MessageBits(a)[k] == MessageBits(b)[k]
  }

  /** Damage the checksum is sure to notice: within 16 consecutive bits, or an odd number of bits. */
  ghost predicate Detectable(a: seq<Byte>, b: seq<Byte>)
    requires |a| == |b|
  {
    (exists i :: Near(a, b, i)) || Odd(Add(MessageBits(a), MessageBits(b)))
  }

  lemma DamageDetected(a: seq<Byte>, b: seq<Byte>)
    requires |a| == |b| && a != b && Detectable(a, b)
    ensures Checksum(a) != Checksum(b)
  {
    hide Checksum, Odd, MessageBits;
    if i :| Near(a, b, i) {
      BurstDetected(a, b, i);
    } else {
      OddDetected(a, b);
    }
  }

  /** The checksum is the polynomial remainder of the message, bytes exchanged. */
  lemma ChecksumIsRemainder(bytes: seq<Byte>)
    ensures Checksum(bytes) == Value(Swap(Remainder(Dividend(Ones(), MessageBits(bytes)))))
  {
    hide Remainder, Dividend;
    SerialIsRemainder(Ones(), MessageBits(bytes));
  }

  lemma {:induction false} ValueJoins(a: seq<bool>, b: seq<bool>)
    ensures Value(a + b) == Value(a) * Pow2(|b|) + Value(b)
    decreases |b|
  {
    if b == [] {
      assert a + b == a;
    } else {
      var c, p := b[..|b| - 1], Pow2(|b| - 1);
      assert (a + b)[..|a + b| - 1] == a + c;
      ValueJoins(a, c);
      assert 2 * (Value(a) * p) == Value(a) * (2 * p);
    }
  }

  /** In memory, low byte first, the checksum reads as the register, high byte first. */
  lemma ChecksumInMemory(bytes: seq<Byte>)
    ensures Checksum(bytes) < 0x1_0000
    ensures Checksum(bytes) % 256 == Value(Register(bytes)[..8])
    ensures Checksum(bytes) / 256 == Value(Register(bytes)[8..])
  {
    hide Register;
    var r := Register(bytes);
    ValueJoins(r[8..], r[..8]);
    ValueBounded(r[..8]);
    ValueBounded(r[8..]);
    assert Pow2(8) == 256;
  }

  /**
   Running the register over a message and its stored checksum leaves zero exactly when the
   stored number equals the computed one.
   */
  lemma ZeroResidue(body: seq<Byte>, c: Byte, d: Byte)
    ensures Register(body + [c, d]) == Zeros(16) <==> Checksum(body) == c + 256 * d
  {
    hide Serial, Checksum, Bits;
    var r := Register(body);
    assert [c, d][1..] == [d] && [d][1..] == [];
    assert MessageBits([d]) == Bits(d, 8);
    assert MessageBits([c, d]) == Bits(c, 8) + Bits(d, 8);
    MessageBitsJoin(body, [c, d]);
    SerialJoins(Ones(), MessageBits(body), Bits(c, 8) + Bits(d, 8));
    ClearsOnlyItself(r, Bits(c, 8) + Bits(d, 8));
    assert Bits(c, 8) + Bits(d, 8) + Zeros(0) == Bits(c, 8) + Bits(d, 8);
    ChecksumInMemory(body);
    HalvesAre(r, c, d);
  }

  lemma HalvesAre(r: seq<bool>, c: Byte, d: Byte)
    requires |r| == 16
    ensures r == Bits(c, 8) + Bits(d, 8) <==> Value(r[..8]) == c && Value(r[8..]) == d
  {
    assert Pow2(8) == 256;
    ValueOfBits(c, 8);
    ValueOfBits(d, 8);
    BitsOfValue(r[..8]);
    BitsOfValue(r[8..]);
    hide Bits, Value;
    if r == Bits(c, 8) + Bits(d, 8) {
      assert r[..8] == Bits(c, 8) && r[8..] == Bits(d, 8);
    }
    assert r == r[..8] + r[8..];
  }
}
