/** The lookup table of the CRC: every entry follows from the entry of half its index. */
module CrcTable {

  /** Adds the low terms of the generator. */
  function Flip(w: bv16): (r: bv16)
  {
    w ^ 0x1021
  }

  /** Times x modulo the generator x^16 + x^12 + x^5 + 1. */
  function Twice(w: bv16): (r: bv16)
  {
    if w & 0x8000 != 0 then Flip(w << 1) else w << 1
  }

  const ROW_0: seq<bv16> := [0x0000, 0x1021, 0x2042, 0x3063, 0x4084, 0x50a5, 0x60c6, 0x70e7,
    0x8108, 0x9129, 0xa14a, 0xb16b, 0xc18c, 0xd1ad, 0xe1ce, 0xf1ef]
  const ROW_1: seq<bv16> := [0x1231, 0x0210, 0x3273, 0x2252, 0x52b5, 0x4294, 0x72f7, 0x62d6,
    0x9339, 0x8318, 0xb37b, 0xa35a, 0xd3bd, 0xc39c, 0xf3ff, 0xe3de]
  const ROW_2: seq<bv16> := [0x2462, 0x3443, 0x0420, 0x1401, 0x64e6, 0x74c7, 0x44a4, 0x5485,
    0xa56a, 0xb54b, 0x8528, 0x9509, 0xe5ee, 0xf5cf, 0xc5ac, 0xd58d]
  const ROW_3: seq<bv16> := [0x3653, 0x2672, 0x1611, 0x0630, 0x76d7, 0x66f6, 0x5695, 0x46b4,
    0xb75b, 0xa77a, 0x9719, 0x8738, 0xf7df, 0xe7fe, 0xd79d, 0xc7bc]
  const ROW_4: seq<bv16> := [0x48c4, 0x58e5, 0x6886, 0x78a7, 0x0840, 0x1861, 0x2802, 0x3823,
    0xc9cc, 0xd9ed, 0xe98e, 0xf9af, 0x8948, 0x9969, 0xa90a, 0xb92b]
  const ROW_5: seq<bv16> := [0x5af5, 0x4ad4, 0x7ab7, 0x6a96, 0x1a71, 0x0a50, 0x3a33, 0x2a12,
    0xdbfd, 0xcbdc, 0xfbbf, 0xeb9e, 0x9b79, 0x8b58, 0xbb3b, 0xab1a]
  const ROW_6: seq<bv16> := [0x6ca6, 0x7c87, 0x4ce4, 0x5cc5, 0x2c22, 0x3c03, 0x0c60, 0x1c41,
    0xedae, 0xfd8f, 0xcdec, 0xddcd, 0xad2a, 0xbd0b, 0x8d68, 0x9d49]
  const ROW_7: seq<bv16> := [0x7e97, 0x6eb6, 0x5ed5, 0x4ef4, 0x3e13, 0x2e32, 0x1e51, 0x0e70,
    0xff9f, 0xefbe, 0xdfdd, 0xcffc, 0xbf1b, 0xaf3a, 0x9f59, 0x8f78]
  const ROW_8: seq<bv16> := [0x9188, 0x81a9, 0xb1ca, 0xa1eb, 0xd10c, 0xc12d, 0xf14e, 0xe16f,
    0x1080, 0x00a1, 0x30c2, 0x20e3, 0x5004, 0x4025, 0x7046, 0x6067]
  const ROW_9: seq<bv16> := [0x83b9, 0x9398, 0xa3fb, 0xb3da, 0xc33d, 0xd31c, 0xe37f, 0xf35e,
    0x02b1, 0x1290, 0x22f3, 0x32d2, 0x4235, 0x5214, 0x6277, 0x7256]
  const ROW_A: seq<bv16> := [0xb5ea, 0xa5cb, 0x95a8, 0x8589, 0xf56e, 0xe54f, 0xd52c, 0xc50d,
    0x34e2, 0x24c3, 0x14a0, 0x0481, 0x7466, 0x6447, 0x5424, 0x4405]
  const ROW_B: seq<bv16> := [0xa7db, 0xb7fa, 0x8799, 0x97b8, 0xe75f, 0xf77e, 0xc71d, 0xd73c,
    0x26d3, 0x36f2, 0x0691, 0x16b0, 0x6657, 0x7676, 0x4615, 0x5634]
  const ROW_C: seq<bv16> := [0xd94c, 0xc96d, 0xf90e, 0xe92f, 0x99c8, 0x89e9, 0xb98a, 0xa9ab,
    0x5844, 0x4865, 0x7806, 0x6827, 0x18c0, 0x08e1, 0x3882, 0x28a3]
  const ROW_D: seq<bv16> := [0xcb7d, 0xdb5c, 0xeb3f, 0xfb1e, 0x8bf9, 0x9bd8, 0xabbb, 0xbb9a,
    0x4a75, 0x5a54, 0x6a37, 0x7a16, 0x0af1, 0x1ad0, 0x2ab3, 0x3a92]
  const ROW_E: seq<bv16> := [0xfd2e, 0xed0f, 0xdd6c, 0xcd4d, 0xbdaa, 0xad8b, 0x9de8, 0x8dc9,
    0x7c26, 0x6c07, 0x5c64, 0x4c45, 0x3ca2, 0x2c83, 0x1ce0, 0x0cc1]
  const ROW_F: seq<bv16> := [0xef1f, 0xff3e, 0xcf5d, 0xdf7c, 0xaf9b, 0xbfba, 0x8fd9, 0x9ff8,
    0x6e17, 0x7e36, 0x4e55, 0x5e74, 0x2e93, 0x3eb2, 0x0ed1, 0x1ef0]

  /** The 256 entries, sixteen to a row. */
  const TABLE: seq<bv16> := LOW + HIGH
  const LOW: seq<bv16> := ((ROW_0 + ROW_1) + (ROW_2 + ROW_3)) + ((ROW_4 + ROW_5) + (ROW_6 + ROW_7))
  const HIGH: seq<bv16> := ((ROW_8 + ROW_9) + (ROW_A + ROW_B)) + ((ROW_C + ROW_D) + (ROW_E + ROW_F))

  /** For each entry, those of twice its index and of one more. */
  function Double(s: seq<bv16>): (r: seq<bv16>)
    ensures |r| == 2 * |s|
  {
    if s == [] then [] else [Twice(s[0]), Flip(Twice(s[0]))] + Double(s[1..])
  }

  function Eight(a: bv16, b: bv16, c: bv16, d: bv16, e: bv16, f: bv16, g: bv16, h: bv16): (r: seq<bv16>)
  {
    Four(a, b, c, d) + Four(e, f, g, h)
  }

  function Four(a: bv16, b: bv16, c: bv16, d: bv16): (r: seq<bv16>)
  {
    [Twice(a), Flip(Twice(a)), Twice(b), Flip(Twice(b)), Twice(c), Flip(Twice(c)), Twice(d), Flip(Twice(d))]
  }

  lemma Row0()
    ensures ROW_0 == Eight(0x0000, 0x1021, 0x2042, 0x3063, 0x4084, 0x50a5, 0x60c6, 0x70e7)
  {
  }

  lemma Row1()
    ensures ROW_1 == Eight(0x8108, 0x9129, 0xa14a, 0xb16b, 0xc18c, 0xd1ad, 0xe1ce, 0xf1ef)
  {
  }

  lemma Row2()
    ensures ROW_2 == Eight(0x1231, 0x0210, 0x3273, 0x2252, 0x52b5, 0x4294, 0x72f7, 0x62d6)
  {
  }

  lemma Row3()
    ensures ROW_3 == Eight(0x9339, 0x8318, 0xb37b, 0xa35a, 0xd3bd, 0xc39c, 0xf3ff, 0xe3de)
  {
  }

  lemma Row4()
    ensures ROW_4 == Eight(0x2462, 0x3443, 0x0420, 0x1401, 0x64e6, 0x74c7, 0x44a4, 0x5485)
  {
  }

  lemma Row5()
    ensures ROW_5 == Eight(0xa56a, 0xb54b, 0x8528, 0x9509, 0xe5ee, 0xf5cf, 0xc5ac, 0xd58d)
  {
  }

  lemma Row6()
    ensures ROW_6 == Eight(0x3653, 0x2672, 0x1611, 0x0630, 0x76d7, 0x66f6, 0x5695, 0x46b4)
  {
  }

  lemma Row7()
    ensures ROW_7 == Eight(0xb75b, 0xa77a, 0x9719, 0x8738, 0xf7df, 0xe7fe, 0xd79d, 0xc7bc)
  {
  }

  lemma Row8()
    ensures ROW_8 == Eight(0x48c4, 0x58e5, 0x6886, 0x78a7, 0x0840, 0x1861, 0x2802, 0x3823)
  {
  }

  lemma Row9()
    ensures ROW_9 == Eight(0xc9cc, 0xd9ed, 0xe98e, 0xf9af, 0x8948, 0x9969, 0xa90a, 0xb92b)
  {
  }

  lemma RowA()
    ensures ROW_A == Eight(0x5af5, 0x4ad4, 0x7ab7, 0x6a96, 0x1a71, 0x0a50, 0x3a33, 0x2a12)
  {
  }

  lemma RowB()
    ensures ROW_B == Eight(0xdbfd, 0xcbdc, 0xfbbf, 0xeb9e, 0x9b79, 0x8b58, 0xbb3b, 0xab1a)
  {
  }

  lemma RowC()
    ensures ROW_C == Eight(0x6ca6, 0x7c87, 0x4ce4, 0x5cc5, 0x2c22, 0x3c03, 0x0c60, 0x1c41)
  {
  }

  lemma RowD()
    ensures ROW_D == Eight(0xedae, 0xfd8f, 0xcdec, 0xddcd, 0xad2a, 0xbd0b, 0x8d68, 0x9d49)
  {
  }

  lemma RowE()
    ensures ROW_E == Eight(0x7e97, 0x6eb6, 0x5ed5, 0x4ef4, 0x3e13, 0x2e32, 0x1e51, 0x0e70)
  {
  }

  lemma RowF()
    ensures ROW_F == Eight(0xff9f, 0xefbe, 0xdfdd, 0xcffc, 0xbf1b, 0xaf3a, 0x9f59, 0x8f78)
  {
  }

  // ---------------------------------------------------------------- words as bits

  datatype Word = Word(b15: bool, b14: bool, b13: bool, b12: bool, b11: bool, b10: bool, b9: bool, b8: bool,
     b7: bool, b6: bool, b5: bool, b4: bool, b3: bool, b2: bool, b1: bool, b0: bool)

  function WordOf(r: bv16): (w: Word)
  {
    Word(r & 0x8000 != 0, r & 0x4000 != 0, r & 0x2000 != 0, r & 0x1000 != 0, r & 0x800 != 0, r & 0x400 != 0, r & 0x200 != 0, r & 0x100 != 0,
     r & 0x80 != 0, r & 0x40 != 0, r & 0x20 != 0, r & 0x10 != 0, r & 0x8 != 0, r & 0x4 != 0, r & 0x2 != 0, r & 0x1 != 0)
  }

  function BitsOfWord(w: Word): (s: seq<bool>)
    ensures |s| == 16
  {
    ([w.b15, w.b14, w.b13, w.b12] + [w.b11, w.b10, w.b9, w.b8]) + ([w.b7, w.b6, w.b5, w.b4] + [w.b3, w.b2, w.b1, w.b0])
  }

  /** The bits of a 16-bit word, most significant first. */
  function Bits16(r: bv16): (s: seq<bool>)
    ensures |s| == 16
  {
    BitsOfWord(WordOf(r))
  }

  lemma WordOfFlip(r: bv16)
    ensures var w := WordOf(r); WordOf(Flip(r)) == FlipWord(w)
  {
  }

  function ShiftWord(w: Word): (v: Word)
  {
    Word(w.b14, w.b13, w.b12, w.b11, w.b10, w.b9, w.b8, w.b7, w.b6, w.b5, w.b4, w.b3, w.b2, w.b1, w.b0, false)
  }

  lemma WordOfShift(r: bv16)
    ensures WordOf(r << 1) == ShiftWord(WordOf(r))
  {
  }

  lemma WordOfTwice(r: bv16)
    ensures WordOf(Twice(r)) == TwiceWord(WordOf(r))
  {
    WordOfShift(r);
    WordOfFlip(r << 1);
  }

  /** Addition of polynomials over the two-element field, coefficient by coefficient. */
  function Add(a: seq<bool>, b: seq<bool>): (c: seq<bool>)
    requires |a| == |b|
    ensures |c| == |a| && forall i | 0 <= i < |c| :: c[i] == (a[i] != b[i])
  {
    seq(|a|, i requires 0 <= i < |a| => a[i] != b[i])
  }

  /** The low terms of the generator, x^12 + x^5 + 1, highest power first. */
  const GENERATOR: seq<bool> :=
    ([false, false, false, true] + [false, false, false, false]) + ([false, false, true, false] + [false, false, false, true])

  lemma AddJoins(a: seq<bool>, b: seq<bool>, c: seq<bool>, d: seq<bool>)
    requires |a| == |c| && |b| == |d|
    ensures Add(a + b, c + d) == Add(a, c) + Add(b, d)
  {
  }

  lemma AddFour(a: bool, b: bool, c: bool, d: bool, e: bool, f: bool, g: bool, h: bool)
    ensures Add([a, b, c, d], [e, f, g, h]) == [a != e, b != f, c != g, d != h]
  {
  }

  function FlipWord(w: Word): (v: Word)
  {
    w.(b12 := !w.b12, b5 := !w.b5, b0 := !w.b0)
  }

  lemma BitsOfFlipWord(w: Word)
    ensures BitsOfWord(FlipWord(w)) == Add(BitsOfWord(w), GENERATOR)
  {
    hide Add;
    var a, b, c, d := [w.b15, w.b14, w.b13, w.b12], [w.b11, w.b10, w.b9, w.b8], [w.b7, w.b6, w.b5, w.b4], [w.b3, w.b2, w.b1, w.b0];
    var g, z, h := [false, false, false, true], [false, false, false, false], [false, false, true, false];
    AddJoins(a + b, c + d, g + z, h + g);
    AddJoins(a, b, g, z);
    AddJoins(c, d, h, g);
    AddFour(w.b15, w.b14, w.b13, w.b12, false, false, false, true);
    AddFour(w.b11, w.b10, w.b9, w.b8, false, false, false, false);
    AddFour(w.b7, w.b6, w.b5, w.b4, false, false, true, false);
    AddFour(w.b3, w.b2, w.b1, w.b0, false, false, false, true);
  }

  function FlatBits(w: Word): (s: seq<bool>)
  {
    [w.b15, w.b14, w.b13, w.b12, w.b11, w.b10, w.b9, w.b8, w.b7, w.b6, w.b5, w.b4, w.b3, w.b2, w.b1, w.b0]
  }

  lemma JoinFour(a: bool, b: bool, c: bool, d: bool, e: bool, f: bool, g: bool, h: bool)
    ensures [a, b, c, d] + [e, f, g, h] == [a, b, c, d, e, f, g, h]
  {
  }

  lemma JoinEight(a: bool, b: bool, c: bool, d: bool, e: bool, f: bool, g: bool, h: bool,
                  i: bool, j: bool, k: bool, l: bool, m: bool, n: bool, o: bool, p: bool)
    ensures [a, b, c, d, e, f, g, h] + [i, j, k, l, m, n, o, p] == [a, b, c, d, e, f, g, h, i, j, k, l, m, n, o, p]
  {
  }

  lemma Flatten(a: bool, b: bool, c: bool, d: bool, e: bool, f: bool, g: bool, h: bool,
                                   i: bool, j: bool, k: bool, l: bool, m: bool, n: bool, o: bool, p: bool)
    ensures ([a, b, c, d] + [e, f, g, h]) + ([i, j, k, l] + [m, n, o, p])
         == [a, b, c, d, e, f, g, h, i, j, k, l, m, n, o, p]
  {
    JoinFour(a, b, c, d, e, f, g, h);
    JoinFour(i, j, k, l, m, n, o, p);
    JoinEight(a, b, c, d, e, f, g, h, i, j, k, l, m, n, o, p);
  }

  lemma BitsAreFlat(w: Word)
    ensures BitsOfWord(w) == FlatBits(w)
  {
    var Word(a, b, c, d, e, f, g, h, i, j, k, l, m, n, o, p) := w;
    Flatten(a, b, c, d, e, f, g, h, i, j, k, l, m, n, o, p);
    assert BitsOfWord(w) == ([a, b, c, d] + [e, f, g, h]) + ([i, j, k, l] + [m, n, o, p]);
    assert FlatBits(w) == [a, b, c, d, e, f, g, h, i, j, k, l, m, n, o, p];
  }

  lemma FlatShift(w: Word)
    ensures FlatBits(ShiftWord(w)) == FlatBits(w)[1..] + [false]
  {
  }

  lemma BitsOfShiftWord(w: Word)
    ensures BitsOfWord(ShiftWord(w)) == BitsOfWord(w)[1..] + [false]
  {
    BitsAreFlat(w);
    BitsAreFlat(ShiftWord(w));
    FlatShift(w);
    hide BitsOfWord, FlatBits;
  }

  lemma BitsOfFlip(r: bv16)
    ensures Bits16(Flip(r)) == Add(Bits16(r), GENERATOR)
  {
    hide BitsOfWord, Add;
    WordOfFlip(r);
    BitsOfFlipWord(WordOf(r));
    hide WordOf, Flip;
  }

  function TwiceWord(w: Word): (v: Word)
  {
    if w.b15 then FlipWord(ShiftWord(w)) else ShiftWord(w)
  }

  lemma BitsOfTwiceWord(w: Word)
    ensures var v := BitsOfWord(w)[1..] + [false];
            BitsOfWord(TwiceWord(w)) == if BitsOfWord(w)[0] then Add(v, GENERATOR) else v
  {
    hide Add;
    assert BitsOfWord(w)[0] == w.b15;
    BitsOfShiftWord(w);
    BitsOfFlipWord(ShiftWord(w));
    hide BitsOfWord, FlipWord, ShiftWord;
  }

  lemma BitsOfTwice(r: bv16)
    ensures var v := Bits16(r)[1..] + [false];
            Bits16(Twice(r)) == if Bits16(r)[0] then Add(v, GENERATOR) else v
  {
    WordOfTwice(r);
    BitsOfTwiceWord(WordOf(r));
    hide BitsOfWord, WordOf, Twice, TwiceWord, Add;
  }

  // ---------------------------------------------------------------- the recurrence of the table

  lemma {:induction false} DoubleJoins(a: seq<bv16>, b: seq<bv16>)
    ensures Double(a + b) == Double(a) + Double(b)
  {
    hide Twice, Flip;
    if a == [] {
      assert a + b == b;
    } else {
      assert (a + b)[1..] == a[1..] + b;
      DoubleJoins(a[1..], b);
      var head := [Twice(a[0]), Flip(Twice(a[0]))];
      assert head + (Double(a[1..]) + Double(b)) == (head + Double(a[1..])) + Double(b);
    }
  }

  lemma DoubleOne(a: bv16)
    ensures Double([a]) == [Twice(a), Flip(Twice(a))]
  {
    hide Twice, Flip;
    assert [a][1..] == [];
  }

  lemma DoubleTwo(a: bv16, b: bv16)
    ensures Double([a, b]) == [Twice(a), Flip(Twice(a)), Twice(b), Flip(Twice(b))]
  {
    hide Twice, Flip, Double;
    DoubleOne(a);
    DoubleOne(b);
    assert [a, b] == [a] + [b];
    DoubleJoins([a], [b]);
  }

  lemma DoubleEight(a: bv16, b: bv16, c: bv16, d: bv16, e: bv16, f: bv16, g: bv16, h: bv16)
    ensures Double([a, b, c, d, e, f, g, h]) == Eight(a, b, c, d, e, f, g, h)
  {
    hide Twice, Flip, Double;
    hide Four;
    DoubleFour(a, b, c, d);
    DoubleFour(e, f, g, h);
    DoubleJoins([a, b, c, d], [e, f, g, h]);
    assert [a, b, c, d] + [e, f, g, h] == [a, b, c, d, e, f, g, h];
  }

  lemma DoubleFour(a: bv16, b: bv16, c: bv16, d: bv16)
    ensures Double([a, b, c, d]) == Four(a, b, c, d)
  {
    hide Twice, Flip, Double;
    DoubleTwo(a, b);
    DoubleTwo(c, d);
    DoubleJoins([a, b], [c, d]);
    assert [a, b] + [c, d] == [a, b, c, d];
  }

  lemma {:induction false} DoubleAt(s: seq<bv16>, y: nat)
    requires y < |s|
    ensures Double(s)[2 * y] == Twice(s[y]) && Double(s)[2 * y + 1] == Flip(Twice(s[y]))
  {
    hide Twice, Flip;
    if y > 0 {
      DoubleAt(s[1..], y - 1);
    }
  }

  lemma DoubleHalf(s: seq<bv16>)
    requires |s| == 8
    ensures Double(s) == Eight(s[0], s[1], s[2], s[3], s[4], s[5], s[6], s[7])
  {
    hide Double, Eight;
    DoubleEight(s[0], s[1], s[2], s[3], s[4], s[5], s[6], s[7]);
    assert s == [s[0], s[1], s[2], s[3], s[4], s[5], s[6], s[7]];
  }

  /** A row doubles into two rows. */
  lemma DoubleRow(r: seq<bv16>)
    requires |r| == 16
    ensures Double(r) == Eight(r[0], r[1], r[2], r[3], r[4], r[5], r[6], r[7]) + Eight(r[8], r[9], r[10], r[11], r[12], r[13], r[14], r[15])
  {
    hide Double, Eight;
    DoubleHalf(r[..8]);
    DoubleHalf(r[8..]);
    DoubleJoins(r[..8], r[8..]);
    assert r == r[..8] + r[8..];
  }

  lemma Pair0()
    ensures Double(ROW_0) == ROW_0 + ROW_1
  {
    hide Double, Eight;
    DoubleRow(ROW_0);
    Row0();
    Row1();
  }

  lemma Pair1()
    ensures Double(ROW_1) == ROW_2 + ROW_3
  {
    hide Double, Eight;
    DoubleRow(ROW_1);
    Row2();
    Row3();
  }

  lemma Pair2()
    ensures Double(ROW_2) == ROW_4 + ROW_5
  {
    hide Double, Eight;
    DoubleRow(ROW_2);
    Row4();
    Row5();
  }

  lemma Pair3()
    ensures Double(ROW_3) == ROW_6 + ROW_7
  {
    hide Double, Eight;
    DoubleRow(ROW_3);
    Row6();
    Row7();
  }

  lemma Pair4()
    ensures Double(ROW_4) == ROW_8 + ROW_9
  {
    hide Double, Eight;
    DoubleRow(ROW_4);
    Row8();
    Row9();
  }

  lemma Pair5()
    ensures Double(ROW_5) == ROW_A + ROW_B
  {
    hide Double, Eight;
    DoubleRow(ROW_5);
    RowA();
    RowB();
  }

  lemma Pair6()
    ensures Double(ROW_6) == ROW_C + ROW_D
  {
    hide Double, Eight;
    DoubleRow(ROW_6);
    RowC();
    RowD();
  }

  lemma Pair7()
    ensures Double(ROW_7) == ROW_E + ROW_F
  {
    hide Double, Eight;
    DoubleRow(ROW_7);
    RowE();
    RowF();
  }

  /** The table is the doubling of its own lower half, and starts with zero. */
  lemma TableIsDoubled()
    ensures |LOW| == 128 && |TABLE| == 256 && TABLE == Double(LOW) && LOW[0] == 0
  {
    assert |LOW| == 128 && LOW[0] == 0;
    hide Double;
    Pair0(); Pair1(); Pair2(); Pair3(); Pair4(); Pair5(); Pair6(); Pair7();
    DoubleJoins(ROW_0, ROW_1);
    DoubleJoins(ROW_2, ROW_3);
    DoubleJoins(ROW_4, ROW_5);
    DoubleJoins(ROW_6, ROW_7);
    DoubleJoins(ROW_0 + ROW_1, ROW_2 + ROW_3);
    DoubleJoins(ROW_4 + ROW_5, ROW_6 + ROW_7);
    DoubleJoins((ROW_0 + ROW_1) + (ROW_2 + ROW_3), (ROW_4 + ROW_5) + (ROW_6 + ROW_7));
  }

  lemma TableRecurrence(y: nat)
    requires y < 128
    ensures |TABLE| == 256 && TABLE[0] == 0
    ensures TABLE[2 * y] == Twice(TABLE[y]) && TABLE[2 * y + 1] == Flip(TABLE[2 * y])
  {
    TableIsDoubled();
    DoubleAt(LOW, y);
    assert TABLE[y] == LOW[y] && TABLE[0] == LOW[0];
    hide Double, Twice, Flip;
  }
}
