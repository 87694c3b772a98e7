/**
 What the bytes of a coded picture are, and that they determine the picture: 39 subbands of
 16-bit coefficients, each with a header of its least and greatest value, one arithmetic
 code for all subbands that are not constant.
 */
module Coding {
  import opened Arithmetic
  import opened Words
  import opened Memory
  import opened RangeCoder
  import opened RangeDecoder
  import opened BitStream
  import opened FrequencyTable

  const SUBBANDS: nat := 39
  /** Two 16-bit numbers per subband. */
  const HEADER: nat := 156
  const RESOLUTION: nat := 1000000
  const STATE_BITS: nat := 32

  /** The lookup tables and the scale shared by both sides. */
  datatype Model = Model(exp: seq<nat>, cdf: seq<nat>, scale: nat)

  ghost predicate ModelOk(m: Model)
  {
    ExpOk(m.exp) && CdfOk(m.cdf) && m.scale > 0
  }

  ghost predicate GmmsOk(gmms: seq<Gmm>)
  {
    forall p | 0 <= p < |gmms| :: GmmOk(gmms[p])
  }

  ghost predicate SubbandOk(gmms: seq<Gmm>, data: seq<int>)
  {
    |data| == |gmms| >= 1 && GmmsOk(gmms) && forall p | 0 <= p < |data| :: IsInt16(data[p])
  }

  // ---------------------------------------------------------------- one subband

  function Least(s: seq<int>): (m: int)
    requires s != []
    ensures m in s && forall p | 0 <= p < |s| :: m <= s[p]
  {
    if |s| == 1 then s[0]
    else
      var m := Least(s[..|s| - 1]);
      if s[|s| - 1] < m then s[|s| - 1] else m
  }

  function Greatest(s: seq<int>): (m: int)
    requires s != []
    ensures m in s && forall p | 0 <= p < |s| :: s[p] <= m
  {
    if |s| == 1 then s[0]
    else
      var m := Greatest(s[..|s| - 1]);
      if m < s[|s| - 1] then s[|s| - 1] else m
  }

  /** The table of one coefficient, given the subband's bounds. */
  function SetupOf(m: Model, g: Gmm, lo: int, hi: int): (t: Setup)
    requires ModelOk(m) && GmmOk(g) && lo <= hi
    ensures SetupOk(t)
  {
    Setup(m.cdf, RESOLUTION, MixtureOf(g, m.scale, m.exp), m.scale, lo, hi)
  }

  lemma QuarterOfState()
    ensures Quarter(STATE_BITS) == 0x4000_0000
  {
    assert Pow2(8) == 256;
    Pow2Adds(8, 8);
    Pow2Adds(16, 16);
  }

  lemma CoefficientTableOk(m: Model, g: Gmm, lo: int, hi: int)
    requires ModelOk(m) && GmmOk(g) && IsInt16(lo) && IsInt16(hi) && lo <= hi
    ensures TableOk(STATE_BITS, TableOf(SetupOf(m, g, lo, hi)))
  {
    QuarterOfState();
    TableDischargesChecks(STATE_BITS, SetupOf(m, g, lo, hi));
  }

  /** A constant subband is not coded at all. */
  function SubTables(m: Model, gmms: seq<Gmm>, lo: int, hi: int): (r: seq<Table>)
    requires ModelOk(m) && GmmsOk(gmms)
    ensures |r| == if lo < hi then |gmms| else 0
  {
    if lo < hi
    then seq(|gmms|, p requires 0 <= p < |gmms| => TableOf(SetupOf(m, gmms[p], lo, hi)))
    else []
  }

  lemma SubTablesOk(m: Model, gmms: seq<Gmm>, lo: int, hi: int)
    requires ModelOk(m) && GmmsOk(gmms) && IsInt16(lo) && IsInt16(hi)
    ensures TablesOk(STATE_BITS, SubTables(m, gmms, lo, hi))
  {
    var r := SubTables(m, gmms, lo, hi);
    forall p | 0 <= p < |r| ensures TableOk(STATE_BITS, r[p]) {
      CoefficientTableOk(m, gmms[p], lo, hi);
    }
  }

  function SubSymbols(data: seq<int>): (r: seq<nat>)
    requires data != []
  {
    var lo, hi := Least(data), Greatest(data);
    if lo < hi then seq(|data|, p requires 0 <= p < |data| => data[p] - lo) else []
  }

  /** What a subband is rebuilt from: its bounds and, unless it is constant, its symbols. */
  function Rebuild(len: nat, lo: int, hi: int, xs: seq<nat>): (r: seq<int>)
    requires lo < hi ==> |xs| == len
    ensures |r| == len
  {
    if lo < hi then seq(len, p requires 0 <= p < len => xs[p] + lo) else seq(len, p => lo)
  }

  lemma RebuildInverts(data: seq<int>)
    requires data != []
    ensures |SubSymbols(data)| == if Least(data) < Greatest(data) then |data| else 0
    ensures Rebuild(|data|, Least(data), Greatest(data), SubSymbols(data)) == data
  {
  }

  // ---------------------------------------------------------------- the header

  /** A 16-bit number as two bytes, low byte first. */
  function Int16Bytes(v: int): (r: seq<Byte>)
    ensures |r| == 2
  {
    LE(v % 0x1_0000, 2)
  }

  function Int16From(a: Byte, b: Byte): (v: int)
    ensures IsInt16(v)
  {
    var u := FromLE([a, b]);
    TwoBytes(a, b);
    if u < 0x8000 then u else u - 0x1_0000
  }

  lemma Int16RoundTrip(v: int)
    requires IsInt16(v)
    ensures var r := Int16Bytes(v); Int16From(r[0], r[1]) == v
  {
    var r := Int16Bytes(v);
    assert r == [r[0], r[1]] && Range(2) == 0x1_0000;
    ReadsBack(v % 0x1_0000, 2);
  }

  /** Least and greatest value of a subband. */
  datatype Bounds = Bounds(lo: int, hi: int)

  function HeaderOf(b: Bounds): (r: seq<Byte>)
    ensures |r| == 4
  {
    Int16Bytes(b.lo) + Int16Bytes(b.hi)
  }

  function ReadBounds(h: seq<Byte>): (b: Bounds)
    requires |h| == 4
    ensures IsInt16(b.lo) && IsInt16(b.hi)
  {
    Bounds(Int16From(h[0], h[1]), Int16From(h[2], h[3]))
  }

  lemma HeaderRoundTrip(b: Bounds)
    requires IsInt16(b.lo) && IsInt16(b.hi)
    ensures ReadBounds(HeaderOf(b)) == b
  {
    Int16RoundTrip(b.lo);
    Int16RoundTrip(b.hi);
  }

  function BoundsOf(data: seq<int>): (b: Bounds)
    requires data != []
  {
    Bounds(Least(data), Greatest(data))
  }

  /** The bounds of the first n subbands. */
  function ReadHeader(bytes: seq<Byte>, n: nat): (r: seq<Bounds>)
    requires 4 * n <= |bytes|
    ensures |r| == n && forall i | 0 <= i < n :: IsInt16(r[i].lo) && IsInt16(r[i].hi)
  {
    seq(n, i requires 0 <= i < n => ReadBounds(bytes[4 * i..4 * i + 4]))
  }

  /** The header holds the bounds of the first n subbands. */
  ghost predicate HeaderIs(bytes: seq<Byte>, data: seq<seq<int>>, n: nat)
  {
    && n <= |data| && 4 * n <= |bytes|
    && forall i | 0 <= i < n :: data[i] != [] && bytes[4 * i..4 * i + 4] == HeaderOf(BoundsOf(data[i]))
  }

  lemma HeaderReadsBack(bytes: seq<Byte>, data: seq<seq<int>>, n: nat)
    requires HeaderIs(bytes, data, n)
    requires forall i, p | 0 <= i < n && 0 <= p < |data[i]| :: IsInt16(data[i][p])
    ensures forall i | 0 <= i < n :: ReadHeader(bytes, n)[i] == BoundsOf(data[i])
  {
    forall i | 0 <= i < n ensures ReadHeader(bytes, n)[i] == BoundsOf(data[i]) {
      HeaderRoundTrip(BoundsOf(data[i]));
    }
  }

  // ---------------------------------------------------------------- the whole picture

  ghost predicate AllGmmsOk(gmms: seq<seq<Gmm>>)
  {
    forall i | 0 <= i < |gmms| :: GmmsOk(gmms[i])
  }

  ghost predicate PictureOk(gmms: seq<seq<Gmm>>, data: seq<seq<int>>)
  {
    |gmms| == |data| && forall i | 0 <= i < |data| :: SubbandOk(gmms[i], data[i])
  }

  ghost predicate Bounding(bounds: seq<Bounds>, data: seq<seq<int>>)
  {
    |bounds| == |data| && forall i | 0 <= i < |data| :: data[i] != [] && bounds[i] == BoundsOf(data[i])
  }

  ghost predicate BoundsFit(bounds: seq<Bounds>)
  {
    forall i | 0 <= i < |bounds| :: IsInt16(bounds[i].lo) && IsInt16(bounds[i].hi)
  }

  /** The tables of the subbands from number i on, one after another. */
  function Tables(m: Model, gmms: seq<seq<Gmm>>, bounds: seq<Bounds>, i: nat): (r: seq<Table>)
    requires ModelOk(m) && AllGmmsOk(gmms) && |bounds| == |gmms| >= i
    decreases |gmms| - i
  {
    if i == |gmms| then []
    else SubTables(m, gmms[i], bounds[i].lo, bounds[i].hi) + Tables(m, gmms, bounds, i + 1)
  }

  lemma {:induction false} AllTablesOk(m: Model, gmms: seq<seq<Gmm>>, bounds: seq<Bounds>, i: nat)
    requires ModelOk(m) && AllGmmsOk(gmms) && |bounds| == |gmms| >= i && BoundsFit(bounds)
    ensures TablesOk(STATE_BITS, Tables(m, gmms, bounds, i))
    decreases |gmms| - i
  {
    if i < |gmms| {
      SubTablesOk(m, gmms[i], bounds[i].lo, bounds[i].hi);
      AllTablesOk(m, gmms, bounds, i + 1);
    }
  }

  function Symbols(data: seq<seq<int>>, i: nat): (r: seq<nat>)
    requires i <= |data| && forall k | 0 <= k < |data| :: data[k] != []
    decreases |data| - i
  {
    if i == |data| then [] else SubSymbols(data[i]) + Symbols(data, i + 1)
  }

  /** Deals decoded symbols out to the subbands from number i on. */
  function Split(gmms: seq<seq<Gmm>>, bounds: seq<Bounds>, xs: seq<nat>, i: nat): (r: seq<seq<int>>)
    requires |bounds| == |gmms| >= i
    decreases |gmms| - i
  {
    if i == |gmms| then []
    else
      var k := if bounds[i].lo < bounds[i].hi then |gmms[i]| else 0;
      if |xs| < k then []
      else [Rebuild(|gmms[i]|, bounds[i].lo, bounds[i].hi, xs[..k])] + Split(gmms, bounds, xs[k..], i + 1)
  }

  /** The reference decoder of a whole picture. */
  function DecodePicture(m: Model, gmms: seq<seq<Gmm>>, bytes: seq<Byte>): (r: seq<seq<int>>)
    requires ModelOk(m) && AllGmmsOk(gmms) && |gmms| == SUBBANDS && |bytes| >= HEADER
  {
    var bounds := ReadHeader(bytes, SUBBANDS);
    AllTablesOk(m, gmms, bounds, 0);
    var stream := BitsOf(bytes[HEADER..]);
    var xs := DecodeAll(STATE_BITS, DecStart(STATE_BITS, stream), Tables(m, gmms, bounds, 0), stream);
    Split(gmms, bounds, xs, 0)
  }

  /** Symbols are numbers of cells of their tables. */
  ghost predicate Matches(tables: seq<Table>, xs: seq<nat>)
  {
    |xs| == |tables| && forall i | 0 <= i < |xs| :: xs[i] < |tables[i].cells|
  }

  lemma SubMatches(m: Model, gmms: seq<Gmm>, data: seq<int>)
    requires ModelOk(m) && SubbandOk(gmms, data)
    ensures Matches(SubTables(m, gmms, Least(data), Greatest(data)), SubSymbols(data))
  {
  }

  lemma MatchesJoin(t: seq<Table>, x: seq<nat>, u: seq<Table>, y: seq<nat>)
    requires Matches(t, x) && Matches(u, y)
    ensures Matches(t + u, x + y)
    ensures SymsOf(t + u, x + y) == SymsOf(t, x) + SymsOf(u, y)
  {
  }

  /** What one subband sends to the coder. */
  function SubSyms(m: Model, gmms: seq<Gmm>, data: seq<int>): (r: seq<Sym>)
    requires ModelOk(m) && SubbandOk(gmms, data)
    ensures |r| == if Least(data) < Greatest(data) then |data| else 0
  {
    SubMatches(m, gmms, data);
    SymsOf(SubTables(m, gmms, Least(data), Greatest(data)), SubSymbols(data))
  }

  /** What the subbands from number i on send to the coder. */
  function AllSyms(m: Model, gmms: seq<seq<Gmm>>, data: seq<seq<int>>, i: nat): (r: seq<Sym>)
    requires ModelOk(m) && PictureOk(gmms, data) && i <= |data|
    decreases |data| - i
  {
    if i == |data| then [] else SubSyms(m, gmms[i], data[i]) + AllSyms(m, gmms, data, i + 1)
  }

  /** Under these tables the symbols xs are sent to the coder as syms. */
  ghost predicate Sends(tables: seq<Table>, xs: seq<nat>, syms: seq<Sym>)
  {
    Matches(tables, xs) && SymsOf(tables, xs) == syms
  }

  lemma SendsNothing()
    ensures Sends([], [], [])
  {
  }

  lemma SubbandJoins(m: Model, gmms: seq<Gmm>, data: seq<int>, u: seq<Table>, y: seq<nat>, rest: seq<Sym>)
    requires ModelOk(m) && SubbandOk(gmms, data) && Sends(u, y, rest)
    ensures Sends(SubTables(m, gmms, Least(data), Greatest(data)) + u, SubSymbols(data) + y, SubSyms(m, gmms, data) + rest)
  {
    SubMatches(m, gmms, data);
    MatchesJoin(SubTables(m, gmms, Least(data), Greatest(data)), SubSymbols(data), u, y);
  }

  lemma PictureGmms(gmms: seq<seq<Gmm>>, data: seq<seq<int>>)
    requires PictureOk(gmms, data)
    ensures AllGmmsOk(gmms) && forall k | 0 <= k < |data| :: data[k] != []
  {
  }

  lemma {:induction false} AllMatch(m: Model, gmms: seq<seq<Gmm>>, data: seq<seq<int>>, bounds: seq<Bounds>, i: nat)
    requires ModelOk(m) && PictureOk(gmms, data) && Bounding(bounds, data) && i <= |data|
    ensures AllGmmsOk(gmms) && forall k | 0 <= k < |data| :: data[k] != []
    ensures Sends(Tables(m, gmms, bounds, i), Symbols(data, i), AllSyms(m, gmms, data, i))
    decreases |data| - i
  {
    hide SubTables, SubSymbols, SubSyms, Sends, CdfOk, ExpOk, GmmOk;
    PictureGmms(gmms, data);
    SendsNothing();
    if i < |data| {
      AllMatch(m, gmms, data, bounds, i + 1);
      SubbandJoins(m, gmms[i], data[i], Tables(m, gmms, bounds, i + 1), Symbols(data, i + 1), AllSyms(m, gmms, data, i + 1));
    }
  }

  /** The bytes are the code of the picture: header, arithmetic code, zero padding. */
  ghost predicate IsCodeOf(m: Model, gmms: seq<seq<Gmm>>, data: seq<seq<int>>, bytes: seq<Byte>)
  {
    && ModelOk(m) && PictureOk(gmms, data) && |data| == SUBBANDS
    && |bytes| >= HEADER && HeaderIs(bytes, data, SUBBANDS)
    && AllOk(STATE_BITS, AllSyms(m, gmms, data, 0))
    && Finished(EncodeAll(STATE_BITS, Start(STATE_BITS), AllSyms(m, gmms, data, 0)), BitsOf(bytes[HEADER..]))
  }

  /** Four bytes from 4i on hold two 16-bit numbers in two's complement, low byte first. */
  ghost predicate HoldsBounds(bytes: seq<Byte>, i: nat, lo: int, hi: int)
    requires 4 * i + 4 <= |bytes|
  {
    && bytes[4 * i] == lo % 256 && bytes[4 * i + 1] == lo / 256 % 256
    && bytes[4 * i + 2] == hi % 256 && bytes[4 * i + 3] == hi / 256 % 256
  }

  /** The bytes of a picture: least and greatest value of each of the 39 subbands, from byte 156 on the stream. */
  ghost predicate Layout(bytes: seq<Byte>, data: seq<seq<int>>, run: Enc)
  {
    && |data| == 39 && |bytes| >= 156 && Finished(run, BitsOf(bytes[156..]))
    && forall i | 0 <= i < 39 :: data[i] != [] && HoldsBounds(bytes, i, Least(data[i]), Greatest(data[i]))
  }

  lemma HeaderHolds(bytes: seq<Byte>, i: nat, b: Bounds)
    requires 4 * i + 4 <= |bytes| && bytes[4 * i..4 * i + 4] == HeaderOf(b)
    ensures HoldsBounds(bytes, i, b.lo, b.hi)
  {
    var h := bytes[4 * i..4 * i + 4];
    BytesOf(b.lo % 0x1_0000);
    BytesOf(b.hi % 0x1_0000);
    LowWord(b.lo);
    LowWord(b.hi);
    hide LE;
    assert h[0] == bytes[4 * i] && h[1] == bytes[4 * i + 1] && h[2] == bytes[4 * i + 2] && h[3] == bytes[4 * i + 3];
  }

  lemma LowWord(v: int)
    ensures v % 0x1_0000 % 256 == v % 256 && v % 0x1_0000 / 256 % 256 == v / 256 % 256
  {
    var q, r := v / 0x1_0000, v % 0x1_0000;
    assert v == 256 * (256 * q + r / 256) + r % 256;
    assert v / 256 == 256 * q + r / 256;
  }

  lemma CodeLayout(m: Model, gmms: seq<seq<Gmm>>, data: seq<seq<int>>, bytes: seq<Byte>)
    requires IsCodeOf(m, gmms, data, bytes)
    ensures Layout(bytes, data, EncodeAll(STATE_BITS, Start(STATE_BITS), AllSyms(m, gmms, data, 0)))
  {
    hide AllSyms, EncodeAll, Finished, Least, Greatest, HeaderOf, HoldsBounds, PictureOk, ModelOk;
    forall i | 0 <= i < 39 ensures data[i] != [] && HoldsBounds(bytes, i, Least(data[i]), Greatest(data[i])) {
      HeaderHolds(bytes, i, BoundsOf(data[i]));
    }
  }

  lemma SplitStep(gmms: seq<seq<Gmm>>, bounds: seq<Bounds>, ys: seq<nat>, xs: seq<nat>, i: nat)
    requires |bounds| == |gmms| > i
    requires |ys| == if bounds[i].lo < bounds[i].hi then |gmms[i]| else 0
    ensures Split(gmms, bounds, ys + xs, i)
         == [Rebuild(|gmms[i]|, bounds[i].lo, bounds[i].hi, ys)] + Split(gmms, bounds, xs, i + 1)
  {
    assert (ys + xs)[..|ys|] == ys && (ys + xs)[|ys|..] == xs;
  }

  lemma {:induction false} SplitInverts(gmms: seq<seq<Gmm>>, data: seq<seq<int>>, bounds: seq<Bounds>, i: nat)
    requires PictureOk(gmms, data) && Bounding(bounds, data) && i <= |data|
    ensures Split(gmms, bounds, Symbols(data, i), i) == data[i..]
    decreases |data| - i
  {
    hide SubSymbols, Rebuild, Least, Greatest, GmmOk;
    if i < |data| {
      RebuildInverts(data[i]);
      SplitStep(gmms, bounds, SubSymbols(data[i]), Symbols(data, i + 1), i);
      SplitInverts(gmms, data, bounds, i + 1);
    }
  }

  /** Losslessness of a whole picture, constant subbands included. */
  lemma CodeDeterminesPicture(m: Model, gmms: seq<seq<Gmm>>, data: seq<seq<int>>, bytes: seq<Byte>)
    requires IsCodeOf(m, gmms, data, bytes)
    ensures DecodePicture(m, gmms, bytes) == data
  {
    hide Tables, Symbols, DecodeAll, Split, AllSyms, EncodeAll, Finished, CdfOk, ExpOk, GmmOk;
    var bounds := ReadHeader(bytes, SUBBANDS);
    HeaderReadsBack(bytes, data, SUBBANDS);
    AllTablesOk(m, gmms, bounds, 0);
    AllMatch(m, gmms, data, bounds, 0);
    RoundTrip(STATE_BITS, Tables(m, gmms, bounds, 0), Symbols(data, 0), BitsOf(bytes[HEADER..]));
    SplitInverts(gmms, data, bounds, 0);
  }
}
