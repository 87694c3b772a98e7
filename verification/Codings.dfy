/** The coding loop over all subbands, on the output buffer and the mutable coder objects. */
module Codings {
  import opened Arithmetic
  import opened Words
  import opened RangeCoder
  import opened RangeDecoder
  import opened BitStream
  import opened ArithmeticEncoder
  import opened FrequencyTable
  import opened EncodingTable
  import opened Coding

  // ---------------------------------------------------------------- sizes

  /** The number of coefficients of the subbands from number i on. */
  function TotalLength(data: seq<seq<int>>, i: nat): (n: nat)
    requires i <= |data|
    decreases |data| - i
  {
    if i == |data| then 0 else |data[i]| + TotalLength(data, i + 1)
  }

  /** All coefficients in a row. */
  function Joined(data: seq<seq<int>>, i: nat): (r: seq<int>)
    requires i <= |data|
    decreases |data| - i
  {
    if i == |data| then [] else data[i] + Joined(data, i + 1)
  }

  lemma {:induction false} TotalLengthIs(data: seq<seq<int>>, i: nat)
    requires i <= |data|
    ensures TotalLength(data, i) == |Joined(data, i)|
    decreases |data| - i
  {
    if i < |data| {
      TotalLengthIs(data, i + 1);
    }
  }

  /** Constant subbands cost nothing; any other has at least two coefficients. */
  lemma {:induction false} SymbolCount(m: Model, gmms: seq<seq<Gmm>>, data: seq<seq<int>>, i: nat)
    requires ModelOk(m) && PictureOk(gmms, data) && i <= |data|
    ensures |AllSyms(m, gmms, data, i)| <= TotalLength(data, i)
    ensures |data| - i <= TotalLength(data, i)
    ensures |AllSyms(m, gmms, data, i)| > 0 ==> |data| - i < TotalLength(data, i)
    decreases |data| - i
  {
    hide SubTables, SubSymbols, SubSyms, Least, Greatest, CdfOk, ExpOk, GmmOk;
    if i < |data| {
      SymbolCount(m, gmms, data, i + 1);
    }
  }

  /** 39 non-empty subbands: eight bytes per coefficient hold the header and the whole code. */
  lemma BufferSuffices(m: Model, gmms: seq<seq<Gmm>>, data: seq<seq<int>>)
    requires ModelOk(m) && PictureOk(gmms, data) && |data| == SUBBANDS
    ensures 8 * HEADER + 32 * |AllSyms(m, gmms, data, 0)| + 8 <= 64 * TotalLength(data, 0)
  {
    SymbolCount(m, gmms, data, 0);
  }

  // ---------------------------------------------------------------- appending to a run

  lemma {:induction false} EncodeOneMore(w: nat, e: Enc, syms: seq<Sym>, s: Sym)
    requires Settled(w, e.low, e.high) && AllOk(w, syms) && SymOk(w, s)
    ensures AllOk(w, syms + [s])
    ensures EncodeAll(w, e, syms + [s]) == Encode(w, EncodeAll(w, e, syms), s)
    decreases |syms|
  {
    if syms == [] {
      assert syms + [s] == [s] && [s][1..] == [];
    } else {
      EncodeOneMore(w, Encode(w, e, syms[0]), syms[1..], s);
      assert (syms + [s])[1..] == syms[1..] + [s];
    }
  }

  /** The encoder has coded exactly syms. */
  ghost predicate Running(enc: Encoder, syms: seq<Sym>)
    reads enc, enc.output, enc.output.buffer
  {
    && enc.Valid() && enc.numStateBits == STATE_BITS && AllOk(STATE_BITS, syms)
    && enc.State() == EncodeAll(STATE_BITS, Start(STATE_BITS), syms)
  }

  /** The buffer can hold the code of n symbols. */
  ghost predicate Capacity(enc: Encoder, n: nat)
  {
    8 * enc.output.start + 32 * n <= 8 * enc.output.buffer.Length
  }

  lemma RunHasRoom(enc: Encoder, syms: seq<Sym>)
    requires Running(enc, syms) && Capacity(enc, |syms| + 1)
    ensures enc.Room(STATE_BITS)
  {
    RunNests(STATE_BITS, Start(STATE_BITS), syms);
  }

  lemma MaximumTotalOfState()
    ensures MaximumTotal(STATE_BITS) == 0x4000_0002
  {
    QuarterOfState();
    assert Pow2(32) == 0x1_0000_0000 by { assert Half(32) == 2 * Quarter(32); }
  }

  // ---------------------------------------------------------------- the loops

  /** Only a scale of 65535 can make the subband overflow: with the lowest symbol and a mean above one. */
  ghost predicate SubbandFits(scale: int, gmms: seq<Gmm>, data: seq<int>)
    requires SubbandOk(gmms, data)
  {
    || scale <= 65534 || Least(data) > -0x8000 || Least(data) == Greatest(data)
    || forall p, i | 0 <= p < |gmms| && 0 <= i < 3 :: gmms[p].means[i] <= 1
  }

  ghost predicate PictureFits(scale: int, gmms: seq<seq<Gmm>>, data: seq<seq<int>>)
    requires PictureOk(gmms, data)
  {
    scale < 0x1_0000 && forall k | 0 <= k < |data| :: SubbandFits(scale, gmms[k], data[k])
  }

  /** That is exactly when every edge the table computes for a coded subband fits an `int`. */
  lemma SubbandFitsExactly(scale: int, gmms: seq<Gmm>, data: seq<int>)
    requires 0 < scale < 0x1_0000 && SubbandOk(gmms, data) && Least(data) < Greatest(data)
    ensures SubbandFits(scale, gmms, data) <==>
            forall p, i | 0 <= p < |gmms| && 0 <= i < 3 ::
              EdgeFits(scale, Least(data), gmms[p].means[i]) && EdgeFits(scale, Greatest(data), gmms[p].means[i])
  {
    assert IsInt16(Least(data)) && IsInt16(Greatest(data));
    hide EdgeFits, Least, Greatest;
    forall p, i | 0 <= p < |gmms| && 0 <= i < 3
      ensures EdgeFits(scale, Least(data), gmms[p].means[i]) <==> scale <= 65534 || Least(data) > -0x8000 || gmms[p].means[i] <= 1
      ensures EdgeFits(scale, Greatest(data), gmms[p].means[i])
    {
      assert GmmOk(gmms[p]);
      EdgeFitsExactly(scale, Least(data), gmms[p].means[i]);
      EdgeFitsExactly(scale, Greatest(data), gmms[p].means[i]);
    }
  }

  /** The table's edges fit with the means of this coefficient. */
  ghost predicate TableFits(t: EncTable, g: Gmm)
    requires GmmOk(g)
  {
    forall i | 0 <= i < 3 :: t.MeanFits(g.means[i])
  }

  ghost predicate TableFor(t: EncTable, m: Model, lo: int, hi: int)
  {
    && t.Constants() && t.expTable == m.exp && t.cdfTable == m.cdf && t.freqsResolution == RESOLUTION
    && t.scalePred == m.scale && t.lowBound == lo && t.highBound == hi && IsInt16(lo) && IsInt16(hi)
  }

  lemma SubbandTableFits(t: EncTable, m: Model, gmms: seq<Gmm>, data: seq<int>, p: nat)
    requires SubbandOk(gmms, data) && SubbandFits(m.scale, gmms, data) && Least(data) < Greatest(data) && p < |gmms|
    requires TableFor(t, m, Least(data), Greatest(data))
    ensures TableFits(t, gmms[p])
  {
    hide EdgeFits, Least, Greatest, CdfOk, ExpOk, SubbandFits;
    SubbandFitsExactly(m.scale, gmms, data);
  }

  /** What one coefficient sends to the coder. */
  function SymFor(m: Model, g: Gmm, lo: int, hi: int, x: int): (s: Sym)
    requires ModelOk(m) && GmmOk(g) && lo <= x <= hi
  {
    SymOf(TableOf(SetupOf(m, g, lo, hi)), x - lo)
  }

  /** The totals the table can produce are within what the 32-bit coder allows. */
  lemma SymForOk(m: Model, g: Gmm, lo: int, hi: int, x: int)
    requires ModelOk(m) && GmmOk(g) && IsInt16(lo) && IsInt16(hi) && lo <= x <= hi
    ensures var s := SymFor(m, g, lo, hi, x);
            SymOk(STATE_BITS, s) && s.total <= MaximumTotal(STATE_BITS)
  {
    CoefficientTableOk(m, g, lo, hi);
    TotalBounded(SetupOf(m, g, lo, hi));
    MaximumTotalOfState();
  }

  lemma SymForIs(m: Model, g: Gmm, lo: int, hi: int, x: int)
    requires ModelOk(m) && GmmOk(g) && lo <= x <= hi
    ensures var t := SetupOf(m, g, lo, hi); SymFor(m, g, lo, hi, x) == Sym(Total(t), SymLow(t, x), SymHigh(t, x))
  {
    hide SymLow, SymHigh, Total;
    var t := SetupOf(m, g, lo, hi);
    assert TableOf(t).cells[x - lo] == CellOf(t, x - lo);
  }

  /** A coefficient is sent as the numbers of its table, at a resolution of one million. */
  lemma CoefficientNumbers(m: Model, g: Gmm, lo: int, hi: int, x: int)
    requires ModelOk(m) && GmmOk(g) && lo <= x <= hi
    ensures var s, t := SymFor(m, g, lo, hi, x), Setup(m.cdf, 1000000, MixtureOf(g, m.scale, m.exp), m.scale, lo, hi);
            SetupOk(t) && IsNumbers(t, x, s.lo, s.hi, s.total)
  {
    SymForIs(m, g, lo, hi, x);
    var t := SetupOf(m, g, lo, hi);
    hide SymFor, SymLow, SymHigh, Total, IsNumbers;
    NumbersOfTable(t, x, SymLow(t, x), SymHigh(t, x), Total(t));
  }

  method FrequenciesOf(table: EncTable, ghost m: Model, g: Gmm, x: int) returns (total: nat, symLow: nat, symHigh: nat)
    requires TableFor(table, m, table.lowBound, table.highBound) && ModelOk(m) && GmmOk(g) && TableFits(table, g)
    requires table.lowBound <= x <= table.highBound
    modifies table
    ensures Sym(total, symLow, symHigh) == SymFor(m, g, table.lowBound, table.highBound, x)
  {
    hide Softmax, Max3, CdfOk;
    var probs := new int[3] [g.probs[0], g.probs[1], g.probs[2]];
    assert probs[..] == g.probs;
    table.Update(probs, g.means, g.stds);
    table.GetBound(x);
    assert table.Config() == SetupOf(m, g, table.lowBound, table.highBound);
    SymForIs(m, g, table.lowBound, table.highBound, x);
    hide SymFor, SymLow, SymHigh, Total;
    total, symLow, symHigh := table.totalFreqs, table.symLow, table.symHigh;
  }

  method EncodeCoefficient(enc: Encoder, table: EncTable, ghost m: Model, g: Gmm, x: int, ghost syms: seq<Sym>)
    requires TableFor(table, m, table.lowBound, table.highBound) && ModelOk(m) && GmmOk(g) && TableFits(table, g)
    requires table.lowBound <= x <= table.highBound
    requires Running(enc, syms) && Capacity(enc, |syms| + 1)
    modifies enc, enc.output, enc.output.buffer, table
    ensures Running(enc, syms + [SymFor(m, g, table.lowBound, table.highBound, x)])
    ensures enc.output.Header() == old(enc.output.Header())
  {
    hide SymFor, BitsOf, LowBits, EncodeAll, CdfOk, ExpOk, GmmOk;
    ghost var s := SymFor(m, g, table.lowBound, table.highBound, x);
    SymForOk(m, g, table.lowBound, table.highBound, x);
    RunHasRoom(enc, syms);
    EncodeOneMore(STATE_BITS, Start(STATE_BITS), syms, s);
    var total, symLow, symHigh := FrequenciesOf(table, m, g, x);
    enc.Update(total, symLow, symHigh);
  }

  lemma SubTableAt(m: Model, gmms: seq<Gmm>, lo: int, hi: int, p: nat)
    requires ModelOk(m) && GmmsOk(gmms) && lo < hi && p < |gmms|
    ensures SubTables(m, gmms, lo, hi)[p] == TableOf(SetupOf(m, gmms[p], lo, hi))
  {
    hide TableOf, SetupOf, ModelOk;
  }

  lemma SubSymbolAt(data: seq<int>, p: nat)
    requires data != [] && Least(data) < Greatest(data) && p < |data|
    ensures |SubSymbols(data)| == |data| && SubSymbols(data)[p] == data[p] - Least(data)
  {
    hide Least, Greatest;
  }

  lemma {:induction false} SubSymAt(m: Model, gmms: seq<Gmm>, data: seq<int>, p: nat)
    requires ModelOk(m) && SubbandOk(gmms, data) && Least(data) < Greatest(data) && p < |data|
    ensures SubSyms(m, gmms, data)[p] == SymFor(m, gmms[p], Least(data), Greatest(data), data[p])
  {
    hide SubTables, SubSymbols, TableOf, SetupOf, Least, Greatest, SymOf, ModelOk, Matches, SymsOf;
    SubTableAt(m, gmms, Least(data), Greatest(data), p);
    SubSymbolAt(data, p);
    SubMatches(m, gmms, data);
    SymsOfAt(SubTables(m, gmms, Least(data), Greatest(data)), SubSymbols(data), p);
  }

  lemma SymsOfAt(tables: seq<Table>, xs: seq<nat>, p: nat)
    requires Matches(tables, xs) && p < |xs|
    ensures SymsOf(tables, xs)[p] == SymOf(tables[p], xs[p])
  {
  }

  lemma TakeAll(syms: seq<Sym>, sub: seq<Sym>)
    ensures syms + sub[..0] == syms && syms + sub[..|sub|] == syms + sub
  {
    assert sub[..|sub|] == sub;
  }

  lemma TakeOneMore(syms: seq<Sym>, sub: seq<Sym>, p: nat)
    requires p < |sub|
    ensures syms + sub[..p + 1] == (syms + sub[..p]) + [sub[p]]
  {
  }

  method EncodeSubband(enc: Encoder, exp: seq<nat>, cdf: seq<nat>, scale: nat, gmms: seq<Gmm>, data: seq<int>, ghost syms: seq<Sym>)
    requires ModelOk(Model(exp, cdf, scale)) && scale < 0x1_0000 && SubbandOk(gmms, data) && SubbandFits(scale, gmms, data)
    requires Least(data) < Greatest(data)
    requires Running(enc, syms) && Capacity(enc, |syms| + |data|)
    modifies enc, enc.output, enc.output.buffer
    ensures Running(enc, syms + SubSyms(Model(exp, cdf, scale), gmms, data))
    ensures enc.output.Header() == old(enc.output.Header())
  {
    hide SubTables, SubSymbols, SubSyms, SymFor, Running, CdfOk, ExpOk, GmmOk, Least, Greatest;
    ghost var m := Model(exp, cdf, scale);
    var xmin, xmax := Least(data), Greatest(data);
    var table := new EncTable(exp, cdf, RESOLUTION, xmin, xmax, scale);
    ghost var sub := SubSyms(m, gmms, data);
    TakeAll(syms, sub);
    for p := 0 to |data|
      invariant TableFor(table, m, xmin, xmax) && fresh(table)
      invariant Running(enc, syms + sub[..p])
      invariant enc.output.Header() == old(enc.output.Header())
    {
      SubSymAt(m, gmms, data, p);
      SubbandTableFits(table, m, gmms, data, p);
      TakeOneMore(syms, sub, p);
      EncodeCoefficient(enc, table, m, gmms[p], data[p], syms + sub[..p]);
    }
    TakeAll(syms, sub);
  }

  /** Stores the bounds of subband i; the stream behind the header is not touched. */
  method WriteHeader(enc: Encoder, i: nat, b: Bounds, ghost data: seq<seq<int>>, ghost syms: seq<Sym>)
    requires Running(enc, syms) && enc.output.start == HEADER && i < SUBBANDS
    requires HeaderIs(enc.output.Header(), data, i) && i < |data| && data[i] != [] && b == BoundsOf(data[i])
    modifies enc.output.buffer
    ensures Running(enc, syms) && HeaderIs(enc.output.Header(), data, i + 1)
  {
    hide HeaderIs, HeaderOf, BitsOf, LowBits, Settled, EncodeAll;
    var bins := enc.output.buffer;
    var bytes := HeaderOf(b);
    ghost var was, stream := enc.output.Header(), enc.output.Bytes();
    bins[4 * i], bins[4 * i + 1], bins[4 * i + 2], bins[4 * i + 3] := bytes[0], bytes[1], bytes[2], bytes[3];
    assert enc.output.Bytes() == stream;
    HeaderGrows(was, enc.output.Header(), data, i);
  }

  lemma HeaderGrows(was: seq<Byte>, now: seq<Byte>, data: seq<seq<int>>, i: nat)
    requires HeaderIs(was, data, i) && i < |data| && data[i] != [] && 4 * i + 4 <= |was| == |now|
    requires now[..4 * i] == was[..4 * i] && now[4 * i..4 * i + 4] == HeaderOf(BoundsOf(data[i]))
    ensures HeaderIs(now, data, i + 1)
  {
    forall k | 0 <= k < i + 1
      ensures data[k] != [] && now[4 * k..4 * k + 4] == HeaderOf(BoundsOf(data[k]))
    {
      if k < i {
        assert now[4 * k..4 * k + 4] == now[..4 * i][4 * k..4 * k + 4];
        assert was[4 * k..4 * k + 4] == was[..4 * i][4 * k..4 * k + 4];
      }
    }
  }

  /** The pad after the final one is all that separates the bits of the run from whole bytes. */
  lemma PaddedIsFinished(e: Enc, bits: seq<Bit>)
    requires Padded(e.out + [1], bits)
    ensures Finished(e, bits)
  {
    var n := |e.out|;
    assert bits[..n + 1] == e.out + [1];
    assert bits[..n] == bits[..n + 1][..n];
    assert bits[n] == bits[..n + 1][n];
  }

  /** Writes the final bit and pads the last byte. */
  method FinishStream(enc: Encoder, ghost syms: seq<Sym>)
    requires Running(enc, syms) && 8 * enc.output.start + 32 * |syms| + 8 <= 8 * enc.output.buffer.Length
    modifies enc.output, enc.output.buffer
    ensures enc.output.Valid() && enc.output.Header() == old(enc.output.Header())
    ensures Finished(EncodeAll(STATE_BITS, Start(STATE_BITS), syms), BitsOf(enc.output.Bytes()))
    ensures enc.output.size <= 4 * |syms| + 1
    ensures 8 * (enc.output.size - 1) <= |EncodeAll(STATE_BITS, Start(STATE_BITS), syms).out| < 8 * enc.output.size
  {
    RunNests(STATE_BITS, Start(STATE_BITS), syms);
    ghost var e := enc.State();
    enc.Finish();
    enc.output.Finish();
    PaddedIsFinished(e, BitsOf(enc.output.Bytes()));
  }

  lemma HeaderExtends(header: seq<Byte>, body: seq<Byte>, data: seq<seq<int>>, n: nat)
    requires HeaderIs(header, data, n)
    ensures HeaderIs(header + body, data, n)
  {
    var bytes := header + body;
    forall i | 0 <= i < n ensures data[i] != [] && bytes[4 * i..4 * i + 4] == HeaderOf(BoundsOf(data[i])) {
      assert bytes[4 * i..4 * i + 4] == header[4 * i..4 * i + 4];
    }
  }

  /** What subband i adds, and that it is part of the whole. */
  lemma NextSubband(m: Model, gmms: seq<seq<Gmm>>, data: seq<seq<int>>, i: nat, syms: seq<Sym>)
    requires ModelOk(m) && PictureOk(gmms, data) && i < |data|
    requires syms + AllSyms(m, gmms, data, i) == AllSyms(m, gmms, data, 0)
    ensures var sub := SubSyms(m, gmms[i], data[i]);
            && (syms + sub) + AllSyms(m, gmms, data, i + 1) == AllSyms(m, gmms, data, 0)
            && |syms| + |sub| <= |AllSyms(m, gmms, data, 0)|
  {
    Associate(syms, SubSyms(m, gmms[i], data[i]), AllSyms(m, gmms, data, i + 1));
  }

  lemma Associate(a: seq<Sym>, b: seq<Sym>, c: seq<Sym>)
    ensures (a + b) + c == a + (b + c)
  {
  }

  /** One turn of the loop over the subbands. */
  method EncodeOne(enc: Encoder, exp: seq<nat>, cdf: seq<nat>, scale: nat, gmms: seq<seq<Gmm>>, data: seq<seq<int>>, i: nat, ghost syms: seq<Sym>)
    requires ModelOk(Model(exp, cdf, scale)) && PictureOk(gmms, data) && PictureFits(scale, gmms, data) && i < |data| == SUBBANDS
    requires Running(enc, syms) && enc.output.start == HEADER && HeaderIs(enc.output.Header(), data, i)
    requires Capacity(enc, |syms| + |SubSyms(Model(exp, cdf, scale), gmms[i], data[i])|)
    modifies enc, enc.output, enc.output.buffer
    ensures Running(enc, syms + SubSyms(Model(exp, cdf, scale), gmms[i], data[i]))
    ensures HeaderIs(enc.output.Header(), data, i + 1)
  {
    var xmax := Greatest(data[i]);
    var xmin := Least(data[i]);
    WriteHeader(enc, i, Bounds(xmin, xmax), data, syms);
    if xmin >= xmax {
      assert syms + SubSyms(Model(exp, cdf, scale), gmms[i], data[i]) == syms;
      return;
    }
    EncodeSubband(enc, exp, cdf, scale, gmms[i], data[i], syms);
  }

  /** The loop over the subbands. */
  method EncodeSubbands(enc: Encoder, exp: seq<nat>, cdf: seq<nat>, scale: nat, gmms: seq<seq<Gmm>>, data: seq<seq<int>>)
    requires ModelOk(Model(exp, cdf, scale)) && PictureOk(gmms, data) && PictureFits(scale, gmms, data) && |data| == SUBBANDS
    requires Running(enc, []) && enc.output.start == HEADER
    requires Capacity(enc, |AllSyms(Model(exp, cdf, scale), gmms, data, 0)|)
    modifies enc, enc.output, enc.output.buffer
    ensures Running(enc, AllSyms(Model(exp, cdf, scale), gmms, data, 0))
    ensures HeaderIs(enc.output.Header(), data, SUBBANDS)
  {
    hide SubTables, SubSymbols, SubSyms, Running;
    ghost var m := Model(exp, cdf, scale);
    ghost var syms := [];
    assert syms + AllSyms(m, gmms, data, 0) == AllSyms(m, gmms, data, 0);
    for i := 0 to SUBBANDS
      invariant Running(enc, syms) && HeaderIs(enc.output.Header(), data, i)
      invariant syms + AllSyms(m, gmms, data, i) == AllSyms(m, gmms, data, 0)
    {
      NextSubband(m, gmms, data, i, syms);
      EncodeOne(enc, exp, cdf, scale, gmms, data, i, syms);
      syms := syms + SubSyms(m, gmms[i], data[i]);
    }
    assert syms == AllSyms(m, gmms, data, 0);
  }

  lemma AssembleCode(m: Model, gmms: seq<seq<Gmm>>, data: seq<seq<int>>, header: seq<Byte>, body: seq<Byte>)
    requires ModelOk(m) && PictureOk(gmms, data) && |data| == SUBBANDS
    requires |header| == HEADER && HeaderIs(header, data, SUBBANDS) && AllOk(STATE_BITS, AllSyms(m, gmms, data, 0))
    requires Finished(EncodeAll(STATE_BITS, Start(STATE_BITS), AllSyms(m, gmms, data, 0)), BitsOf(body))
    ensures IsCodeOf(m, gmms, data, header + body)
  {
    HeaderExtends(header, body, data, SUBBANDS);
    assert (header + body)[HEADER..] == body;
  }

  lemma PrefixJoins(a: array<Byte>, k: nat, n: nat)
    requires k + n <= a.Length
    ensures a[..k + n] == a[..k] + a[k..k + n]
  {
  }

  /** Codes a picture into a fresh buffer of eight bytes per coefficient. */
  method CodePicture(exp: seq<nat>, cdf: seq<nat>, gmms: seq<seq<Gmm>>, data: seq<seq<int>>, scale: nat, charIsSigned: bool)
    returns (bins: array<Byte>, length: nat)
    requires ModelOk(Model(exp, cdf, scale))
    requires PictureOk(gmms, data) && PictureFits(scale, gmms, data) && |data| == SUBBANDS && TotalLength(data, 0) < 0x8000_0000
    ensures length <= bins.Length == 8 * TotalLength(data, 0)
    ensures length <= HEADER + 4 * |AllSyms(Model(exp, cdf, scale), gmms, data, 0)| + 1
    ensures IsCodeOf(Model(exp, cdf, scale), gmms, data, bins[..length])
    ensures Layout(bins[..length], data, EncodeAll(32, Start(32), AllSyms(Model(exp, cdf, scale), gmms, data, 0)))
    ensures AllGmmsOk(gmms) && DecodePicture(Model(exp, cdf, scale), gmms, bins[..length]) == data
    ensures var e := EncodeAll(STATE_BITS, Start(STATE_BITS), AllSyms(Model(exp, cdf, scale), gmms, data, 0));
            8 * (length - HEADER - 1) <= |e.out| < 8 * (length - HEADER)
  {
    hide SubTables, SubSymbols, SubSyms, CdfOk, ExpOk, GmmOk;
    BufferSuffices(Model(exp, cdf, scale), gmms, data);
    var sumLen := TotalLength(data, 0);
    bins := new Byte[sumLen * 8];
    var bout := new BitOutputStream(bins, HEADER, charIsSigned);
    var enc := new Encoder(STATE_BITS, bout);
    EncodeSubbands(enc, exp, cdf, scale, gmms, data);
    FinishStream(enc, AllSyms(Model(exp, cdf, scale), gmms, data, 0));
    length := bout.size + HEADER;
    PrefixJoins(bins, HEADER, bout.size);
    AssembleCode(Model(exp, cdf, scale), gmms, data, bout.Header(), bout.Bytes());
    PictureGmms(gmms, data);
    CodeLayout(Model(exp, cdf, scale), gmms, data, bins[..length]);
    CodeDeterminesPicture(Model(exp, cdf, scale), gmms, data, bins[..length]);
  }
}
