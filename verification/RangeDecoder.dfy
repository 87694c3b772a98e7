/**
 A reference decoder. The repository ships only the encoder; this decoder mirrors `update`
 with its own hooks for shift and underflow, and reads zeros past the end of the stream.
 */
module RangeDecoder {
  import opened Arithmetic
  import opened RangeCoder

  datatype Cell = Cell(lo: nat, hi: nat)

  /** The cumulative frequencies of one step: one cell per symbol. */
  datatype Table = Table(total: nat, cells: seq<Cell>)

  ghost predicate TableOk(w: nat, t: Table)
  {
    && w >= 1
    && t.total <= Quarter(w) + 2
    && (forall i | 0 <= i < |t.cells| :: t.cells[i].lo < t.cells[i].hi <= t.total)
    && (forall i, j | 0 <= i < j < |t.cells| :: t.cells[i].hi <= t.cells[j].lo)
  }

  function SymOf(t: Table, x: nat): (s: Sym)
    requires x < |t.cells|
  {
    Sym(t.total, t.cells[x].lo, t.cells[x].hi)
  }

  /** The first cell from k on that holds v; |cells| if none does. */
  function Find(t: Table, v: int, k: nat): (x: nat)
    requires k <= |t.cells|
    ensures k <= x <= |t.cells|
    ensures x < |t.cells| ==> t.cells[x].lo <= v < t.cells[x].hi
    ensures forall i | k <= i < x :: !(t.cells[i].lo <= v < t.cells[i].hi)
    decreases |t.cells| - k
  {
    if k == |t.cells| || t.cells[k].lo <= v < t.cells[k].hi then k else Find(t, v, k + 1)
  }

  datatype Dec = Dec(low: nat, high: nat, code: nat, pos: nat)

  /** Subtraction that stops at zero; it stops only on streams the encoder never writes. */
  function Minus(a: nat, b: nat): (r: nat)
  {
    if b <= a then a - b else 0
  }

  function DecShifts(w: nat, d: Dec, stream: seq<Bit>): (r: Dec)
    requires Registers(w, d.low, d.high)
    ensures Registers(w, r.low, r.high) && !SameTop(w, r.low, r.high)
    decreases Pow2(w) - (d.high - d.low)
  {
    if SameTop(w, d.low, d.high) then DecShifts(w, DecShiftOnce(w, d, stream), stream) else d
  }

  function DecShiftOnce(w: nat, d: Dec, stream: seq<Bit>): (r: Dec)
    requires Registers(w, d.low, d.high) && SameTop(w, d.low, d.high)
    ensures Registers(w, r.low, r.high)
    ensures r.high - r.low + 1 == 2 * (d.high - d.low + 1)
  {
    var drop := if d.low >= Half(w) then Pow2(w) else 0;
    Dec(2 * d.low - drop, 2 * d.high + 1 - drop,
        Minus(2 * d.code, drop) + BitAt(stream, d.pos), d.pos + 1)
  }

  function DecUnderflows(w: nat, d: Dec, stream: seq<Bit>): (r: Dec)
    requires Registers(w, d.low, d.high) && !SameTop(w, d.low, d.high)
    ensures Settled(w, r.low, r.high)
    decreases Pow2(w) - (d.high - d.low)
  {
    if Straddles(w, d.low, d.high) then DecUnderflows(w, DecUnderflowOnce(w, d, stream), stream) else d
  }

  function DecUnderflowOnce(w: nat, d: Dec, stream: seq<Bit>): (r: Dec)
    requires Registers(w, d.low, d.high) && Straddles(w, d.low, d.high)
    ensures Registers(w, r.low, r.high) && !SameTop(w, r.low, r.high)
    ensures r.high - r.low + 1 == 2 * (d.high - d.low + 1)
  {
    Dec(2 * d.low - Half(w), 2 * d.high - Half(w) + 1,
        Minus(2 * d.code, Half(w)) + BitAt(stream, d.pos), d.pos + 1)
  }

  /** The cumulative frequency the code points at. */
  function Target(d: Dec, total: nat): (v: int)
    requires d.low <= d.code <= d.high
  {
    ((d.code - d.low + 1) * total - 1) / (d.high - d.low + 1)
  }

  /** `update` as the decoder runs it. */
  function DecStep(w: nat, d: Dec, s: Sym, stream: seq<Bit>): (r: Dec)
    requires Settled(w, d.low, d.high) && SymOk(w, s)
    ensures Settled(w, r.low, r.high)
  {
    var n := Narrow(w, Enc(d.low, d.high, 0, []), s);
    DecUnderflows(w, DecShifts(w, d.(low := n.low, high := n.high), stream), stream)
  }

  ghost predicate TablesOk(w: nat, tables: seq<Table>)
  {
    forall i | 0 <= i < |tables| :: TableOk(w, tables[i])
  }

  /** The symbols read, one per table; fewer if the stream is not one the encoder wrote. */
  function DecodeAll(w: nat, d: Dec, tables: seq<Table>, stream: seq<Bit>): (xs: seq<nat>)
    requires Settled(w, d.low, d.high) && TablesOk(w, tables)
    decreases |tables|
  {
    if tables == [] || !(d.low <= d.code <= d.high) then []
    else
      var t := tables[0];
      var x := Find(t, Target(d, t.total), 0);
      if x == |t.cells| then []
      else
        var r := DecStep(w, d, SymOf(t, x), stream);
        [x] + DecodeAll(w, r, tables[1..], stream)
  }

  function DecStart(w: nat, stream: seq<Bit>): (d: Dec)
    requires w >= 1
    ensures Settled(w, d.low, d.high)
  {
    Dec(0, Pow2(w) - 1, Value(stream, w), w)
  }

  // ---------------------------------------------------------------- following the encoder

  /** The decoder has the encoder's registers, and its code is the named point seen from them. */
  ghost predicate Follows(w: nat, e: Enc, d: Dec, stream: seq<Bit>)
    requires w >= 1
  {
    && d.low == e.low && d.high == e.high
    && d.pos == Scale(w, e)
    && d.code == Value(stream, d.pos) - Base(w, e)
  }

  lemma FollowsShift(w: nat, e: Enc, d: Dec, stream: seq<Bit>)
    requires Registers(w, e.low, e.high) && SameTop(w, e.low, e.high)
    requires Follows(w, e, d, stream) && Inside(w, e, stream)
    ensures Follows(w, ShiftOnce(w, e), DecShiftOnce(w, d, stream), stream)
    ensures Inside(w, ShiftOnce(w, e), stream)
  {
    ShiftKeepsInterval(w, e);
  }

  lemma FollowsUnderflow(w: nat, e: Enc, d: Dec, stream: seq<Bit>)
    requires Registers(w, e.low, e.high) && Straddles(w, e.low, e.high)
    requires Follows(w, e, d, stream) && Inside(w, e, stream)
    ensures Follows(w, UnderflowOnce(w, e), DecUnderflowOnce(w, d, stream), stream)
    ensures Inside(w, UnderflowOnce(w, e), stream)
  {
    UnderflowKeepsInterval(w, e);
  }

  lemma {:induction false} FollowsShifts(w: nat, e: Enc, d: Dec, stream: seq<Bit>)
    requires Registers(w, e.low, e.high)
    requires Follows(w, e, d, stream) && Inside(w, e, stream)
    ensures Follows(w, Shifts(w, e), DecShifts(w, d, stream), stream)
    ensures Inside(w, Shifts(w, e), stream)
    decreases Pow2(w) - (e.high - e.low)
  {
    if SameTop(w, e.low, e.high) {
      FollowsShift(w, e, d, stream);
      FollowsShifts(w, ShiftOnce(w, e), DecShiftOnce(w, d, stream), stream);
    }
  }

  lemma {:induction false} FollowsUnderflows(w: nat, e: Enc, d: Dec, stream: seq<Bit>)
    requires Registers(w, e.low, e.high) && !SameTop(w, e.low, e.high)
    requires Follows(w, e, d, stream) && Inside(w, e, stream)
    ensures Follows(w, Underflows(w, e), DecUnderflows(w, d, stream), stream)
    ensures Inside(w, Underflows(w, e), stream)
    decreases Pow2(w) - (e.high - e.low)
  {
    if Straddles(w, e.low, e.high) {
      FollowsUnderflow(w, e, d, stream);
      FollowsUnderflows(w, UnderflowOnce(w, e), DecUnderflowOnce(w, d, stream), stream);
    }
  }

  /** A code inside the narrowed registers points into the symbol's own cell. */
  lemma TargetHitsCell(range: nat, t: nat, lo: nat, hi: nat, off: nat)
    requires lo < hi <= t && range > 0
    requires lo * range / t <= off < hi * range / t
    ensures lo <= ((off + 1) * t - 1) / range < hi
  {
    DivBounds(lo * range, t);
    DivBounds(hi * range, t);
    MulOrdered(lo * range / t + 1, off + 1, t);
    MulOrdered(off + 1, hi * range / t, t);
    DivAtLeast((off + 1) * t - 1, range, lo);
    DivBelow((off + 1) * t - 1, range, hi);
  }

  lemma FindsTheCell(w: nat, t: Table, x: nat, v: int)
    requires TableOk(w, t) && x < |t.cells| && t.cells[x].lo <= v < t.cells[x].hi
    ensures Find(t, v, 0) == x
  {
    var y := Find(t, v, 0);
    assert t.cells[y].lo <= v < t.cells[y].hi;
  }

  lemma InsideNarrowed(w: nat, e: Enc, s: Sym, stream: seq<Bit>)
    requires Settled(w, e.low, e.high) && SymOk(w, s) && Inside(w, Encode(w, e, s), stream)
    ensures Inside(w, Narrow(w, e, s), stream)
  {
    var k := RenormalisingKeepsInterval(w, e, s);
    InsideOuter(w, Narrow(w, e, s), Encode(w, e, s), stream);
  }

  lemma SymbolIsFound(w: nat, e: Enc, d: Dec, t: Table, x: nat, stream: seq<Bit>)
    requires Settled(w, e.low, e.high) && TableOk(w, t) && x < |t.cells|
    requires Follows(w, e, d, stream) && Inside(w, Narrow(w, e, SymOf(t, x)), stream)
    ensures d.low <= d.code <= d.high && Find(t, Target(d, t.total), 0) == x
  {
    var s := SymOf(t, x);
    NarrowingFits(w, e.low, e.high, s);
    TargetHitsCell(e.high - e.low + 1, t.total, s.lo, s.hi, d.code - d.low);
    FindsTheCell(w, t, x, Target(d, t.total));
  }

  lemma FollowsStep(w: nat, e: Enc, d: Dec, s: Sym, stream: seq<Bit>)
    requires Settled(w, e.low, e.high) && SymOk(w, s)
    requires Follows(w, e, d, stream) && Inside(w, Narrow(w, e, s), stream)
    ensures Follows(w, Encode(w, e, s), DecStep(w, d, s, stream), stream)
  {
    var n := Narrow(w, e, s);
    var m := d.(low := n.low, high := n.high);
    FollowsShifts(w, n, m, stream);
    FollowsUnderflows(w, Shifts(w, n), DecShifts(w, m, stream), stream);
  }

  /** The encoder's input for symbols xs under the given tables. */
  function SymsOf(tables: seq<Table>, xs: seq<nat>): (syms: seq<Sym>)
    requires |xs| == |tables| && forall i | 0 <= i < |xs| :: xs[i] < |tables[i].cells|
    ensures |syms| == |xs|
  {
    seq(|xs|, i requires 0 <= i < |xs| => SymOf(tables[i], xs[i]))
  }

  lemma SymsAreOk(w: nat, tables: seq<Table>, xs: seq<nat>)
    requires TablesOk(w, tables)
    requires |xs| == |tables| && forall i | 0 <= i < |xs| :: xs[i] < |tables[i].cells|
    ensures AllOk(w, SymsOf(tables, xs))
  {
  }

  /** The whole run of the encoder over symbols xs. */
  function EncodeSymbols(w: nat, tables: seq<Table>, xs: seq<nat>): (e: Enc)
    requires w >= 1 && TablesOk(w, tables)
    requires |xs| == |tables| && forall i | 0 <= i < |xs| :: xs[i] < |tables[i].cells|
    ensures Settled(w, e.low, e.high)
  {
    SymsAreOk(w, tables, xs);
    EncodeAll(w, Start(w), SymsOf(tables, xs))
  }

  lemma {:induction false} DecoderFollows(w: nat, e: Enc, d: Dec, tables: seq<Table>, xs: seq<nat>, stream: seq<Bit>)
    requires Settled(w, e.low, e.high) && TablesOk(w, tables)
    requires |xs| == |tables| && forall i | 0 <= i < |xs| :: xs[i] < |tables[i].cells|
    requires AllOk(w, SymsOf(tables, xs))
    requires Follows(w, e, d, stream) && Inside(w, EncodeAll(w, e, SymsOf(tables, xs)), stream)
    ensures DecodeAll(w, d, tables, stream) == xs
    decreases |xs|
  {
    hide Encode, DecStep, Within, Find, Target, Base, Value;
    if xs == [] {
    } else {
      var s := SymOf(tables[0], xs[0]);
      var m := Encode(w, e, s);
      var rest := SymsOf(tables[1..], xs[1..]);
      assert SymsOf(tables, xs)[1..] == rest;
      RunNests(w, m, rest);
      InsideOuter(w, m, EncodeAll(w, m, rest), stream);
      InsideNarrowed(w, e, s, stream);
      SymbolIsFound(w, e, d, tables[0], xs[0], stream);
      FollowsStep(w, e, d, s, stream);
      DecoderFollows(w, m, DecStep(w, d, s, stream), tables[1..], xs[1..], stream);
    }
  }

  /** Coder round trip: the finished stream gives back every symbol. */
  lemma RoundTrip(w: nat, tables: seq<Table>, xs: seq<nat>, stream: seq<Bit>)
    requires w >= 1 && TablesOk(w, tables)
    requires |xs| == |tables| && forall i | 0 <= i < |xs| :: xs[i] < |tables[i].cells|
    requires Finished(EncodeSymbols(w, tables, xs), stream)
    ensures DecodeAll(w, DecStart(w, stream), tables, stream) == xs
  {
    SymsAreOk(w, tables, xs);
    FinishLandsInside(w, EncodeSymbols(w, tables, xs), stream);
    DecoderFollows(w, Start(w), DecStart(w, stream), tables, xs, stream);
  }

  /** The bits of a run and a final one are enough, whatever was still pending. */
  lemma EveryRunDecodes(w: nat, tables: seq<Table>, xs: seq<nat>)
    requires w >= 1 && TablesOk(w, tables)
    requires |xs| == |tables| && forall i | 0 <= i < |xs| :: xs[i] < |tables[i].cells|
    ensures var stream := EncodeSymbols(w, tables, xs).out + [1]; DecodeAll(w, DecStart(w, stream), tables, stream) == xs
  {
    hide EncodeAll, DecodeAll, SymsOf;
    RoundTrip(w, tables, xs, EncodeSymbols(w, tables, xs).out + [1]);
  }

  // ---------------------------------------------------------------- no code is wasted

  predicate InCell(c: Cell, v: int)
  {
    c.lo <= v < c.hi
  }

  /** Some cell holds the frequency. */
  ghost predicate Covered(t: Table, v: int)
  {
    exists x | 0 <= x < |t.cells| :: InCell(t.cells[x], v)
  }

  /** The cells leave no frequency out. */
  ghost predicate Tiling(t: Table)
  {
    t.total > 0 && forall v | 0 <= v < t.total :: Covered(t, v)
  }

  /** A frequency's cell, cut out of the range, holds the offset that points at the frequency. */
  lemma CellHitsTarget(range: nat, t: nat, lo: nat, hi: nat, off: nat)
    requires t > 0 && range > 0 && lo <= ((off + 1) * t - 1) / range < hi
    ensures lo * range / t <= off < hi * range / t
  {
    var x := (off + 1) * t - 1;
    assert x >= 0 by { MulOrdered(1, off + 1, t); }
    DivBounds(x, range);
    MulOrdered(lo, x / range, range);
    MulOrdered(x / range + 1, hi, range);
    DivBelow(lo * range, t, off + 1);
    DivAtLeast(hi * range, t, off + 1);
  }

  lemma TargetInTable(range: nat, t: nat, off: nat)
    requires t > 0 && off < range
    ensures 0 <= ((off + 1) * t - 1) / range < t
  {
    MulOrdered(off + 1, range, t);
    assert (off + 1) * t >= 1 by { MulOrdered(1, off + 1, t); }
    DivBelow((off + 1) * t - 1, range, t);
    DivAtLeast((off + 1) * t - 1, range, 0);
  }

  /** Code v lies in the registers that cell x narrows to. */
  ghost predicate NarrowsTo(w: nat, e: Enc, t: Table, x: nat, v: nat)
    requires Settled(w, e.low, e.high) && TableOk(w, t) && x < |t.cells|
  {
    var n := Narrow(w, e, SymOf(t, x)); n.low <= v <= n.high
  }

  /** Over a tiling table the narrowed registers of the cells use up the whole range. */
  lemma CellsUseUpRange(w: nat, e: Enc, t: Table, v: nat)
    requires Settled(w, e.low, e.high) && TableOk(w, t) && Tiling(t) && e.low <= v <= e.high
    ensures exists x | 0 <= x < |t.cells| :: NarrowsTo(w, e, t, x, v)
  {
    var range, off := e.high - e.low + 1, v - e.low;
    TargetInTable(range, t.total, off);
    var f := ((off + 1) * t.total - 1) / range;
    assert Covered(t, f);
    var x :| 0 <= x < |t.cells| && InCell(t.cells[x], f);
    CellHitsTarget(range, t.total, t.cells[x].lo, t.cells[x].hi, off);
    NarrowingFits(w, e.low, e.high, SymOf(t, x));
    assert NarrowsTo(w, e, t, x, v);
  }
}
