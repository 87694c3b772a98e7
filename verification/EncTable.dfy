/** The frequency table object: machine arithmetic over the two lookup tables. */
module EncodingTable {
  import opened Arithmetic
  import opened Words
  import opened FrequencyTable

  /** The `int` computation of both edges of symbol x stays in range. */
  predicate EdgeFits(scale: int, x: int, mean: int)
  {
    && IsInt32(x * scale) && IsInt32(x * scale - mean)
    && IsInt32(x * scale - mean - scale / 2) && IsInt32(x * scale - mean + scale / 2)
  }

  /**
   With a 16-bit scale the edges of all 16-bit symbols and means fit exactly when the scale
   is below 65535: at 65535 the lowest symbol with the largest mean overflows.
   */
  lemma ScalesWithoutOverflow(scale: int)
    requires 0 < scale < 0x1_0000
    ensures (forall x, mean | IsInt16(x) && IsInt16(mean) :: EdgeFits(scale, x, mean)) <==> scale <= 65534
  {
    if scale <= 65534 {
      forall x, mean | IsInt16(x) && IsInt16(mean) ensures EdgeFits(scale, x, mean) {
        EdgesFit(scale, x, mean);
      }
    } else {
      WidestEdges(-0x8000, 0x7FFF);
    }
  }

  /** For 16-bit numbers the edges fit unless the scale is 65535, the symbol the lowest and the mean above one. */
  lemma EdgeFitsExactly(scale: int, x: int, mean: int)
    requires 0 < scale < 0x1_0000 && IsInt16(x) && IsInt16(mean)
    ensures EdgeFits(scale, x, mean) <==> scale <= 65534 || x > -0x8000 || mean <= 1
  {
    if scale <= 65534 {
      EdgesFit(scale, x, mean);
    } else {
      WidestEdges(x, mean);
    }
  }

  lemma WidestEdges(x: int, mean: int)
    requires IsInt16(x) && IsInt16(mean)
    ensures EdgeFits(65535, x, mean) <==> x > -0x8000 || mean <= 1
  {
  }

  /** If the edges of two symbols fit, so do those of all between. */
  lemma EdgesBetween(scale: int, lo: int, hi: int, x: int, mean: int)
    requires scale > 0 && lo <= x <= hi && EdgeFits(scale, lo, mean) && EdgeFits(scale, hi, mean)
    ensures EdgeFits(scale, x, mean)
  {
    MulOrdered(lo, x, scale);
    MulOrdered(x, hi, scale);
  }

  /** The table index of the lower edge of x, as the source computes it. */
  function LowerIndex(x: int, scale: int, mean: int, std: int): (i: nat)
    requires EdgeFits(scale, x, mean) && std > 0
    ensures i == CdfIndex(x * scale - scale / 2 - mean, std)
  {
    var v := I64(I32(I32(I32(x * scale) - mean) - scale / 2) * CDF_SCALE);
    Clamp(TruncDiv(v, std), -CDF_BASE, CDF_BASE) + CDF_BASE
  }

  function UpperIndex(x: int, scale: int, mean: int, std: int): (i: nat)
    requires EdgeFits(scale, x, mean) && std > 0
    ensures i == CdfIndex(x * scale + scale / 2 - mean, std)
  {
    var v := I64(I32(I32(I32(x * scale) - mean) + scale / 2) * CDF_SCALE);
    Clamp(TruncDiv(v, std), -CDF_BASE, CDF_BASE) + CDF_BASE
  }

  /** One addend of the accumulation, in 64-bit arithmetic. */
  function Addend(res: nat, c: nat, sum: nat, weight: nat): (r: nat)
    requires sum > 0
  {
    U64(U64(res * c) / sum * weight)
  }

  lemma AddendIsShare(cdf: seq<nat>, res: nat, m: Mixture, i: nat, y: int)
    requires CdfOk(cdf) && MixtureOk(m) && i < 3 && res < 0x1_0000_0000
    ensures Addend(res, cdf[CdfIndex(y - m.means[i], m.stds[i])], m.sum, m.weights[i]) == Share(cdf, res, m, i, y)
    ensures Share(cdf, res, m, i, y) <= Shares(cdf, res, m, y, i + 1) <= res * Y_BOUND
  {
    SharesBounded(cdf, res, m, y, i + 1);
    ShareBounded(cdf, res, m, i, y);
    AddendExact(res, cdf[CdfIndex(y - m.means[i], m.stds[i])], m.sum, m.weights[i]);
  }

  lemma AddendExact(res: nat, c: nat, sum: nat, weight: nat)
    requires sum > 0 && res * c < WORD && 0 <= res * c / sum * weight < WORD
    ensures Addend(res, c, sum, weight) == res * c / sum * weight
  {
  }

  /** For every 32-bit resolution each turn of the accumulation is exact. */
  lemma AccumulationDoesNotWrap(cdf: seq<nat>, res: nat, m: Mixture, i: nat, y: int)
    requires CdfOk(cdf) && MixtureOk(m) && i < 3 && res < 0x1_0000_0000
    ensures U64(Shares(cdf, res, m, y, i)
                + Addend(res, cdf[CdfIndex(y - m.means[i], m.stds[i])], m.sum, m.weights[i]))
         == Shares(cdf, res, m, y, i + 1)
  {
    AddendIsShare(cdf, res, m, i, y);
  }

  lemma EdgesFit(scale: int, x: int, mean: int)
    requires 0 < scale <= 65534 && IsInt16(x) && IsInt16(mean)
    ensures EdgeFits(scale, x, mean)
  {
    MulOrdered(-0x8000, x, scale);
    MulOrdered(x, 0x7FFF, scale);
  }

  /** The coder's three numbers fit 32 bits, and no difference goes below zero. */
  lemma BoundsDoNotWrap(t: Setup, x: int)
    requires SetupOk(t) && t.lo <= x <= t.hi && t.res + (t.hi - t.lo + 1) < 0x1_0000_0000
    ensures U32(U64(SymLow(t, x))) == SymLow(t, x)
    ensures U32(U64(SymHigh(t, x))) == SymHigh(t, x)
    ensures U32(U64(Total(t))) == Total(t)
  {
    CellsOrdered(t, x);
    TotalBounded(t);
  }

  class EncTable {
    const expTable: seq<nat>
    const cdfTable: seq<nat>
    const lowBound: int
    const highBound: int
    const freqsResolution: nat
    const scalePred: int
    var probs: array<int>
    var means: seq<int>
    var stds: seq<int>
    var probSum: nat
    var lBound: nat
    var rBound: nat
    var symLow: nat
    var symHigh: nat
    var totalFreqs: nat

    /** The tables are as assumed, the scale has 16 bits, and the greatest total fits 32 bits. */
    ghost predicate Constants()
    {
      && ExpOk(expTable) && CdfOk(cdfTable)
      && lowBound <= highBound && 0 < scalePred < 0x1_0000
      && freqsResolution + (highBound - lowBound + 1) < 0x1_0000_0000
    }

    /** No edge of the subband's symbols overflows with this mean. */
    ghost predicate MeanFits(mean: int)
    {
      EdgeFits(scalePred, lowBound, mean) && EdgeFits(scalePred, highBound, mean)
    }

    /** A mixture is loaded. */
    ghost predicate Loaded()
      reads `probs, `means, `stds, `probSum, probs
    {
      && Constants()
      && probs.Length == |means| == |stds| == 3
      && (forall i | 0 <= i < 3 :: probs[i] >= 0 && MeanFits(means[i]) && stds[i] > 0)
      && 0 < probSum == probs[0] + probs[1] + probs[2]
    }

    ghost function Mix(): (m: Mixture)
      requires Loaded()
      reads `probs, `means, `stds, `probSum, probs
      ensures MixtureOk(m)
    {
      Mixture([probs[0], probs[1], probs[2]], probSum, means, stds)
    }

    ghost function Config(): (t: Setup)
      requires Loaded()
      reads `probs, `means, `stds, `probSum, probs
      ensures SetupOk(t)
    {
      Setup(cdfTable, freqsResolution, Mix(), scalePred, lowBound, highBound)
    }

    constructor (expTable: seq<nat>, cdfTable: seq<nat>, freqsResolution: nat, lowBound: int, highBound: int, scalePred: int)
      ensures this.expTable == expTable && this.cdfTable == cdfTable && this.freqsResolution == freqsResolution
      ensures this.lowBound == lowBound && this.highBound == highBound && this.scalePred == scalePred
    {
      this.expTable, this.cdfTable, this.freqsResolution := expTable, cdfTable, freqsResolution;
      this.lowBound, this.highBound, this.scalePred := lowBound, highBound, scalePred;
      probs, means, stds, probSum := new int[0], [], [], 0;
      lBound, rBound, symLow, symHigh, totalFreqs := 0, 0, 0, 0, 0;
    }

    /** Loads a mixture; the logits in `mProbs` become weights. */
    method Update(mProbs: array<int>, mMeans: seq<int>, mStds: seq<int>)
      requires Constants() && mProbs.Length == 3 && GmmOk(Gmm(mProbs[..], mMeans, mStds))
      requires forall i | 0 <= i < 3 :: MeanFits(mMeans[i])
      modifies this, mProbs
      ensures Loaded() && Mix() == MixtureOf(Gmm(old(mProbs[..]), mMeans, mStds), scalePred, expTable)
      ensures probs == mProbs && means == mMeans && stds == mStds
    {
      hide Softmax, MeanFits, CdfOk;
      probs := mProbs;
      means := mMeans;
      stds := mStds;
      SoftmaxSumIsPositive(mProbs[..], scalePred, expTable);
      probSum := SoftmaxInPlace(mProbs, scalePred % 0x1_0000, expTable);
      assert [probs[0], probs[1], probs[2]] == probs[..];
    }

    method AddLower(i: nat, x: int, l: nat) returns (r: nat)
      requires Loaded() && i < 3 && lowBound <= x <= highBound
      requires l == Shares(cdfTable, freqsResolution, Mix(), x * scalePred - scalePred / 2, i)
      ensures r == Shares(cdfTable, freqsResolution, Mix(), x * scalePred - scalePred / 2, i + 1)
    {
      EdgesBetween(scalePred, lowBound, highBound, x, means[i]);
      var idx := LowerIndex(x, scalePred, means[i], stds[i]);
      AccumulationDoesNotWrap(cdfTable, freqsResolution, Mix(), i, x * scalePred - scalePred / 2);
      r := U64(l + Addend(freqsResolution, cdfTable[idx], probSum, probs[i]));
    }

    method AddUpper(i: nat, x: int, l: nat) returns (r: nat)
      requires Loaded() && i < 3 && lowBound <= x <= highBound
      requires l == Shares(cdfTable, freqsResolution, Mix(), x * scalePred + scalePred / 2, i)
      ensures r == Shares(cdfTable, freqsResolution, Mix(), x * scalePred + scalePred / 2, i + 1)
    {
      EdgesBetween(scalePred, lowBound, highBound, x, means[i]);
      var idx := UpperIndex(x, scalePred, means[i], stds[i]);
      AccumulationDoesNotWrap(cdfTable, freqsResolution, Mix(), i, x * scalePred + scalePred / 2);
      r := U64(l + Addend(freqsResolution, cdfTable[idx], probSum, probs[i]));
    }

    /** The mass below the lower edge of xl and below the upper edge of xr. */
    method Accumulate(xl: int, xr: int) returns (l: nat, r: nat)
      requires Loaded() && lowBound <= xl <= highBound && lowBound <= xr <= highBound
      ensures l == Below(Config(), xl) && r == UpTo(Config(), xr)
    {
      l, r := 0, 0;
      for i := 0 to 3
        invariant l == Shares(cdfTable, freqsResolution, Mix(), xl * scalePred - scalePred / 2, i)
        invariant r == Shares(cdfTable, freqsResolution, Mix(), xr * scalePred + scalePred / 2, i)
      {
        l := AddLower(i, xl, l);
        r := AddUpper(i, xr, r);
      }
      l := l / Y_BOUND;
      r := r / Y_BOUND;
    }

    /** Sets the coder's three numbers for symbol x. */
    method GetBound(x: int)
      requires Loaded() && lowBound <= x <= highBound
      modifies `lBound, `rBound, `symLow, `symHigh, `totalFreqs
      ensures Loaded() && Config() == old(Config())
      ensures symLow == SymLow(Config(), x) && symHigh == SymHigh(Config(), x)
      ensures totalFreqs == Total(Config())
      ensures IsNumbers(Config(), x, symLow, symHigh, totalFreqs)
    {
      lBound, rBound := Accumulate(lowBound, highBound);
      var low, high := Accumulate(x, x);
      SetBounds(Config(), x, low, high);
      NumbersOfTable(Config(), x, symLow, symHigh, totalFreqs);
    }

    method SetBounds(ghost t: Setup, x: int, low: nat, high: nat)
      requires SetupOk(t) && t.lo == lowBound <= x <= t.hi == highBound
      requires t.res + (t.hi - t.lo + 1) < 0x1_0000_0000
      requires lBound == Below(t, t.lo) && rBound == UpTo(t, t.hi) && low == Below(t, x) && high == UpTo(t, x)
      modifies `symLow, `symHigh, `totalFreqs
      ensures symLow == SymLow(t, x) && symHigh == SymHigh(t, x) && totalFreqs == Total(t)
    {
      BoundsDoNotWrap(t, x);
      symLow := U32(U64(low - lBound + (x - lowBound)));
      symHigh := U32(U64(high - lBound + (x - lowBound + 1)));
      totalFreqs := U32(U64(rBound - lBound + (highBound - lowBound + 1)));
    }
  }
}
