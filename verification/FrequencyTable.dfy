/**
 The frequency table of one coefficient: a mixture of three Gaussians read off fixed-point
 tables. Module RangeDecoder says what the coder needs of such a table.
 */
module FrequencyTable {
  import opened Arithmetic
  import opened Words
  import opened RangeCoder
  import opened RangeDecoder

  const EXP_SCALE: int := 1000
  const EXP_BASE: int := 12000
  const CDF_SCALE: int := 10000
  const CDF_BASE: int := 50000
  /** The value the cdf table gives to probability one. */
  const Y_BOUND: nat := 0xFFFF_FFFF

  // ---------------------------------------------------------------- tables and parameters

  /** What is assumed of the exponential table: 16-bit entries, positive at the top index. */
  ghost predicate ExpOk(exp: seq<nat>)
  {
    && |exp| > EXP_BASE
    && exp[EXP_BASE] > 0
    && forall i | 0 <= i < |exp| :: exp[i] < 0x1_0000
  }

  /** What is assumed of the cdf table: 32-bit entries that never decrease. */
  ghost predicate CdfOk(cdf: seq<nat>)
  {
    && |cdf| > 2 * CDF_BASE
    && (forall i | 0 <= i < |cdf| :: cdf[i] <= Y_BOUND)
    && (forall i, j | 0 <= i <= j < |cdf| :: cdf[i] <= cdf[j])
  }

  /** The three components: weights after the softmax and their sum, means, deviations. */
  datatype Mixture = Mixture(weights: seq<nat>, sum: nat, means: seq<int>, stds: seq<int>)

  ghost predicate MixtureOk(m: Mixture)
  {
    && |m.weights| == |m.means| == |m.stds| == 3
    && 0 < m.sum == m.weights[0] + m.weights[1] + m.weights[2]
    && forall i | 0 <= i < 3 :: m.stds[i] > 0
  }

  // ---------------------------------------------------------------- softmax

  function Max3(a: int, b: int, c: int): (m: int)
    ensures m == a || m == b || m == c
    ensures a <= m && b <= m && c <= m
  {
    var d := if a < b then b else a;
    if d < c then c else d
  }

  /** Never above the top index, which the largest logit reaches. */
  function ExpIndex(p: int, mx: int, scale: int): (i: int)
    requires p <= mx && scale > 0
    ensures 0 <= i <= EXP_BASE && (p == mx ==> i == EXP_BASE)
  {
    TruncDivOrdered((p - mx) * EXP_SCALE, 0, scale);
    var i := TruncDiv((p - mx) * EXP_SCALE, scale) + EXP_BASE;
    if i > 0 then i else 0
  }

  /** i is the table's index for a logit that far below the greatest: 1000 steps per unit, cut off at zero. */
  ghost predicate IsExpIndex(i: nat, gap: nat, scale: int)
    requires scale > 0
  {
    i <= 12000 && if gap * 1000 < 12000 * scale then IsQuotient(12000 - i, gap * 1000, scale) else i == 0
  }

  lemma ExpIndexIs(p: int, mx: int, scale: int, i: nat)
    requires p <= mx && scale > 0
    ensures IsExpIndex(i, mx - p, scale) <==> i == ExpIndex(p, mx, scale)
  {
    var a := (mx - p) * 1000;
    DivBounds(a, scale);
    assert (p - mx) * EXP_SCALE == -a;
    if a < 12000 * scale {
      DivBelow(a, scale, 12000);
      if IsExpIndex(i, mx - p, scale) {
        QuotientIsUnique(12000 - i, a / scale, a, scale);
      }
    } else {
      DivAtLeast(a, scale, 12000);
    }
  }

  /** Every weight is the table's entry for the distance of its logit from the greatest. */
  lemma SoftmaxIs(probs: seq<int>, scale: int, exp: seq<nat>, k: nat, i: nat)
    requires |probs| == 3 && scale > 0 && |exp| > EXP_BASE && k < 3
    requires var mx := Max3(probs[0], probs[1], probs[2]); IsExpIndex(i, mx - probs[k], scale)
    ensures Softmax(probs, scale, exp)[k] == exp[i]
  {
    ExpIndexIs(probs[k], Max3(probs[0], probs[1], probs[2]), scale, i);
  }

  function Softmax(probs: seq<int>, scale: int, exp: seq<nat>): (r: seq<nat>)
    requires |probs| == 3 && scale > 0 && |exp| > EXP_BASE
    ensures |r| == 3
  {
    var mx := Max3(probs[0], probs[1], probs[2]);
    seq(3, i requires 0 <= i < 3 => exp[ExpIndex(probs[i], mx, scale)])
  }

  /** Some weight is the table's top entry, so the sum the shares are divided by is not zero. */
  lemma SoftmaxSumIsPositive(probs: seq<int>, scale: int, exp: seq<nat>)
    requires |probs| == 3 && scale > 0 && ExpOk(exp)
    ensures var r := Softmax(probs, scale, exp); 0 < r[0] + r[1] + r[2] < 3 * 0x1_0000
  {
    var mx := Max3(probs[0], probs[1], probs[2]);
    var i := if probs[0] == mx then 0 else if probs[1] == mx then 1 else 2;
    assert Softmax(probs, scale, exp)[i] == exp[EXP_BASE];
  }

  /** Rewrites the logits into weights, in place, and returns their sum. */
  method SoftmaxInPlace(probs: array<int>, scale: int, exp: seq<nat>) returns (sum: int)
    requires probs.Length == 3 && scale > 0 && |exp| > EXP_BASE
    modifies probs
    ensures probs[..] == Softmax(old(probs[..]), scale, exp)
    ensures sum == probs[0] + probs[1] + probs[2]
  {
    var mx := Max3(probs[0], probs[1], probs[2]);
    ghost var was := probs[..];
    sum := 0;
    for i := 0 to 3
      invariant forall j | 0 <= j < i :: probs[j] == Softmax(was, scale, exp)[j]
      invariant forall j | i <= j < 3 :: probs[j] == was[j]
      invariant sum == (if i > 0 then probs[0] else 0) + (if i > 1 then probs[1] else 0) + (if i > 2 then probs[2] else 0)
    {
      var idx := ExpIndex(probs[i], mx, scale);
      probs[i] := exp[idx];
      sum := sum + probs[i];
    }
  }

  /** The parameters of one coefficient as the network delivers them. */
  datatype Gmm = Gmm(probs: seq<int>, means: seq<int>, stds: seq<int>)

  /** Three of each, 16 bits wide, the deviations positive. */
  ghost predicate GmmOk(g: Gmm)
  {
    && |g.probs| == |g.means| == |g.stds| == 3
    && forall i | 0 <= i < 3 :: IsInt16(g.probs[i]) && IsInt16(g.means[i]) && IsInt16(g.stds[i]) && g.stds[i] > 0
  }

  function MixtureOf(g: Gmm, scale: int, exp: seq<nat>): (m: Mixture)
    requires GmmOk(g) && scale > 0 && ExpOk(exp)
    ensures MixtureOk(m)
  {
    var r := Softmax(g.probs, scale, exp);
    SoftmaxSumIsPositive(g.probs, scale, exp);
    Mixture(r, r[0] + r[1] + r[2], g.means, g.stds)
  }

  // ---------------------------------------------------------------- cumulative frequencies

  function Clamp(x: int, l: int, r: int): (y: int)
    requires l <= r
    ensures l <= y <= r
  {
    if x < l then l else if x > r then r else x
  }

  function CdfIndex(v: int, std: int): (i: nat)
    requires std > 0
    ensures i <= 2 * CDF_BASE
  {
    Clamp(TruncDiv(v * CDF_SCALE, std), -CDF_BASE, CDF_BASE) + CDF_BASE
  }

  /** i is the cdf table's index v deviations from the middle: 10000 entries per deviation, five to each side. */
  ghost predicate IsIndex(i: nat, v: int, std: int)
    requires std > 0
  {
    var k, a := i - 50000, (if v >= 0 then v else -v) * 10000;
    var n := if k >= 0 then k else -k;
    && (v > 0 ==> k >= 0) && (v < 0 ==> k <= 0)
    && if a <= 50000 * std then IsQuotient(n, a, std) else n == 50000
  }

  lemma CdfIndexIs(v: int, std: int, i: nat)
    requires std > 0
    ensures IsIndex(i, v, std) <==> i == CdfIndex(v, std)
  {
    var a := (if v >= 0 then v else -v) * 10000;
    var q := a / std;
    DivBounds(a, std);
    DivAtLeast(a, std, 0);
    assert TruncDiv(v * CDF_SCALE, std) == if v >= 0 then q else -q;
    hide TruncDiv;
    var n := if i >= 50000 then i - 50000 else 50000 - i;
    if a <= 50000 * std {
      DivBelow(a, std, 50001);
      if IsQuotient(n, a, std) {
        QuotientIsUnique(n, q, a, std);
      }
      assert IsQuotient(n, a, std) <==> n == q;
    } else {
      DivAtLeast(a, std, 50000);
    }
    hide IsQuotient;
  }

  /** The part component i has of the mass below y, over Y_BOUND. */
  function Share(cdf: seq<nat>, res: nat, m: Mixture, i: nat, y: int): (s: nat)
    requires CdfOk(cdf) && MixtureOk(m) && i < 3
  {
    res * cdf[CdfIndex(y - m.means[i], m.stds[i])] / m.sum * m.weights[i]
  }

  function Shares(cdf: seq<nat>, res: nat, m: Mixture, y: int, n: nat): (s: nat)
    requires CdfOk(cdf) && MixtureOk(m) && n <= 3
  {
    if n == 0 then 0 else Shares(cdf, res, m, y, n - 1) + Share(cdf, res, m, n - 1, y)
  }

  /** How much of the resolution lies below y. */
  function Cum(cdf: seq<nat>, res: nat, m: Mixture, y: int): (c: nat)
    requires CdfOk(cdf) && MixtureOk(m)
  {
    Shares(cdf, res, m, y, 3) / Y_BOUND
  }

  /** Component k has its cdf entry number i, and q is what the scaled entry is over the sum of the weights. */
  ghost predicate IsPart(cdf: seq<nat>, res: nat, m: Mixture, y: int, k: nat, i: nat, q: nat)
    requires CdfOk(cdf) && MixtureOk(m) && k < 3
  {
    i < |cdf| && IsIndex(i, y - m.means[k], m.stds[k]) && IsQuotient(q, res * cdf[i], m.sum)
  }

  /** c is the resolution's part below y: the weighted parts of the three components, over the cdf's unit. */
  ghost predicate IsMass(cdf: seq<nat>, res: nat, m: Mixture, y: int, c: nat)
    requires CdfOk(cdf) && MixtureOk(m)
  {
    exists i0, i1, i2, q0, q1, q2 ::
      && IsPart(cdf, res, m, y, 0, i0, q0) && IsPart(cdf, res, m, y, 1, i1, q1) && IsPart(cdf, res, m, y, 2, i2, q2)
      && IsQuotient(c, Weighted(m, q0, q1, q2), 0xFFFF_FFFF)
  }

  function Weighted(m: Mixture, q0: nat, q1: nat, q2: nat): (s: nat)
    requires MixtureOk(m)
  {
    q0 * m.weights[0] + q1 * m.weights[1] + q2 * m.weights[2]
  }

  /** The part of a component, whichever way it is found. */
  function Part(cdf: seq<nat>, res: nat, m: Mixture, y: int, k: nat): (q: nat)
    requires CdfOk(cdf) && MixtureOk(m) && k < 3
    ensures Share(cdf, res, m, k, y) == q * m.weights[k]
    ensures IsPart(cdf, res, m, y, k, CdfIndex(y - m.means[k], m.stds[k]), q)
  {
    var i := CdfIndex(y - m.means[k], m.stds[k]);
    CdfIndexIs(y - m.means[k], m.stds[k], i);
    DivBounds(res * cdf[i], m.sum);
    DivAtLeast(res * cdf[i], m.sum, 0);
    res * cdf[i] / m.sum
  }

  lemma PartIsUnique(cdf: seq<nat>, res: nat, m: Mixture, y: int, k: nat, i: nat, q: nat)
    requires CdfOk(cdf) && MixtureOk(m) && k < 3 && IsPart(cdf, res, m, y, k, i, q)
    ensures q == Part(cdf, res, m, y, k)
  {
    CdfIndexIs(y - m.means[k], m.stds[k], i);
    hide CdfOk, MixtureOk, IsIndex;
    QuotientIsUnique(q, Part(cdf, res, m, y, k), res * cdf[i], m.sum);
  }

  lemma SharesAreParts(cdf: seq<nat>, res: nat, m: Mixture, y: int)
    requires CdfOk(cdf) && MixtureOk(m)
    ensures Shares(cdf, res, m, y, 3) == Weighted(m, Part(cdf, res, m, y, 0), Part(cdf, res, m, y, 1), Part(cdf, res, m, y, 2))
  {
    hide CdfOk, MixtureOk, Share, Part, IsPart;
    assert Shares(cdf, res, m, y, 1) == Shares(cdf, res, m, y, 0) + Share(cdf, res, m, 0, y);
    assert Shares(cdf, res, m, y, 2) == Shares(cdf, res, m, y, 1) + Share(cdf, res, m, 1, y);
  }

  lemma CumIsQuotient(cdf: seq<nat>, res: nat, m: Mixture, y: int)
    requires CdfOk(cdf) && MixtureOk(m)
    ensures IsQuotient(Cum(cdf, res, m, y), Weighted(m, Part(cdf, res, m, y, 0), Part(cdf, res, m, y, 1), Part(cdf, res, m, y, 2)), 0xFFFF_FFFF)
  {
    SharesAreParts(cdf, res, m, y);
    DivBounds(Shares(cdf, res, m, y, 3), Y_BOUND);
  }

  /** The cumulative frequency is that mass and no other number. */
  lemma CumIsMass(cdf: seq<nat>, res: nat, m: Mixture, y: int, c: nat)
    requires CdfOk(cdf) && MixtureOk(m)
    ensures IsMass(cdf, res, m, y, c) <==> c == Cum(cdf, res, m, y)
  {
    hide CdfOk, MixtureOk, IsPart, Cum, Part, Weighted, IsQuotient;
    CumIsQuotient(cdf, res, m, y);
    if IsMass(cdf, res, m, y, c) {
      var i0, i1, i2, q0, q1, q2 :|
        && IsPart(cdf, res, m, y, 0, i0, q0) && IsPart(cdf, res, m, y, 1, i1, q1) && IsPart(cdf, res, m, y, 2, i2, q2)
        && IsQuotient(c, Weighted(m, q0, q1, q2), 0xFFFF_FFFF);
      PartIsUnique(cdf, res, m, y, 0, i0, q0);
      PartIsUnique(cdf, res, m, y, 1, i1, q1);
      PartIsUnique(cdf, res, m, y, 2, i2, q2);
      QuotientIsUnique(c, Cum(cdf, res, m, y), Weighted(m, q0, q1, q2), 0xFFFF_FFFF);
    }
  }

  /** So it is the mixture's cdf times the resolution, up to what two roundings lose. */
  lemma CumIsAccurate(cdf: seq<nat>, res: nat, m: Mixture, y: int)
    requires CdfOk(cdf) && MixtureOk(m)
    ensures var mixed := res * Mixed(cdf, m, y); var c := Cum(cdf, res, m, y);
            (c * m.sum) * Y_BOUND <= mixed < (c * m.sum) * Y_BOUND + m.sum * Y_BOUND + m.sum * m.sum
  {
    var q0, q1, q2 := Part(cdf, res, m, y, 0), Part(cdf, res, m, y, 1), Part(cdf, res, m, y, 2);
    var c0, c1, c2 := Entry(cdf, m, y, 0), Entry(cdf, m, y, 1), Entry(cdf, m, y, 2);
    CumIsQuotient(cdf, res, m, y);
    WeightedBounds(m.weights[0], m.weights[1], m.weights[2], q0, q1, q2, res, c0, c1, c2, m.sum);
    hide CdfOk, MixtureOk, Cum, Part, Entry, IsPart;
    AccuracyArithmetic(Cum(cdf, res, m, y), Weighted(m, q0, q1, q2), m.sum, Y_BOUND, res * Mixed(cdf, m, y));
  }

  function Entry(cdf: seq<nat>, m: Mixture, y: int, k: nat): (c: nat)
    requires CdfOk(cdf) && MixtureOk(m) && k < 3
  {
    cdf[CdfIndex(y - m.means[k], m.stds[k])]
  }

  /** The weighted sum of the three cdf entries. */
  function Mixed(cdf: seq<nat>, m: Mixture, y: int): (s: nat)
    requires CdfOk(cdf) && MixtureOk(m)
  {
    Weighted(m, Entry(cdf, m, y, 0), Entry(cdf, m, y, 1), Entry(cdf, m, y, 2))
  }

  lemma OneBound(w: nat, q: nat, res: nat, c: nat, sum: nat)
    requires IsQuotient(q, res * c, sum)
    ensures (q * w) * sum <= res * (c * w) <= (q * w) * sum + w * sum
    ensures w > 0 ==> res * (c * w) < (q * w) * sum + w * sum
  {
    MulOrdered(q * sum, res * c, w);
    MulOrdered(res * c + 1, (q + 1) * sum, w);
    assert (q * sum) * w == (q * w) * sum && (res * c) * w == res * (c * w) && ((q + 1) * sum) * w == (q * w) * sum + w * sum;
  }

  lemma WeightedBounds(w0: nat, w1: nat, w2: nat, q0: nat, q1: nat, q2: nat, res: nat, c0: nat, c1: nat, c2: nat, sum: nat)
    requires sum == w0 + w1 + w2 > 0
    requires IsQuotient(q0, res * c0, sum) && IsQuotient(q1, res * c1, sum) && IsQuotient(q2, res * c2, sum)
    ensures var q, c := q0 * w0 + q1 * w1 + q2 * w2, c0 * w0 + c1 * w1 + c2 * w2;
            q * sum <= res * c < q * sum + sum * sum
  {
    OneBound(w0, q0, res, c0, sum);
    OneBound(w1, q1, res, c1, sum);
    OneBound(w2, q2, res, c2, sum);
    AddThree(q0 * w0, q1 * w1, q2 * w2, sum);
    AddThree(c0 * w0, c1 * w1, c2 * w2, res);
    AddThree(w0, w1, w2, sum);
    hide IsQuotient;
  }

  lemma AddThree(a: nat, b: nat, c: nat, x: nat)
    ensures (a + b + c) * x == a * x + b * x + c * x && x * (a + b + c) == x * a + x * b + x * c
  {
  }

  lemma AccuracyArithmetic(c: nat, q: nat, sum: nat, unit: nat, mixed: nat)
    requires IsQuotient(c, q, unit) && q * sum <= mixed < q * sum + sum * sum && sum > 0
    ensures (c * sum) * unit <= mixed < (c * sum) * unit + sum * unit + sum * sum
  {
    MulOrdered(c * unit, q, sum);
    MulOrdered(q, (c + 1) * unit, sum);
    assert (c * unit) * sum == (c * sum) * unit && ((c + 1) * unit) * sum == (c * sum) * unit + sum * unit;
  }

  lemma CdfIndexOrdered(v: int, v': int, std: int)
    requires std > 0 && v <= v'
    ensures CdfIndex(v, std) <= CdfIndex(v', std)
  {
    TruncDivOrdered(v * CDF_SCALE, v' * CDF_SCALE, std);
  }

  lemma ShareOrdered(cdf: seq<nat>, res: nat, m: Mixture, i: nat, y: int, y': int)
    requires CdfOk(cdf) && MixtureOk(m) && i < 3 && y <= y'
    ensures Share(cdf, res, m, i, y) <= Share(cdf, res, m, i, y')
  {
    CdfIndexOrdered(y - m.means[i], y' - m.means[i], m.stds[i]);
    var a, b := cdf[CdfIndex(y - m.means[i], m.stds[i])], cdf[CdfIndex(y' - m.means[i], m.stds[i])];
    ProductsOrdered(res, res, a, b);
    DivOrdered(res * a, res * b, m.sum);
    MulOrdered(res * a / m.sum, res * b / m.sum, m.weights[i]);
  }

  lemma {:induction false} SharesOrdered(cdf: seq<nat>, res: nat, m: Mixture, y: int, y': int, n: nat)
    requires CdfOk(cdf) && MixtureOk(m) && n <= 3 && y <= y'
    ensures Shares(cdf, res, m, y, n) <= Shares(cdf, res, m, y', n)
  {
    if n > 0 {
      SharesOrdered(cdf, res, m, y, y', n - 1);
      ShareOrdered(cdf, res, m, n - 1, y, y');
    }
  }

  lemma CumOrdered(cdf: seq<nat>, res: nat, m: Mixture, y: int, y': int)
    requires CdfOk(cdf) && MixtureOk(m) && y <= y'
    ensures Cum(cdf, res, m, y) <= Cum(cdf, res, m, y')
  {
    SharesOrdered(cdf, res, m, y, y', 3);
    DivOrdered(Shares(cdf, res, m, y, 3), Shares(cdf, res, m, y', 3), Y_BOUND);
  }

  /** A component's share is at most its weight times the whole, and fits on the way. */
  lemma ShareBounded(cdf: seq<nat>, res: nat, m: Mixture, i: nat, y: int)
    requires CdfOk(cdf) && MixtureOk(m) && i < 3
    ensures Share(cdf, res, m, i, y) <= res * Y_BOUND / m.sum * m.weights[i]
    ensures res * cdf[CdfIndex(y - m.means[i], m.stds[i])] <= res * Y_BOUND
  {
    var a := cdf[CdfIndex(y - m.means[i], m.stds[i])];
    ProductsOrdered(res, res, a, Y_BOUND);
    DivOrdered(res * a, res * Y_BOUND, m.sum);
    MulOrdered(res * a / m.sum, res * Y_BOUND / m.sum, m.weights[i]);
  }

  /** The sum of the shares never exceeds the whole, though each is rounded and rescaled. */
  lemma {:induction false} SharesBounded(cdf: seq<nat>, res: nat, m: Mixture, y: int, n: nat)
    requires CdfOk(cdf) && MixtureOk(m) && n <= 3
    ensures Shares(cdf, res, m, y, n) <= Shares(cdf, res, m, y, 3) <= res * Y_BOUND
  {
    var q := res * Y_BOUND / m.sum;
    ShareBounded(cdf, res, m, 0, y);
    ShareBounded(cdf, res, m, 1, y);
    ShareBounded(cdf, res, m, 2, y);
    assert Shares(cdf, res, m, y, 0) == 0;
    assert Shares(cdf, res, m, y, 1) == Share(cdf, res, m, 0, y);
    assert Shares(cdf, res, m, y, 2) == Shares(cdf, res, m, y, 1) + Share(cdf, res, m, 1, y);
    assert Shares(cdf, res, m, y, 3) == Shares(cdf, res, m, y, 2) + Share(cdf, res, m, 2, y);
    WeightedSum(q, m.weights[0], m.weights[1], m.weights[2]);
    DivBounds(res * Y_BOUND, m.sum);
  }

  lemma WeightedSum(q: nat, a: nat, b: nat, c: nat)
    ensures q * a + q * b + q * c == q * (a + b + c)
  {
  }

  lemma CumBounded(cdf: seq<nat>, res: nat, m: Mixture, y: int)
    requires CdfOk(cdf) && MixtureOk(m)
    ensures Cum(cdf, res, m, y) <= res
  {
    SharesBounded(cdf, res, m, y, 3);
    DivBelow(Shares(cdf, res, m, y, 3), Y_BOUND, res + 1);
  }

  // ---------------------------------------------------------------- the cells of the table

  /** Everything that fixes a table besides the symbol. */
  datatype Setup = Setup(cdf: seq<nat>, res: nat, m: Mixture, scale: nat, lo: int, hi: int)

  ghost predicate SetupOk(t: Setup)
  {
    CdfOk(t.cdf) && MixtureOk(t.m) && t.lo <= t.hi
  }

  function Below(t: Setup, x: int): (c: nat)
    requires SetupOk(t)
  {
    Cum(t.cdf, t.res, t.m, x * t.scale - t.scale / 2)
  }

  function UpTo(t: Setup, x: int): (c: nat)
    requires SetupOk(t)
  {
    Cum(t.cdf, t.res, t.m, x * t.scale + t.scale / 2)
  }

  function SymLow(t: Setup, x: int): (r: int)
    requires SetupOk(t)
  {
    Below(t, x) - Below(t, t.lo) + (x - t.lo)
  }

  function SymHigh(t: Setup, x: int): (r: int)
    requires SetupOk(t)
  {
    UpTo(t, x) - Below(t, t.lo) + (x - t.lo + 1)
  }

  function Total(t: Setup): (r: int)
    requires SetupOk(t)
  {
    UpTo(t, t.hi) - Below(t, t.lo) + (t.hi - t.lo + 1)
  }

  /** c is the mass below the lower edge of x, half a step before it. */
  ghost predicate IsBelow(t: Setup, x: int, c: nat)
    requires SetupOk(t)
  {
    IsMass(t.cdf, t.res, t.m, x * t.scale - t.scale / 2, c)
  }

  /** c is the mass below the upper edge of x, half a step after it. */
  ghost predicate IsUpTo(t: Setup, x: int, c: nat)
    requires SetupOk(t)
  {
    IsMass(t.cdf, t.res, t.m, x * t.scale + t.scale / 2, c)
  }

  lemma EdgeMasses(t: Setup, x: int, c: nat)
    requires SetupOk(t)
    ensures IsBelow(t, x, c) <==> c == Below(t, x)
    ensures IsUpTo(t, x, c) <==> c == UpTo(t, x)
  {
    hide CdfOk, MixtureOk, IsMass, Cum;
    CumIsMass(t.cdf, t.res, t.m, x * t.scale - t.scale / 2, c);
    CumIsMass(t.cdf, t.res, t.m, x * t.scale + t.scale / 2, c);
  }

  /** The coder's three numbers for x, from the masses at the edges of the table and of x. */
  ghost predicate IsNumbers(t: Setup, x: int, low: int, high: int, total: int)
    requires SetupOk(t)
  {
    exists a: nat, b: nat, l: nat, h: nat ::
      && IsBelow(t, t.lo, a) && IsUpTo(t, t.hi, b) && IsBelow(t, x, l) && IsUpTo(t, x, h)
      && low == l - a + (x - t.lo) && high == h - a + (x - t.lo + 1) && total == b - a + (t.hi - t.lo + 1)
  }

  /** They are these numbers and no others. */
  lemma NumbersOfTable(t: Setup, x: int, low: int, high: int, total: int)
    requires SetupOk(t)
    ensures IsNumbers(t, x, low, high, total) <==> low == SymLow(t, x) && high == SymHigh(t, x) && total == Total(t)
  {
    hide IsBelow, IsUpTo, Below, UpTo, CdfOk, MixtureOk;
    EdgeMasses(t, t.lo, Below(t, t.lo));
    EdgeMasses(t, t.hi, UpTo(t, t.hi));
    EdgeMasses(t, x, Below(t, x));
    EdgeMasses(t, x, UpTo(t, x));
    if IsNumbers(t, x, low, high, total) {
      var a: nat, b: nat, l: nat, h: nat :|
        && IsBelow(t, t.lo, a) && IsUpTo(t, t.hi, b) && IsBelow(t, x, l) && IsUpTo(t, x, h)
        && low == l - a + (x - t.lo) && high == h - a + (x - t.lo + 1) && total == b - a + (t.hi - t.lo + 1);
      EdgeMasses(t, t.lo, a);
      EdgeMasses(t, t.hi, b);
      EdgeMasses(t, x, l);
      EdgeMasses(t, x, h);
    }
  }

  lemma EdgesOrdered(t: Setup, x: int, y: int)
    requires SetupOk(t) && x < y
    ensures Below(t, x) <= UpTo(t, x) <= Below(t, y) <= UpTo(t, y)
  {
    var s := t.scale;
    MulOrdered(x + 1, y, s);
    assert (x + 1) * s == x * s + s;
    CumOrdered(t.cdf, t.res, t.m, x * s - s / 2, x * s + s / 2);
    CumOrdered(t.cdf, t.res, t.m, x * s + s / 2, y * s - s / 2);
    CumOrdered(t.cdf, t.res, t.m, y * s - s / 2, y * s + s / 2);
  }

  /** The cells are non-empty, lie in order inside [0, total), and are disjoint. */
  lemma CellsOrdered(t: Setup, x: int)
    requires SetupOk(t) && t.lo <= x <= t.hi
    ensures 0 <= SymLow(t, x) < SymHigh(t, x) <= Total(t)
    ensures forall y | x < y <= t.hi :: SymHigh(t, x) <= SymLow(t, y)
  {
    EdgesOrdered(t, x, x + 1);
    if t.lo < x { EdgesOrdered(t, t.lo, x); }
    if x < t.hi { EdgesOrdered(t, x, t.hi); }
    forall y | x < y <= t.hi ensures SymHigh(t, x) <= SymLow(t, y) {
      EdgesOrdered(t, x, y);
    }
  }

  /** For an even scale the cells tile [0, total) without a gap. */
  lemma CellsTile(t: Setup, x: int)
    requires SetupOk(t) && t.lo <= x <= t.hi && t.scale % 2 == 0
    ensures SymLow(t, t.lo) == 0 && SymHigh(t, t.hi) == Total(t)
    ensures SymHigh(t, x) == SymLow(t, x + 1)
  {
    assert (x + 1) * t.scale == x * t.scale + t.scale;
  }

  /** The total stays below the resolution plus one per symbol. */
  lemma TotalBounded(t: Setup)
    requires SetupOk(t)
    ensures t.hi - t.lo + 1 <= Total(t) <= t.res + (t.hi - t.lo + 1)
  {
    CumBounded(t.cdf, t.res, t.m, t.hi * t.scale + t.scale / 2);
    EdgesOrdered(t, t.hi, t.hi + 1);
    if t.lo < t.hi { EdgesOrdered(t, t.lo, t.hi); }
  }

  /** Symbol x is number x - lo. */
  function CellOf(t: Setup, i: nat): (c: Cell)
    requires SetupOk(t) && i <= t.hi - t.lo
    ensures c.lo == SymLow(t, t.lo + i) && c.hi == SymHigh(t, t.lo + i)
    ensures c.lo < c.hi <= Total(t)
  {
    CellsOrdered(t, t.lo + i);
    Cell(SymLow(t, t.lo + i), SymHigh(t, t.lo + i))
  }

  /** The table as the coder sees it. */
  function TableOf(t: Setup): (r: Table)
    requires SetupOk(t)
    ensures |r.cells| == t.hi - t.lo + 1 && r.total == Total(t)
    ensures forall i | 0 <= i < |r.cells| :: r.cells[i] == CellOf(t, i)
  {
    TotalBounded(t);
    Table(Total(t), seq(t.hi - t.lo + 1, i requires 0 <= i < t.hi - t.lo + 1 => CellOf(t, i)))
  }

  lemma {:induction false} FrequencyHasCell(t: Setup, v: int, n: nat) returns (x: nat)
    requires SetupOk(t) && t.scale % 2 == 0 && n <= t.hi - t.lo && 0 <= v < SymHigh(t, t.lo + n)
    ensures x <= n && SymLow(t, t.lo + x) <= v < SymHigh(t, t.lo + x)
  {
    hide SymLow, SymHigh, Total, CdfOk, MixtureOk;
    if v >= SymLow(t, t.lo + n) {
      x := n;
    } else {
      CellsTile(t, t.lo + n);
      assert n > 0;
      CellsTile(t, t.lo + (n - 1));
      x := FrequencyHasCell(t, v, n - 1);
    }
  }

  /** For an even scale the table tiles its total, so no code of the range is wasted. */
  lemma TableTiles(t: Setup)
    requires SetupOk(t) && t.scale % 2 == 0
    ensures Tiling(TableOf(t))
  {
    var r, n := TableOf(t), t.hi - t.lo;
    TotalBounded(t);
    CellsTile(t, t.hi);
    forall v | 0 <= v < r.total ensures Covered(r, v) {
      hide SymLow, SymHigh, Total, CdfOk, MixtureOk;
      var x := FrequencyHasCell(t, v, n);
      assert r.cells[x] == CellOf(t, x);
      assert InCell(r.cells[x], v);
    }
  }

  lemma CellsDisjoint(t: Setup, i: nat, j: nat)
    requires SetupOk(t) && i < j <= t.hi - t.lo
    ensures CellOf(t, i).hi <= CellOf(t, j).lo
  {
    CellsOrdered(t, t.lo + i);
  }

  /** The table meets every check that `update` leaves out. */
  lemma TableDischargesChecks(w: nat, t: Setup)
    requires w >= 1 && SetupOk(t) && t.res + (t.hi - t.lo + 1) <= Quarter(w) + 2
    ensures TableOk(w, TableOf(t))
  {
    TotalBounded(t);
    var r := TableOf(t);
    forall i, j | 0 <= i < j < |r.cells| ensures r.cells[i].hi <= r.cells[j].lo {
      CellsDisjoint(t, i, j);
    }
  }
}
