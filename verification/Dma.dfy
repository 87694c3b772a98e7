/** Copies between the two memories, cut into bursts of at most a fixed number of 16-byte beats. */
module Dma {
  import opened Words

  const BEAT: nat := 16
  const BURST_SIZE: nat := 65536
  const LIMIT: nat := 0x1_0000_0000

  /** What the driver writes into the registers for one burst: two addresses and the beats less one. */
  datatype Burst = Burst(source: nat, target: nat, beatsLessOne: nat)

  datatype Transaction = Transaction(size: nat, burstSize: nat, burstData: nat, burstCount: nat, ps: nat, pl: nat)

  /** The next multiple of the beat. */
  function RoundUp(n: nat): (r: nat)
    ensures n <= r < n + BEAT && r % BEAT == 0
    ensures n % BEAT == 0 ==> r == n
  {
    if n % BEAT == 0 then n else n + (BEAT - n % BEAT)
  }

  /** The target memory with n bytes of the source copied in. */
  function Copied(source: seq<Byte>, from: nat, target: seq<Byte>, to: nat, n: nat): (r: seq<Byte>)
    requires from + n <= |source| && to + n <= |target|
    ensures |r| == |target|
  {
    target[..to] + source[from..from + n] + target[to + n..]
  }

  lemma CopiedNothing(source: seq<Byte>, from: nat, target: seq<Byte>, to: nat)
    requires from <= |source| && to <= |target|
    ensures Copied(source, from, target, to, 0) == target
  {
  }

  lemma CopiedTwice(source: seq<Byte>, from: nat, target: seq<Byte>, to: nat, p: nat, n: nat)
    requires from + p + n <= |source| && to + p + n <= |target|
    ensures Copied(source, from + p, Copied(source, from, target, to, p), to + p, n) == Copied(source, from, target, to, p + n)
  {
    var once := Copied(source, from, target, to, p);
    assert once[..to + p] == target[..to] + source[from..from + p];
    assert once[to + p + n..] == target[to + p + n..];
    assert source[from..from + p] + source[from + p..from + p + n] == source[from..from + p + n];
  }

  /** What the hardware does on one burst. */
  method RunBurst(source: array<Byte>, target: array<Byte>, b: Burst)
    requires source != target
    requires b.source + BEAT * (b.beatsLessOne + 1) <= source.Length && b.target + BEAT * (b.beatsLessOne + 1) <= target.Length
    modifies target
    ensures target[..] == Copied(source[..], b.source, old(target[..]), b.target, BEAT * (b.beatsLessOne + 1))
  {
    var n := BEAT * (b.beatsLessOne + 1);
    ghost var was := target[..];
    for k := 0 to n
      invariant forall j | 0 <= j < target.Length ::
        target[j] == if b.target <= j < b.target + k then source[b.source + j - b.target] else was[j]
    {
      target[b.target + k] := source[b.source + k];
    }
  }

  // ---------------------------------------------------------------- the bursts

  /** How many bursts of that many bytes cover the size. */
  function Count(size: nat, burstData: nat): (c: nat)
    requires burstData > 0
  {
    if size == 0 then 0 else (size - 1) / burstData + 1
  }

  function Offset(burstData: nat, k: nat): (r: nat)
  {
    burstData * k
  }

  lemma OffsetNext(burstData: nat, k: nat)
    ensures Offset(burstData, k + 1) == Offset(burstData, k) + burstData && Offset(burstData, 0) == 0
  {
  }

  lemma OffsetsOrdered(burstData: nat, i: nat, j: nat)
    requires i <= j
    ensures Offset(burstData, i) <= Offset(burstData, j)
  {
    assert burstData * (j - i) >= 0;
  }

  lemma CountIs(size: nat, burstData: nat, c: nat)
    requires burstData > 0 && size > 0
    ensures c == Count(size, burstData) <==> c > 0 && Offset(burstData, c - 1) < size <= Offset(burstData, c)
  {
    var q := (size - 1) / burstData;
    assert Offset(burstData, q) <= size - 1 < Offset(burstData, q + 1);
    if c > q + 1 {
      OffsetsOrdered(burstData, q + 1, c - 1);
    } else if c < q + 1 {
      OffsetsOrdered(burstData, c, q);
    }
  }

  /** Burst k of the copy: full, except that the last one takes what is left. */
  ghost predicate IsBurst(b: Burst, from: nat, to: nat, size: nat, burstData: nat, k: nat)
    requires burstData > 0
  {
    && b.source == from + Offset(burstData, k) && b.target == to + Offset(burstData, k)
    && Offset(burstData, k) + BEAT * (b.beatsLessOne + 1) ==
         if k + 1 < Count(size, burstData) then Offset(burstData, k + 1) else RoundUp(size)
  }

  ghost predicate Bursts(bursts: seq<Burst>, from: nat, to: nat, size: nat, burstData: nat)
    requires burstData > 0
  {
    && |bursts| == Count(size, burstData)
    && forall k | 0 <= k < |bursts| :: IsBurst(bursts[k], from, to, size, burstData, k)
  }

  predicate Legal(size: nat, burstSize: nat, burstData: nat)
  {
    size < LIMIT && burstData == BEAT * burstSize && 0 < burstData < LIMIT
  }

  /** One turn of the loop before the copy: the size and data of this burst, and what remains. */
  method NextBurst(remaining: nat, burstSize: nat, burstData: nat) returns (left: nat, beats: nat, bytes: nat)
    requires Legal(remaining, burstSize, burstData) && remaining > 0
    ensures bytes == BEAT * beats > 0
    ensures remaining < burstData ==> bytes == RoundUp(remaining) && left == 0
    ensures remaining >= burstData ==> bytes == burstData && left == remaining - burstData
  {
    beats, bytes := burstSize, burstData;
    left := remaining;
    if left < bytes {
      if left % BEAT != 0 {
        left := U32(left + (BEAT - left % BEAT));
      }
      beats := left / 16;
      bytes := left;
    }
    left := left - bytes;
  }

  lemma LastRounds(size: nat, burstData: nat, k: nat)
    requires burstData > 0 && burstData % BEAT == 0 && Offset(burstData, k) <= size
    ensures Offset(burstData, k) + RoundUp(size - Offset(burstData, k)) == RoundUp(size)
  {
    OffsetAligned(burstData, k);
    var base := Offset(burstData, k);
    hide Offset;
    RoundUpShifts(base / BEAT, size - base);
  }

  lemma RoundUpShifts(q: nat, n: nat)
    ensures RoundUp(BEAT * q + n) == BEAT * q + RoundUp(n)
  {
    assert (BEAT * q + n) % BEAT == n % BEAT;
  }

  lemma {:induction false} OffsetAligned(burstData: nat, k: nat)
    requires burstData % BEAT == 0
    ensures Offset(burstData, k) % BEAT == 0
  {
    hide Offset;
    if k > 0 {
      OffsetAligned(burstData, k - 1);
      OffsetNext(burstData, k - 1);
      AlignedSum(Offset(burstData, k - 1), burstData);
    } else {
      OffsetNext(burstData, 0);
    }
  }

  lemma AlignedSum(a: nat, b: nat)
    requires a % BEAT == 0 && b % BEAT == 0
    ensures (a + b) % BEAT == 0
  {
  }

  /** All bytes the first k bursts have moved. */
  ghost function Moved(size: nat, burstData: nat, k: nat): (r: nat)
    requires burstData > 0
  {
    if k < Count(size, burstData) then Offset(burstData, k) else RoundUp(size)
  }

  /** Where the loop stands after k bursts. */
  ghost predicate Standing(size: nat, burstData: nat, k: nat, remaining: nat)
    requires burstData > 0
  {
    && k <= Count(size, burstData)
    && remaining == (if k < Count(size, burstData) then size - Offset(burstData, k) else 0)
    && (k < Count(size, burstData) ==> remaining > 0)
  }

  lemma StartStanding(size: nat, burstData: nat)
    requires burstData > 0
    ensures Standing(size, burstData, 0, size) && Moved(size, burstData, 0) == 0
  {
    OffsetNext(burstData, 0);
  }

  /** One turn moves exactly the next burst. */
  lemma TurnStands(size: nat, burstSize: nat, burstData: nat, k: nat, remaining: nat, left: nat, bytes: nat)
    requires Legal(size, burstSize, burstData) && Standing(size, burstData, k, remaining) && remaining > 0
    requires remaining < burstData ==> bytes == RoundUp(remaining) && left == 0
    requires remaining >= burstData ==> bytes == burstData && left == remaining - burstData
    ensures Standing(size, burstData, k + 1, left)
    ensures Moved(size, burstData, k + 1) == Moved(size, burstData, k) + bytes <= RoundUp(size)
    ensures k < Count(size, burstData) && (left > 0 ==> Moved(size, burstData, k + 1) < RoundUp(size))
  {
    var c := Count(size, burstData);
    CountIs(size, burstData, c);
    OffsetNext(burstData, k);
    assert burstData % BEAT == 0;
    LastRounds(size, burstData, k);
    hide Offset, Count, RoundUp;
    if k + 1 < c {
      OffsetsOrdered(burstData, k + 1, c - 1);
    } else {
      assert k + 1 == c;
    }
  }

  lemma NextIsBurst(b: Burst, from: nat, to: nat, size: nat, burstData: nat, k: nat)
    requires burstData > 0 && k < Count(size, burstData)
    requires b.source == from + Moved(size, burstData, k) && b.target == to + Moved(size, burstData, k)
    requires Moved(size, burstData, k + 1) == Moved(size, burstData, k) + BEAT * (b.beatsLessOne + 1)
    ensures IsBurst(b, from, to, size, burstData, k)
  {
    hide Offset, Count, RoundUp;
  }

  lemma AllMoved(size: nat, burstData: nat, k: nat)
    requires burstData > 0 && Standing(size, burstData, k, 0)
    ensures k == Count(size, burstData) && Moved(size, burstData, k) == RoundUp(size)
  {
    hide Offset, Count, RoundUp;
  }

  /** The driver's loop: programs burst after burst until nothing remains. */
  method MoveBursts(source: array<Byte>, target: array<Byte>, from: nat, to: nat, size: nat, burstSize: nat, burstData: nat)
    returns (bursts: seq<Burst>)
    requires source != target && Legal(size, burstSize, burstData)
    requires from + RoundUp(size) <= source.Length <= LIMIT && to + RoundUp(size) <= target.Length <= LIMIT
    modifies target
    ensures Bursts(bursts, from, to, size, burstData)
    ensures target[..] == Copied(source[..], from, old(target[..]), to, RoundUp(size))
  {
    hide Offset, Count, RoundUp, Copied, IsBurst, Moved, Standing;
    ghost var was := target[..];
    var remaining: nat, sourceNext: nat, targetNext: nat := size, from, to;
    bursts := [];
    StartStanding(size, burstData);
    CopiedNothing(source[..], from, was, to);
    while remaining > 0
      invariant Standing(size, burstData, |bursts|, remaining) && remaining <= size
      invariant remaining > 0 ==> sourceNext == from + Moved(size, burstData, |bursts|) && targetNext == to + Moved(size, burstData, |bursts|)
      invariant Moved(size, burstData, |bursts|) <= RoundUp(size)
      invariant forall k | 0 <= k < |bursts| :: IsBurst(bursts[k], from, to, size, burstData, k)
      invariant target[..] == Copied(source[..], from, was, to, Moved(size, burstData, |bursts|))
    {
      var left, beats, bytes := NextBurst(remaining, burstSize, burstData);
      TurnStands(size, burstSize, burstData, |bursts|, remaining, left, bytes);
      var b := Burst(sourceNext, targetNext, beats - 1);
      NextIsBurst(b, from, to, size, burstData, |bursts|);
      RunBurst(source, target, b);
      CopiedTwice(source[..], from, was, to, Moved(size, burstData, |bursts|), bytes);
      sourceNext, targetNext := U32(sourceNext + bytes), U32(targetNext + bytes);
      bursts := bursts + [b];
      remaining := left;
    }
    AllMoved(size, burstData, |bursts|);
  }

  // ---------------------------------------------------------------- what the bursts add up to

  /** The burst moves the byte at offset x of the copy. */
  ghost predicate Moves(b: Burst, from: nat, to: nat, x: nat)
  {
    && b.source <= from + x < b.source + BEAT * (b.beatsLessOne + 1)
    && b.target <= to + x < b.target + BEAT * (b.beatsLessOne + 1)
  }

  lemma BurstSpan(b: Burst, from: nat, to: nat, size: nat, burstData: nat, k: nat, x: nat)
    requires burstData > 0 && burstData % BEAT == 0 && k < Count(size, burstData) && IsBurst(b, from, to, size, burstData, k)
    ensures Moves(b, from, to, x) <==> Offset(burstData, k) <= x < RoundUp(size) && x < Offset(burstData, k + 1)
  {
    var c := Count(size, burstData);
    CountIs(size, burstData, c);
    OffsetNext(burstData, k);
    OffsetAligned(burstData, k + 1);
    if k + 1 < c {
      OffsetsOrdered(burstData, k + 1, c - 1);
    }
    assert RoundUp(size) <= Offset(burstData, c) by {
      OffsetAligned(burstData, c);
      hide Offset, Count;
      RoundUpIsLeast(size, Offset(burstData, c));
    }
    hide Offset, Count, RoundUp;
  }

  lemma RoundUpIsLeast(n: nat, m: nat)
    requires n <= m && m % BEAT == 0
    ensures RoundUp(n) <= m
  {
  }

  /** The bursts tile the rounded range: every byte of it is moved by exactly one, no other by any. */
  lemma BurstsTile(bursts: seq<Burst>, from: nat, to: nat, size: nat, burstData: nat, x: nat)
    requires burstData > 0 && burstData % BEAT == 0 && Bursts(bursts, from, to, size, burstData)
    ensures x < RoundUp(size) <==> exists k | 0 <= k < |bursts| :: Moves(bursts[k], from, to, x)
    ensures forall j, k | 0 <= j < |bursts| && 0 <= k < |bursts| && Moves(bursts[j], from, to, x) && Moves(bursts[k], from, to, x) :: j == k
  {
    forall k | 0 <= k < |bursts|
      ensures Moves(bursts[k], from, to, x) <==> x < RoundUp(size) && k == x / burstData
    {
      BurstSpan(bursts[k], from, to, size, burstData, k, x);
      Quotient(x, burstData, k);
      hide Offset, Count, RoundUp, IsBurst, Moves;
    }
    if x < RoundUp(size) {
      QuotientInRange(size, burstData, x);
      hide Count, RoundUp, IsBurst, Moves;
      assert Moves(bursts[x / burstData], from, to, x);
    }
  }

  lemma Quotient(x: nat, d: nat, k: nat)
    requires d > 0
    ensures Offset(d, k) <= x < Offset(d, k + 1) <==> k == x / d
  {
    var q := x / d;
    assert Offset(d, q) <= x < Offset(d, q + 1);
    if k < q {
      OffsetsOrdered(d, k + 1, q);
    } else if k > q {
      OffsetsOrdered(d, q + 1, k);
    }
  }

  lemma QuotientInRange(size: nat, burstData: nat, x: nat)
    requires burstData > 0 && burstData % BEAT == 0 && x < RoundUp(size)
    ensures x / burstData < Count(size, burstData)
  {
    assert size > 0;
    hide Count, RoundUp, Offset;
    var c, q := Count(size, burstData), x / burstData;
    CountIs(size, burstData, c);
    OffsetAligned(burstData, c);
    RoundUpIsLeast(size, Offset(burstData, c));
    Quotient(x, burstData, q);
    if c <= q {
      OffsetsOrdered(burstData, c, q);
      assert false;
    }
  }

  // ---------------------------------------------------------------- transactions

  /** `init_trans`. */
  function InitTransaction(ps: nat, pl: nat, size: nat): (t: Transaction)
    requires size < LIMIT
    ensures Legal(t.size, t.burstSize, t.burstData)
  {
    var burstData := BEAT * BURST_SIZE;
    Transaction(size, BURST_SIZE, burstData, U32(size - 1) / burstData + 1, ps, pl)
  }

  /** The announced number of bursts is the number the driver makes, exactly for a size that is not zero. */
  lemma AnnouncedCount(ps: nat, pl: nat, size: nat)
    requires size < LIMIT
    ensures InitTransaction(ps, pl, size).burstCount == Count(size, BEAT * BURST_SIZE) <==> size > 0
    ensures size == 0 ==> InitTransaction(ps, pl, size).burstCount == 4096
  {
    if size == 0 {
      assert U32(-1) == 0xFFFF_FFFF;
    }
  }

  /** The transaction's range lies in both memories. */
  ghost predicate InRange(t: Transaction, psLength: nat, plLength: nat)
  {
    && Legal(t.size, t.burstSize, t.burstData)
    && t.ps + RoundUp(t.size) <= psLength <= LIMIT && t.pl + RoundUp(t.size) <= plLength <= LIMIT
  }

  method PsToPl(t: Transaction, ps: array<Byte>, pl: array<Byte>) returns (bursts: seq<Burst>)
    requires ps != pl && InRange(t, ps.Length, pl.Length)
    modifies pl
    ensures Bursts(bursts, t.ps, t.pl, t.size, t.burstData)
    ensures pl[..] == Copied(ps[..], t.ps, old(pl[..]), t.pl, RoundUp(t.size))
  {
    bursts := MoveBursts(ps, pl, t.ps, t.pl, t.size, t.burstSize, t.burstData);
  }

  method PlToPs(t: Transaction, ps: array<Byte>, pl: array<Byte>) returns (bursts: seq<Burst>)
    requires ps != pl && InRange(t, ps.Length, pl.Length)
    modifies ps
    ensures Bursts(bursts, t.pl, t.ps, t.size, t.burstData)
    ensures ps[..] == Copied(pl[..], t.pl, old(ps[..]), t.ps, RoundUp(t.size))
  {
    bursts := MoveBursts(pl, ps, t.pl, t.ps, t.size, t.burstSize, t.burstData);
  }

  /**
   Out with size n and back with size m: whatever the target held, it holds the source's bytes up to
   the smaller size, and nothing past the rounded end of what came back changes.
   */
  lemma CopyRestores(source: seq<Byte>, a: nat, middle: seq<Byte>, b: nat, target: seq<Byte>, c: nat, n: nat, m: nat)
    requires a + n <= |source| && b + n <= |middle| && b + m <= |middle| && c + m <= |target|
    ensures var back, k := Copied(Copied(source, a, middle, b, n), b, target, c, m), if n < m then n else m;
            && back[c..c + k] == source[a..a + k]
            && back[..c] == target[..c] && back[c + m..] == target[c + m..]
  {
    var out, k := Copied(source, a, middle, b, n), if n < m then n else m;
    hide Copied;
    CopiedPart(source, a, middle, b, n, k);
    CopiedPart(out, b, target, c, m, k);
  }

  lemma CopiedPart(source: seq<Byte>, from: nat, target: seq<Byte>, to: nat, m: nat, k: nat)
    requires from + m <= |source| && to + m <= |target| && k <= m
    ensures var r := Copied(source, from, target, to, m);
            r[to..to + k] == source[from..from + k] && r[..to] == target[..to] && r[to + m..] == target[to + m..]
  {
    var r := Copied(source, from, target, to, m);
    assert r[to..to + m] == source[from..from + m];
    assert r[to..to + k] == r[to..to + m][..k] && source[from..from + k] == source[from..from + m][..k];
  }

  lemma SlicesShorten(s: seq<Byte>, i: nat, t: seq<Byte>, j: nat, n: nat, k: nat)
    requires k <= n && i + n <= |s| && j + n <= |t| && s[i..i + n] == t[j..j + n]
    ensures s[i..i + k] == t[j..j + k]
  {
    assert s[i..i + k] == s[i..i + n][..k] && t[j..j + k] == t[j..j + n][..k];
  }

  /** The memory a loop-back leaves on the PS side. */
  function LoopedBack(out: Transaction, back: Transaction, ps: seq<Byte>, pl: seq<Byte>): (r: seq<Byte>)
    requires InRange(out, |ps|, |pl|) && InRange(back, |ps|, |pl|) && out.pl == back.pl
    ensures |r| == |ps|
  {
    Copied(Copied(ps, out.ps, pl, out.pl, RoundUp(out.size)), back.pl, ps, back.ps, RoundUp(back.size))
  }

  /** It delivers the sent bytes at the receive address, as many as both sizes allow. */
  lemma LoopbackRestores(out: Transaction, back: Transaction, ps: seq<Byte>, pl: seq<Byte>)
    requires InRange(out, |ps|, |pl|) && InRange(back, |ps|, |pl|) && out.pl == back.pl
    ensures var r, k := LoopedBack(out, back, ps, pl), if out.size < back.size then out.size else back.size;
            && r[back.ps..back.ps + k] == ps[out.ps..out.ps + k]
            && r[..back.ps] == ps[..back.ps] && r[back.ps + RoundUp(back.size)..] == ps[back.ps + RoundUp(back.size)..]
  {
    hide RoundUp, Copied, Legal;
    var n, m := RoundUp(out.size), RoundUp(back.size);
    var k, big := if out.size < back.size then out.size else back.size, if n < m then n else m;
    var r := LoopedBack(out, back, ps, pl);
    CopyRestores(ps, out.ps, pl, out.pl, ps, back.ps, n, m);
    SlicesShorten(r, back.ps, ps, out.ps, big, k);
  }

  /** The driver's loop-back: `out` to the other memory under the same address, then `back` from there. */
  method Loopback(out: Transaction, back: Transaction, ps: array<Byte>, pl: array<Byte>)
    requires ps != pl && InRange(out, ps.Length, pl.Length) && InRange(back, ps.Length, pl.Length)
    requires out.pl == back.pl == out.ps
    modifies ps, pl
    ensures ps[..] == LoopedBack(out, back, old(ps[..]), old(pl[..]))
    ensures pl[..] == Copied(old(ps[..]), out.ps, old(pl[..]), out.pl, RoundUp(out.size))
  {
    hide RoundUp, Bursts, Copied, Legal;
    var sent := PsToPl(out, ps, pl);
    var received := PlToPs(back, ps, pl);
  }

  // ---------------------------------------------------------------- writing and reading the PL memory

  /** The target memory byte by byte: the rounded range comes from the source, all else stays. */
  ghost predicate IsCopy(source: seq<Byte>, from: nat, was: seq<Byte>, to: nat, n: nat, now: seq<Byte>)
    requires from + n <= |source| && to + n <= |was| == |now|
  {
    forall k | 0 <= k < |now| :: now[k] == if to <= k < to + n then source[from + k - to] else was[k]
  }

  lemma CopiedIsCopy(source: seq<Byte>, from: nat, target: seq<Byte>, to: nat, n: nat)
    requires from + n <= |source| && to + n <= |target|
    ensures IsCopy(source, from, target, to, n, Copied(source, from, target, to, n))
  {
  }

  /** The bursts of a copy of that size: 65536 beats each but for the last, a mebibyte apart. */
  ghost predicate FullBursts(bursts: seq<Burst>, from: nat, to: nat, size: nat)
  {
    forall k | 0 <= k < |bursts| ::
      && bursts[k].source == from + 0x10_0000 * k && bursts[k].target == to + 0x10_0000 * k
      && if k + 1 < |bursts| then bursts[k].beatsLessOne == 65535
         else 0x10_0000 * k + 16 * (bursts[k].beatsLessOne + 1) == (size + 15) / 16 * 16
  }

  lemma BurstsAreFull(bursts: seq<Burst>, from: nat, to: nat, size: nat)
    requires Bursts(bursts, from, to, size, 0x10_0000)
    ensures FullBursts(bursts, from, to, size)
  {
    forall k | 0 <= k < |bursts| ensures IsBurst(bursts[k], from, to, size, 0x10_0000, k) {
    }
    assert RoundUp(size) == (size + 15) / 16 * 16;
    hide RoundUp, Count;
  }

  /** `pl_write`: the bytes at psAddr go to plAddr, in as many bursts as announced. */
  method PlWrite(ps: array<Byte>, pl: array<Byte>, psAddr: nat, plAddr: nat, size: nat) returns (t: Transaction, bursts: seq<Burst>)
    requires ps != pl && size < LIMIT && psAddr + RoundUp(size) <= ps.Length <= LIMIT && plAddr + RoundUp(size) <= pl.Length <= LIMIT
    modifies pl
    ensures IsCopy(ps[..], psAddr, old(pl[..]), plAddr, RoundUp(size), pl[..])
    ensures FullBursts(bursts, psAddr, plAddr, size) && (|bursts| == t.burstCount <==> size > 0)
  {
    t := InitTransaction(psAddr, plAddr, size);
    AnnouncedCount(psAddr, plAddr, size);
    CopiedIsCopy(ps[..], psAddr, pl[..], plAddr, RoundUp(size));
    bursts := PsToPl(t, ps, pl);
    BurstsAreFull(bursts, psAddr, plAddr, size);
  }

  /** `pl_read`: the bytes at plAddr go to psAddr. */
  method PlRead(ps: array<Byte>, pl: array<Byte>, psAddr: nat, plAddr: nat, size: nat) returns (t: Transaction, bursts: seq<Burst>)
    requires ps != pl && size < LIMIT && psAddr + RoundUp(size) <= ps.Length <= LIMIT && plAddr + RoundUp(size) <= pl.Length <= LIMIT
    modifies ps
    ensures IsCopy(pl[..], plAddr, old(ps[..]), psAddr, RoundUp(size), ps[..])
    ensures FullBursts(bursts, plAddr, psAddr, size) && (|bursts| == t.burstCount <==> size > 0)
  {
    t := InitTransaction(psAddr, plAddr, size);
    AnnouncedCount(psAddr, plAddr, size);
    CopiedIsCopy(pl[..], plAddr, ps[..], psAddr, RoundUp(size));
    bursts := PlToPs(t, ps, pl);
    BurstsAreFull(bursts, plAddr, psAddr, size);
  }

  /** What is written to the PL memory and read back, to wherever, is the same. */
  lemma WrittenReadsBack(ps: seq<Byte>, a: nat, pl: seq<Byte>, b: nat, written: seq<Byte>, ps': seq<Byte>, c: nat, read: seq<Byte>, size: nat)
    requires a + RoundUp(size) <= |ps| && b + RoundUp(size) <= |pl| == |written| && c + RoundUp(size) <= |ps'| == |read|
    requires IsCopy(ps, a, pl, b, RoundUp(size), written) && IsCopy(written, b, ps', c, RoundUp(size), read)
    ensures read[c..c + size] == ps[a..a + size]
  {
    hide RoundUp;
  }
}
