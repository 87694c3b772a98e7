/** Numbers in the memory of a little-endian host. */
module Memory {
  import opened Words

  /** v in n bytes, low byte first. */
  function LE(v: nat, n: nat): (r: seq<Byte>)
    ensures |r| == n
  {
    if n == 0 then [] else [v % 256] + LE(v / 256, n - 1)
  }

  function FromLE(b: seq<Byte>): (v: nat)
  {
    if b == [] then 0 else b[0] + 256 * FromLE(b[1..])
  }

  function Range(n: nat): (r: nat)
  {
    if n == 0 then 1 else 256 * Range(n - 1)
  }

  lemma {:induction false} ReadsBack(v: nat, n: nat)
    requires v < Range(n)
    ensures FromLE(LE(v, n)) == v
  {
    if n > 0 {
      ReadsBack(v / 256, n - 1);
    }
  }

  lemma {:induction false} WritesBack(b: seq<Byte>)
    ensures LE(FromLE(b), |b|) == b && FromLE(b) < Range(|b|)
  {
    if b != [] {
      WritesBack(b[1..]);
    }
  }

  lemma TwoBytes(c: Byte, d: Byte)
    ensures FromLE([c, d]) == c + 256 * d
  {
    assert [c, d][1..] == [d] && [d][1..] == [];
    assert FromLE([d]) == d;
  }

  /** High byte first. */
  function BigEndian16(v: nat): (r: seq<Byte>)
  {
    [v / 0x100 % 256, v % 256]
  }

  function BigEndian24(v: nat): (r: seq<Byte>)
  {
    [v / 0x1_0000 % 256, v / 0x100 % 256, v % 256]
  }

  function BigEndian32(v: nat): (r: seq<Byte>)
  {
    [v / 0x100_0000 % 256, v / 0x1_0000 % 256, v / 0x100 % 256, v % 256]
  }

  lemma BytesOf(v: nat)
    ensures LE(v, 2) == [v % 256, v / 0x100 % 256]
    ensures LE(v, 3) == [v % 256, v / 0x100 % 256, v / 0x1_0000 % 256]
    ensures LE(v, 4) == [v % 256, v / 0x100 % 256, v / 0x1_0000 % 256, v / 0x100_0000 % 256]
  {
    var a, b, c := v / 256, v / 256 / 256, v / 256 / 256 / 256;
    assert a / 256 == b && b / 256 == c && b == v / 0x1_0000 && c == v / 0x100_0000;
    assert LE(c, 0) == [] && LE(c, 1) == [c % 256];
    assert LE(b, 0) == [] && LE(b, 1) == [b % 256] && LE(b, 2) == [b % 256, c % 256];
    assert LE(a, 0) == [] && LE(a, 1) == [a % 256] && LE(a, 2) == [a % 256, b % 256] && LE(a, 3) == [a % 256, b % 256, c % 256];
  }
}
