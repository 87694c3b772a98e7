/** The output stream that packs bits into bytes, most significant bit first. */
module BitStream {
  import opened Arithmetic
  import opened BitOps
  import opened RangeCoder
  import opened Words

  /** The low n bits of v, most significant first. */
  function LowBits(v: nat, n: nat): (r: seq<Bit>)
    ensures |r| == n
  {
    if n == 0 then [] else LowBits(v / 2, n - 1) + [v % 2]
  }

  /** The bits of a byte string, most significant first within each byte. */
  function BitsOf(bytes: seq<Byte>): (r: seq<Bit>)
    ensures |r| == 8 * |bytes|
  {
    if bytes == [] then [] else BitsOf(bytes[..|bytes| - 1]) + LowBits(bytes[|bytes| - 1], 8)
  }

  lemma BitsOfAppend(bytes: seq<Byte>, b: Byte)
    ensures BitsOf(bytes + [b]) == BitsOf(bytes) + LowBits(b, 8)
  {
    var t := bytes + [b];
    assert t[..|t| - 1] == bytes;
  }

  lemma {:induction false} LowBitsAt(v: nat, n: nat, j: nat)
    requires j < n
    ensures LowBits(v, n)[j] == v / Pow2(n - 1 - j) % 2
  {
    if j < n - 1 {
      LowBitsAt(v / 2, n - 1, j);
      HalvedQuotient(v, Pow2(n - 2 - j));
    }
  }

  lemma HalvedQuotient(v: nat, p: nat)
    requires p > 0
    ensures v / 2 / p == v / (2 * p)
  {
    var q := v / (2 * p);
    DivBounds(v, 2 * p);
    DivAtLeast(v, 2 * p, 0);
    assert q * (2 * p) == 2 * (q * p) && (q + 1) * (2 * p) == 2 * ((q + 1) * p);
    DivAtLeast(v / 2, p, q);
    DivBelow(v / 2, p, q + 1);
  }

  /** Bit j of byte k is bit 8k + j of the stream, the bit worth 128 first. */
  lemma {:induction false} BitsOfAt(bytes: seq<Byte>, k: nat, j: nat)
    requires k < |bytes| && j < 8
    ensures BitsOf(bytes)[8 * k + j] == bytes[k] / Pow2(7 - j) % 2
    decreases |bytes|
  {
    if k == |bytes| - 1 {
      LowBitsAt(bytes[k], 8, j);
    } else {
      BitsOfAt(bytes[..|bytes| - 1], k, j);
    }
    hide LowBits, Pow2;
  }

  lemma BelowPow8(v: nat)
    requires v < Pow2(8)
    ensures v < 256
  {
  }

  /** The byte stored for v, whichever way the host's `char` branch goes. */
  function Uint8(v: nat, charIsSigned: bool): (r: Byte)
    requires v < 256
    ensures r == v
  {
    var c: int := if charIsSigned then v - v / 128 * 256 else v;
    c % 256
  }

  class BitOutputStream {
    var currentByte: nat
    var numBitsFilled: nat
    var size: nat
    const buffer: array<Byte>
    /** Where in the buffer the stream starts: the address handed to the constructor. */
    const start: nat
    /** Whether plain `char` is signed on the host, on which the source branches. */
    const charIsSigned: bool

    ghost predicate Consistent()
      reads this
    {
      currentByte < Pow2(numBitsFilled) && start + size <= buffer.Length
    }

    ghost predicate Valid()
      reads this
    {
      Consistent() && numBitsFilled < 8
    }

    function Bytes(): (r: seq<Byte>)
      requires start + size <= buffer.Length
      reads this, buffer
    {
      buffer[start..start + size]
    }

    /** What lies in the buffer before the stream. */
    function Header(): (r: seq<Byte>)
      requires start <= buffer.Length
      reads buffer
    {
      buffer[..start]
    }

    /** Every bit written so far. */
    ghost function Bits(): (r: seq<Bit>)
      requires Consistent()
      reads this, buffer
      ensures |r| == 8 * size + numBitsFilled
    {
      BitsOf(Bytes()) + LowBits(currentByte, numBitsFilled)
    }

    /** The buffer has room for n more bits. */
    ghost predicate Room(n: nat)
      reads this
    {
      8 * (start + size) + numBitsFilled + n <= 8 * buffer.Length
    }

    constructor (buffer: array<Byte>, start: nat, charIsSigned: bool)
      requires start <= buffer.Length
      ensures this.buffer == buffer && this.start == start
      ensures Valid() && Bits() == []
    {
      this.currentByte, this.numBitsFilled, this.size := 0, 0, 0;
      this.buffer, this.start, this.charIsSigned := buffer, start, charIsSigned;
    }

    /** Rejects anything but a bit; the source throws `domain_error`. */
    method Write(b: int) returns (ok: bool)
      requires Valid() && Room(1)
      modifies this, buffer
      ensures Valid()
      ensures ok == (b == 0 || b == 1)
      ensures ok ==> Bits() == old(Bits()) + [b]
      ensures !ok ==> Bits() == old(Bits())
      ensures Header() == old(Header())
    {
      if b != 0 && b != 1 {
        return false;
      }
      Append(b);
      if numBitsFilled == 8 {
        StoreByte();
      }
      return true;
    }

    method Append(b: nat)
      requires Valid() && b < 2
      modifies this
      ensures Consistent() && Bits() == old(Bits()) + [b]
      ensures size == old(size) && numBitsFilled == old(numBitsFilled) + 1
    {
      AppendBit(currentByte, b, numBitsFilled);
      currentByte := Or(currentByte * 2, b);
      numBitsFilled := numBitsFilled + 1;
    }

    method StoreByte()
      requires Consistent() && numBitsFilled == 8 && start + size < buffer.Length
      modifies this, buffer
      ensures Valid() && Bits() == old(Bits())
      ensures size == old(size) + 1 && numBitsFilled == 0
      ensures Header() == old(Header())
    {
      hide BitsOf, Pow2, Or;
      ghost var bytes := Bytes();
      BelowPow8(currentByte);
      BitsOfAppend(bytes, currentByte);
      buffer[start + size] := Uint8(currentByte, charIsSigned);
      size := size + 1;
      assert Bytes() == bytes + [currentByte];
      currentByte := 0;
      numBitsFilled := 0;
    }

    /** Pads the last byte with zeros. */
    method Finish()
      requires Valid() && 8 * (start + size) + (if numBitsFilled == 0 then 0 else 8) <= 8 * buffer.Length
      modifies this, buffer
      ensures Valid() && numBitsFilled == 0
      ensures Bits() == BitsOf(Bytes())
      ensures Padded(old(Bits()), Bits())
      ensures size == old(size) + (if old(numBitsFilled) == 0 then 0 else 1)
      ensures Header() == old(Header())
    {
      while numBitsFilled != 0
        invariant Valid() && Padded(old(Bits()), Bits())
        invariant numBitsFilled == 0 || size == old(size)
        invariant numBitsFilled == 0 ==> size == old(size) + (if old(numBitsFilled) == 0 then 0 else 1)
        invariant Header() == old(Header())
        decreases if numBitsFilled == 0 then 0 else 8 - numBitsFilled
      {
        var ok := Write(0);
      }
    }
  }

  /** t is s followed by zeros. */
  ghost predicate Padded(s: seq<Bit>, t: seq<Bit>)
  {
    |s| <= |t| && t[..|s|] == s && forall i | |s| <= i < |t| :: t[i] == 0
  }

  /** Shifting a bit in from the right appends it to the low bits. */
  lemma AppendBit(v: nat, b: nat, n: nat)
    requires b < 2 && v < Pow2(n)
    ensures Or(v * 2, b) == 2 * v + b < Pow2(n + 1)
    ensures LowBits(2 * v + b, n + 1) == LowBits(v, n) + [b]
  {
    if b == 1 {
      OrOne(v * 2);
    }
  }
}
