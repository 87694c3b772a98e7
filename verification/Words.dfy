/** Fixed-width integer arithmetic of the host. */
module Words {
  import opened Arithmetic

  type Byte = b: nat | b < 256

  /** Unsigned 64-bit arithmetic wraps around. */
  function U64(x: int): (r: nat)
    ensures 0 <= x < WORD ==> r == x
  {
    x % WORD
  }

  /** Conversion to an unsigned 32-bit word wraps around. */
  function U32(x: int): (r: nat)
    ensures 0 <= x < 0x1_0000_0000 ==> r == x
  {
    x % 0x1_0000_0000
  }

  predicate IsInt16(x: int)
  {
    -0x8000 <= x < 0x8000
  }

  predicate IsInt32(x: int)
  {
    -0x8000_0000 <= x < 0x8000_0000
  }

  /** Signed 32-bit arithmetic is defined only where the result fits. */
  function I32(x: int): (r: int)
    requires IsInt32(x)
  {
    x
  }

  /** Signed 64-bit arithmetic is defined only where the result fits. */
  function I64(x: int): (r: int)
    requires -(WORD / 2) <= x < WORD / 2
  {
    x
  }
}
