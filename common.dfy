/** Shared vocabulary: an optional value, C unsigned integers, a minimum and errno values. */
module Common {

  /** A value that may be absent, as a NULL-able pointer is in C. */
  datatype Option<T> = None | Some(value: T)

  /** The C `unsigned int` / `u32` range. */
  const U32_MODULUS: nat := 0x1_0000_0000
  type U32 = x: nat | x < U32_MODULUS

  /** The C `u16` range. */
  const U16_MODULUS: nat := 0x1_0000

  // errno values (asm-generic/errno-base.h, asm-generic/errno.h)
  const EIO: int := 5
  const EILSEQ: int := 84
  const ETIMEDOUT: int := 110
  const ENOMEDIUM: int := 123

  function Min(a: nat, b: nat): (m: nat)
    ensures m <= a && m <= b && (m == a || m == b)
  {
    if a <= b then a else b
  }
}
