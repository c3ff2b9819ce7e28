/** The C types the benchmark works with: the `unsigned char` coordinates of
    a vector, the 32-bit `int` that accumulates a distance, and the bit
    pattern of a byte. */
module CTypes {
  /** The largest and smallest values of a 32-bit C `int`. */
  const INT_MAX: int := 0x7FFF_FFFF
  const INT_MIN: int := -0x8000_0000

  /** An `unsigned char`, by its value. */
  newtype byte = x: int | 0 <= x < 256

  /** The outcome of a call that may throw: its value, or the message of the
      exception. */
  datatype Result<T> = Success(value: T) | Failure(error: string)

  /** C `int` addition; it is defined only when the sum does not overflow. */
  function IntAdd(a: int, b: int): (r: int)
    requires INT_MIN <= a + b <= INT_MAX
    ensures INT_MIN <= r <= INT_MAX
  {
    a + b
  }

  function Abs(x: int): nat
  {
    if x < 0 then -x else x
  }

  /** The bit pattern of a byte: bit 0 holds its parity, the bits above it
      the pattern of the byte halved. */
  function ToBits(a: byte): bv8
    decreases a
  {
    if a == 0 then 0 else (ToBits(a / 2) << 1) | (if a % 2 == 1 then 1 else 0)
  }

  /** The bit pattern of a byte, read as an unsigned number, is the byte. */
  lemma {:induction false} ToBitsValue(a: byte)
    ensures ToBits(a) as int == a as int
    decreases a
  {
    if a != 0 {
      ToBitsValue(a / 2);
    }
  }

  /** Two bytes have the same bit pattern exactly when they are equal. */
  lemma BitsInjective(a: byte, b: byte)
    ensures ToBits(a) == ToBits(b) <==> a == b
  {
    ToBitsValue(a);
    ToBitsValue(b);
  }
}
