/**
 * Go's fixed-width numeric types and the conversions between them that the
 * agent relies on. Conversions wrap modulo 2^n, as Go defines them for
 * integer-to-integer conversions and for overflowing arithmetic.
 */
module GoTypes {

  const TwoTo32: int := 0x1_0000_0000
  const TwoTo63: int := 0x8000_0000_0000_0000
  const TwoTo64: int := 0x1_0000_0000_0000_0000

  newtype byte = x: int | 0 <= x < 256
  newtype int64 = x: int | -0x8000_0000_0000_0000 <= x < 0x8000_0000_0000_0000
  newtype uint32 = x: int | 0 <= x < 0x1_0000_0000
  newtype uint64 = x: int | 0 <= x < 0x1_0000_0000_0000_0000

  /** A float64 carried as its IEEE-754 bit pattern: the agent copies such values and never computes with them. */
  type Float64 = bv64

  /** The int64 that Go's two's-complement arithmetic yields for the mathematical value x. */
  function Wrap64(x: int): (r: int64)
    ensures (r as int - x) % TwoTo64 == 0
    ensures -TwoTo63 <= x < TwoTo63 ==> r as int == x
  {
    var m := x % TwoTo64;
    if m < TwoTo63 then m as int64 else (m - TwoTo64) as int64
  }

  /** Go's `uint32(x)`: keeps the low 32 bits of a two's-complement integer. */
  function ToUint32(x: int): (r: uint32)
    ensures (r as int - x) % TwoTo32 == 0
    ensures 0 <= x < TwoTo32 ==> r as int == x
  {
    (x % TwoTo32) as uint32
  }

  /** Go's `uint64(x)` for an int64 x: a negative value becomes x + 2^64. */
  function ToUint64(x: int64): (r: uint64)
    ensures x >= 0 ==> r as int == x as int
    ensures x < 0 ==> r as int == x as int + TwoTo64
  {
    (x as int % TwoTo64) as uint64
  }
}
