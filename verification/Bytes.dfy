/** Fixed-width unsigned integers as bounded mathematical integers, and the
    big-endian pairs the wire formats are made of. */
module Bytes {
  type Byte = x: int | 0 <= x < 0x100
  type U16 = x: int | 0 <= x <= MAX_U16
  type U32 = x: int | 0 <= x <= MAX_U32

  const MAX_U16 := 0xFFFF
  const MAX_U32 := 0xFFFF_FFFF
  const MAX_INT := 0x7FFF_FFFF_FFFF_FFFF // Go's int on a 64-bit platform

  /** binary.BigEndian.Uint16 at an offset. The two bytes of x are x / 256 and x % 256. */
  function U16At(bytes: seq<Byte>, at: nat): U16
    requires at + 2 <= |bytes|
  {
    256 * (bytes[at] as int) + bytes[at + 1]
  }

  const U32_SPAN := 0x1_0000_0000 // uint32 arithmetic wraps modulo this

  /** The byte widths an S7 element can have. */
  type Width = x: int | x == 1 || x == 2 || x == 4 witness 1

  function Min(left: int, right: int): int {
    if left < right then left else right
  }

  function Pow2(exponent: nat): (power: nat)
    ensures power >= 1
  {
    if exponent == 0 then 1 else 2 * Pow2(exponent - 1)
  }

  lemma {:induction false} AtLeastOnce(factor: int, value: int)
    requires factor >= 1 && value >= 0
    ensures factor * value >= value
  {
    assert (factor - 1) * value >= 0;
  }

  lemma {:induction false} QuotientOf(value: int, divisor: int, quotient: int, remainder: int)
    requires divisor > 0 && 0 <= remainder < divisor && value == quotient * divisor + remainder
    ensures value / divisor == quotient && value % divisor == remainder
  {
    var other, rest := value / divisor, value % divisor;
    assert value == other * divisor + rest;
    assert (other - quotient) * divisor == other * divisor - quotient * divisor;
    assert (quotient - other) * divisor == quotient * divisor - other * divisor;
    if other > quotient {
      AtLeastOnce(other - quotient, divisor);
    } else if other < quotient {
      AtLeastOnce(quotient - other, divisor);
    }
  }
}
