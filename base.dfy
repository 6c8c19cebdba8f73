/**
 * Shared vocabulary of the model: an Option type, bytes, and the C integer
 * conventions (truncating division, 32-bit two's-complement wrap-around)
 * that the source's `int` arithmetic follows.
 */
module Base {

  datatype Option<+T> = None | Some(value: T)

  /** An unsigned byte. */
  type Byte = b: int | 0 <= b < 256

  /** A byte of a C string: never NUL, since NUL ends the string. */
  type KeyByte = b: int | 1 <= b < 256 witness 1

  /** A key of the hash tables: the bytes of a C string without its terminator. */
  type Key = seq<KeyByte>

  const INT_MIN: int := -0x8000_0000
  const INT_MAX: int := 0x7fff_ffff

  /** C's `/` on `int`: the quotient is truncated toward zero. */
  function CDiv(a: int, b: int): (q: int)
    requires b > 0
    ensures a >= 0 ==> q == a / b
    ensures a < 0 ==> q == -((-a) / b)
  {
    if a >= 0 then a / b else -((-a) / b)
  }

  /** C's `%` on `int`: the remainder takes the sign of the dividend. */
  function CRem(a: int, b: int): (r: int)
    requires b > 0
    ensures a == b * CDiv(a, b) + r
    ensures a >= 0 ==> 0 <= r < b
    ensures a < 0 ==> -b < r <= 0
  {
    if a >= 0 then a % b else -((-a) % b)
  }

  /** The value a 32-bit `int` holds after arithmetic that produced `x`
      (two's-complement wrap-around, as the usual hardware does). */
  function Wrap32(x: int): (w: int)
    ensures INT_MIN <= w <= INT_MAX
    ensures (w - x) % 0x1_0000_0000 == 0
    ensures INT_MIN <= x <= INT_MAX ==> w == x
  {
    var m := x % 0x1_0000_0000;
    if m <= INT_MAX then m else m - 0x1_0000_0000
  }

  /** 2^31, one past the largest `int`, wraps around to the smallest. */
  lemma WrapPastMax()
    ensures Wrap32(INT_MAX + 1) == INT_MIN
  {
    assert (INT_MAX + 1) % 0x1_0000_0000 == INT_MAX + 1;
  }
}
