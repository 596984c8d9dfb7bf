// The parts of C integer arithmetic that the calendar leans on: division that
// truncates toward zero, `unsigned` arithmetic modulo 2^32 and the conversion
// of a wide value to `int`.
module CInt {

  const TWO32: int := 0x1_0000_0000
  const TWO31: int := 0x8000_0000
  const TWO63: int := 0x8000_0000_0000_0000

  type int32 = x: int | -0x8000_0000 <= x < 0x8000_0000
  type int64 = x: int | -0x8000_0000_0000_0000 <= x < 0x8000_0000_0000_0000
  type uint32 = x: int | 0 <= x < 0x1_0000_0000

  predicate FitsInt32(x: int) {
    -TWO31 <= x < TWO31
  }

  predicate FitsInt64(x: int) {
    -TWO63 <= x < TWO63
  }

  // C's `/` for a positive divisor: truncation toward zero.
  function Quot(a: int, b: int): int
    requires b > 0
  {
    if a >= 0 then a / b else -((-a) / b)
  }

  // C's `%` for a positive divisor: the remainder has the sign of the dividend.
  function Rem(a: int, b: int): int
    requires b > 0
  {
    a - b * Quot(a, b)
  }

  // Conversion to `unsigned`, and the result of every `unsigned` operation.
  function U32(x: int): (r: uint32)
    ensures 0 <= x < TWO32 ==> r == x
  {
    x % TWO32
  }

  // Conversion to `int`: two's complement wrap-around.
  function ToInt32(x: int): (r: int32)
    ensures FitsInt32(x) ==> r == x
    ensures exists k: int :: r == x + k * TWO32
  {
    var r := (x + TWO31) % TWO32 - TWO31;
    assert r == x + (-((x + TWO31) / TWO32)) * TWO32;
    r
  }
}
