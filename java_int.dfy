/** Java's 32-bit `int` arithmetic, as far as the modelled code depends on it. */
module JavaInt {

  /** A byte as `InputStream.read()` hands it out: an `int` from 0 to 255. */
  newtype byte = x: int | 0 <= x < 256

  const IntMin: int := -0x8000_0000
  const IntMax: int := 0x7fff_ffff

  /** The values a Java `int` can hold. */
  predicate IsInt(x: int) {
    IntMin <= x <= IntMax
  }

  /** Two's-complement wrap-around of a mathematical integer into the `int` range. */
  function Wrap(x: int): (r: int)
    ensures IsInt(r)
    ensures (r - x) % 0x1_0000_0000 == 0
    ensures IsInt(x) ==> r == x
  {
    (x - IntMin) % 0x1_0000_0000 + IntMin
  }

  /** Java's `/` with a positive divisor: the quotient is truncated toward zero. */
  function Div(a: int, b: int): (q: int)
    requires b > 0
    ensures a >= 0 ==> q == a / b
    ensures a < 0 ==> q <= 0 && q * b - b < a <= q * b
  {
    if a >= 0 then a / b else -((-a) / b)
  }

  /** The truncated quotient is bracketed by the dividend: `q * b <= a < (q + 1) * b` for a non-negative dividend. */
  lemma DivBounds(a: int, b: int)
    requires a >= 0 && b > 0
    ensures Div(a, b) * b <= a < Div(a, b) * b + b
  {
    assert a == (a / b) * b + a % b;
  }

  /** `Math.abs` on an `int`: the absolute value of `IntMin` wraps to itself. */
  function Abs(x: int): (r: int)
    requires IsInt(x)
    ensures IsInt(r)
    ensures x != IntMin ==> r >= 0 && (r == x || r == -x)
    ensures x == IntMin ==> r == IntMin
  {
    Wrap(if x < 0 then -x else x)
  }

  function Min(a: int, b: int): (r: int)
    ensures r <= a && r <= b && (r == a || r == b)
  {
    if a <= b then a else b
  }

  function Max(a: int, b: int): (r: int)
    ensures r >= a && r >= b && (r == a || r == b)
  {
    if a >= b then a else b
  }
}
