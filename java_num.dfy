/**
 * The parts of Java's numeric semantics the agents rely on: 32-bit int bounds,
 * the (int) cast of a double, truncating integer division and Double.compare.
 * Doubles are modelled as reals; rounding of double arithmetic is not modelled.
 */
module JavaNum {
  const INT_MAX: int := 0x7fff_ffff
  const INT_MIN: int := -0x8000_0000

  /** Double.MAX_VALUE, the heuristic given to blocked grid cells and the initial "minimum" distances. */
  const DOUBLE_MAX: real := 179769313486231570000000000000000000000000000000000000000000000000000000000000000000000000000000000000000000000000000000000000000000000000000000000000000000000000000000000000000000000000000000000000000000000000000000000000000000000000000000000000000000000000000000000000000000000000000000000000000000000000.0

  predicate IsInt32(x: int) { INT_MIN <= x <= INT_MAX }

  /** A position in the plane, as the simulator's Position (x, y). */
  datatype Position = Position(x: real, y: real)

  /** Java's (int) cast of a finite double: truncation toward zero, saturating at the int bounds. */
  function IntCast(x: real): (r: int)
    ensures IsInt32(r)
    ensures 0.0 <= x < INT_MAX as real ==> r as real <= x < r as real + 1.0
    ensures INT_MIN as real < x < 0.0 ==> r as real - 1.0 < x <= r as real
    ensures x >= INT_MAX as real ==> r == INT_MAX
    ensures x <= INT_MIN as real ==> r == INT_MIN
  {
    if x >= INT_MAX as real then INT_MAX
    else if x <= INT_MIN as real then INT_MIN
    else if x >= 0.0 then x.Floor
    else -((-x).Floor)
  }

  /** A value between two consecutive non-negative ints casts to the lower one. */
  lemma IntCastBracket(x: real, i: int)
    requires 0 <= i < INT_MAX && i as real <= x < (i + 1) as real
    ensures IntCast(x) == i
  {
  }

  /** Java's int division by a positive divisor: the quotient is truncated toward zero. */
  function Quot(a: int, b: int): (q: int)
    requires b > 0
    ensures 0 <= a ==> 0 <= q * b <= a < q * b + b
    ensures a < 0 ==> q * b - b < a <= q * b <= 0
  {
    if a >= 0 then DivBounds(a, b); a / b
    else DivBounds(-a, b); -((-a) / b)
  }

  lemma DivBounds(a: nat, b: int)
    requires b > 0
    ensures 0 <= (a / b) * b <= a < (a / b) * b + b
  {
    assert a == (a / b) * b + a % b;
  }

  /** Double.compare on non-NaN values: negative, zero or positive as a is below, equal to or above b. */
  function DoubleCompare(a: real, b: real): int
  {
    if a < b then -1 else if a > b then 1 else 0
  }

  lemma DoubleCompareSign(a: real, b: real)
    ensures DoubleCompare(a, b) < 0 <==> a < b
    ensures DoubleCompare(a, b) == 0 <==> a == b
    ensures DoubleCompare(a, b) == -DoubleCompare(b, a)
  {
  }
}
