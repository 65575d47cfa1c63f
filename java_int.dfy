/**
 * Java's 32-bit `int`: two's-complement wrap-around of `+` and `*`, and the saturating
 * `(int)` cast of a double.
 */
module JavaInt {

  const MinInt: int := -0x8000_0000
  const MaxInt: int := 0x7FFF_FFFF

  predicate IsInt(x: int) {
    MinInt <= x <= MaxInt
  }

  /** The int that Java's arithmetic leaves for the exact result `x` (wrap-around modulo 2^32). */
  function Wrap(x: int): (r: int)
    ensures IsInt(r)
    ensures IsInt(x) ==> r == x
    ensures (r - x) % 0x1_0000_0000 == 0
  {
    (x - MinInt) % 0x1_0000_0000 + MinInt
  }

  /** `(int) d` for a double holding the integer `x`: values outside the int range saturate. */
  function Saturate(x: int): (r: int)
    ensures IsInt(r)
    ensures IsInt(x) ==> r == x
    ensures x > MaxInt ==> r == MaxInt
    ensures x < MinInt ==> r == MinInt
  {
    if x > MaxInt then MaxInt else if x < MinInt then MinInt else x
  }

  /** The exact ceiling of `n / d`, for a divisor of either sign. */
  function CeilDiv(n: int, d: int): (q: int)
    requires d != 0
    ensures d > 0 ==> (q - 1) * d < n <= q * d
    ensures d < 0 ==> q * d <= n < (q - 1) * d
  {
    if d > 0 then -((-n) / d) else -(n / (-d))
  }
}
