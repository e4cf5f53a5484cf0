/** Go's 64-bit integer arithmetic: wrap-around on overflow and division
    that truncates toward zero. */
module Int64 {

  const MinInt64: int := -0x8000_0000_0000_0000
  const MaxInt64: int := 0x7FFF_FFFF_FFFF_FFFF
  const Modulus: int := 0x1_0000_0000_0000_0000

  predicate InRange(x: int) {
    MinInt64 <= x <= MaxInt64
  }

  /** The int64 that Go stores for the mathematical value x (two's complement
      wrap-around). */
  function Wrap(x: int): (r: int)
    ensures InRange(r)
    ensures (r - x) % Modulus == 0
    ensures InRange(x) ==> r == x
  {
    (x - MinInt64) % Modulus + MinInt64
  }

  /** Go's `a / b` for a positive divisor: the quotient truncated toward zero. */
  function Quot(a: int, b: int): (q: int)
    requires b > 0
    ensures a >= 0 ==> 0 <= q && b * q <= a < b * (q + 1)
    ensures a < 0 ==> q <= 0 && b * (q - 1) < a <= b * q
  {
    if a >= 0 then DivBounds(a, b); a / b
    else DivBounds(-a, b); -((-a) / b)
  }

  /** Euclidean division of a natural number brackets it between two
      consecutive multiples of the divisor. */
  lemma DivBounds(a: nat, b: int)
    requires b > 0
    ensures var q := a / b; 0 <= q && b * q <= a < b * q + b && b * (-q) == -(b * q)
  {
    var q, r := a / b, a % b;
    assert a == b * q + r && 0 <= r < b;
  }

  /** Go's `a % b` for a positive divisor: its sign follows a. */
  function Rem(a: int, b: int): (r: int)
    requires b > 0
    ensures a == b * Quot(a, b) + r
    ensures a >= 0 ==> 0 <= r < b
    ensures a < 0 ==> -b < r <= 0
  {
    a - b * Quot(a, b)
  }
}
