/** Facts about multiplication and divisibility that the solver does not
    find on its own. */
module Arith {

  lemma MulAtLeast(x: int, d: int)
    requires x > 0 && d >= 1
    ensures x * d >= x
  {
    assert x * d == x + x * (d - 1);
    assert x * (d - 1) >= 0;
  }

  lemma MulAtMost(x: int, d: int)
    requires x > 0 && d <= -1
    ensures x * d <= -x
  {
    assert x * d == -x + x * (d + 1);
    assert x * (d + 1) <= 0;
  }

  lemma MulStrict(m: int, p: int, q: int)
    requires m > 0 && p < q
    ensures m * p + m <= m * q
  {
    var d := q - p;
    assert m * q == m * p + m * d;
    MulAtLeast(m, d);
  }

  /** A product is divisible by either factor. */
  lemma MulMod(x: int, r: int)
    requires x > 0
    ensures (x * r) % x == 0
  {
    var t := x * r;
    var d := r - t / x;
    assert t % x == t - x * (t / x);
    assert t - x * (t / x) == x * d;
    if d >= 1 {
      MulAtLeast(x, d);
    } else if d <= -1 {
      MulAtMost(x, d);
    }
  }

  /** Adding m to a multiple of m keeps it a multiple of m. */
  lemma AddMod(a: int, m: int)
    requires m > 0 && a % m == 0
    ensures (a + m) % m == 0
  {
    var q := a / m;
    assert a == m * q;
    assert a + m == m * (q + 1);
    MulMod(m, q + 1);
  }

  /** A multiple of m below another multiple of m is at least m below it. */
  lemma NextMultiple(a: int, c: int, m: int)
    requires m > 0 && a % m == 0 && c % m == 0 && a < c
    ensures a + m <= c
  {
    var p, q := a / m, c / m;
    assert a == m * p;
    assert c == m * q;
    if q <= p {
      MulStrict(m, q, p + 1);
      assert false;
    }
    MulStrict(m, p, q);
  }

  /** A positive multiple of m is at least m. */
  lemma MultipleAtLeast(c: int, m: int)
    requires m > 0 && c > 0 && c % m == 0
    ensures m <= c
  {
    assert 0 % m == 0;
    NextMultiple(0, c, m);
  }

  /** If x divides c and l, it divides c % l. */
  lemma ModOfMultiples(c: int, l: int, x: int)
    requires x > 0 && l > 0 && c % x == 0 && l % x == 0
    ensures (c % l) % x == 0
  {
    var q := c / l;
    var cx, lx := c / x, l / x;
    assert c == x * cx;
    assert l == x * lx;
    assert c % l == c - l * q;
    assert l * q == x * (lx * q);
    var r := cx - lx * q;
    assert c % l == x * r;
    MulMod(x, r);
  }

  /** Divisibility is transitive. */
  lemma ModTransitive(a: int, b: int, c: int)
    requires b > 0 && c > 0 && a % b == 0 && b % c == 0
    ensures a % c == 0
  {
    var p, q := a / b, b / c;
    assert a == b * p;
    assert b == c * q;
    assert a == c * (q * p);
    MulMod(c, q * p);
  }

  /** The remainder is the unique x in [0, m) with a == m * d + x. */
  lemma ModUnique(a: int, m: int, d: int, x: int)
    requires m > 0 && 0 <= x < m && a == m * d + x
    ensures a % m == x
  {
    var q, s := a / m, a % m;
    assert a == m * q + s;
    assert m * (q - d) == x - s;
    if q - d >= 1 {
      MulAtLeast(m, q - d);
    } else if q - d <= -1 {
      MulAtMost(m, q - d);
    }
  }

  /** Multiplying by a non-negative number keeps the order. */
  lemma MulMono(a: int, b: int, c: int)
    requires 0 <= a && b <= c
    ensures a * b <= a * c
  {
    assert a * c == a * b + a * (c - b);
    if a > 0 && c > b {
      MulAtLeast(a, c - b);
    }
  }

  /** The quotient is the unique d with a == m * d + x for x in [0, m). */
  lemma DivUnique(a: int, m: int, d: int, x: int)
    requires m > 0 && 0 <= x < m && a == m * d + x
    ensures a / m == d
  {
    ModUnique(a, m, d, x);
    assert m * (a / m) == m * d;
    if a / m - d >= 1 {
      MulAtLeast(m, a / m - d);
    } else if a / m - d <= -1 {
      MulAtMost(m, a / m - d);
    }
  }

  /** Dividing by a * b is dividing by a, then by b. */
  lemma DivDiv(n: int, a: int, b: int)
    requires n >= 0 && a > 0 && b > 0
    ensures n / (a * b) == (n / a) / b
  {
    var q, r := n / a, n % a;
    var q2, r2 := q / b, q % b;
    assert q == b * q2 + r2;
    MulMono(a, r2, b - 1);
    assert a * q == a * b * q2 + a * r2;
    assert n == (a * b) * q2 + (a * r2 + r);
    DivUnique(n, a * b, q2, a * r2 + r);
  }

  /** Adding a multiple of m does not change the remainder mod m. */
  lemma AddMultipleMod(r: int, l: int, m: int)
    requires m > 0 && l % m == 0
    ensures (r + l) % m == r % m
  {
    var p, q := r / m, l / m;
    assert r == m * p + r % m;
    assert l == m * q;
    assert r + l == m * (p + q) + r % m;
    ModUnique(r + l, m, p + q, r % m);
  }
}
