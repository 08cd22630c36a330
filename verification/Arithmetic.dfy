/** The few facts about products that the solver needs to be given one at a time. */
module Arithmetic {

  lemma ProductMonotone(x: int, y: int, z: int)
    requires x <= y && 0 <= z
    ensures x * z <= y * z
    ensures z * x <= z * y
  {
  }

  lemma Distributes(x: int, y: int, z: int)
    ensures (x + y) * z == x * z + y * z
    ensures z * (x + y) == z * x + z * y
  {
  }

  lemma Associates(x: int, y: int, z: int)
    ensures (x * y) * z == x * (y * z)
    ensures (x * y) * z == x * (z * y)
    ensures (x * y) * z == y * (x * z)
  {
  }

  /** A remainder below the divisor and its quotient are determined by the number they make up. */
  lemma QuotientUnique(m: int, r: int, q: int, r': int, q': int)
    requires 0 <= r < m && 0 <= r' < m
    requires r + m * q == r' + m * q'
    ensures r == r' && q == q'
  {
    if q > q' {
      ProductMonotone(q' + 1, q, m);
      Distributes(q', 1, m);
    } else if q < q' {
      ProductMonotone(q + 1, q', m);
      Distributes(q, 1, m);
    }
  }

  /** Division with remainder, recognised from its result. */
  lemma DivModIs(t: int, m: int, q: int, r: int)
    requires m > 0 && t == r + m * q && 0 <= r < m
    ensures t / m == q && t % m == r
  {
    QuotientUnique(m, r, q, t % m, t / m);
  }

  lemma QuotientBelow(m: int, n: int, t: int)
    requires m > 0 && 0 <= t < m * n
    ensures 0 <= t / m < n && 0 <= t % m < m
  {
    if t / m >= n {
      ProductMonotone(n, t / m, m);
    }
  }

  /** One more digit keeps a numeral below the next power. */
  lemma DigitBound(base: int, p: int, v: int, x: int)
    requires 0 <= v < p && 0 <= x < base
    ensures 0 <= v + p * x < base * p
  {
    ProductMonotone(0, x, p);
    ProductMonotone(x, base - 1, p);
    Distributes(base, -1, p);
  }
}
