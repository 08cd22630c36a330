/** Multiplication modulo an odd number without division: the reduction goes limb by limb, from the bottom. */
module Montgomery {
  import opened Arithmetic
  import opened Numerals
  import opened Words
  import SubHlp

  ghost predicate Divides(m: int, v: int) {
    exists k :: v == m * k
  }

  // The inverse of the lowest limb.

  lemma Expanded(m: int, x: int, t: int, base: int, c: int)
    ensures m * (x * t - base * c) == (m * x) * t - base * (m * c)
  {
    Distributes(x * t, -(base * c), m);
    Associates(m, x, t);
    Associates(m, base, c);
    Associates(base, m, c);
  }

  lemma OneMoreSquare(z: int, base: int, g: int)
    ensures (1 + z) * (1 - z + base * g) == 1 - z * z + base * (g + z * g)
  {
    Distributes(1 - z, base * g, 1 + z);
    Distributes(1, z, 1 - z);
    Distributes(1, -z, z);
    Distributes(1, z, base * g);
    Associates(z, base, g);
    Associates(base, z, g);
    Distributes(g, z * g, base);
  }

  lemma SquareOut(p: int, k: int, r: int, u: int)
    ensures (p * k) * (p * k) == (p * p) * (k * k)
    ensures ((p * p) * r) * u == (p * p) * (r * u)
  {
    Associates(p, k, p * k);
    Associates(k, p, k);
    Associates(p, p, k * k);
    Associates(p * p, r, u);
  }

  /** One step of the iteration doubles the number of bits for which `m * x` is one. */
  lemma NewtonStep(m: int, x: int, p: int, k: int, r: int, a: int, s: int, c: int) returns (k': int)
    requires m * x == 1 + p * k
    ensures var base := (p * p) * r;
            var t := 2 - (m * x - base * a) + base * s;
            m * (x * t - base * c) == 1 + (p * p) * k'
  {
    var base, z, g := (p * p) * r, p * k, a + s;
    var t := 1 - z + base * g;
    var u := g + z * g - m * c;
    k' := r * u - k * k;
    Distributes(a, s, base);
    Expanded(m, x, t, base, c);
    OneMoreSquare(z, base, g);
    Distributes(g + z * g, -(m * c), base);
    SquareOut(p, k, r, u);
    Distributes(r * u, -(k * k), p * p);
    assert 2 - (m * x - base * a) + base * s == t;
  }

  lemma ExpandedGuess(m: int, bit: int, g: int)
    ensures m * (m + 8 * bit - 16 * g) == m * m + 8 * (m * bit) - 16 * (m * g)
  {
    Distributes(m + 8 * bit, -(16 * g), m);
    Distributes(m, 8 * bit, m);
    Associates(m, 8, bit);
    Associates(m, 16, g);
  }

  lemma OddRests(m: int, bit: int, j: int, h: int)
    requires m % 2 == 1 && bit == (m + 2) / 4 % 2 && j == m % 8
    requires h == if j == 1 then 0 else if j == 3 then 2 else if j == 5 then 4 else 3
    ensures (bit == 0 || bit == 1) && j * j + (if bit == 1 then 8 * j else 0) == 1 + 16 * h
  {
    assert j == 1 || j == 3 || j == 5 || j == 7;
    assert bit == if j == 3 || j == 5 then 1 else 0;
  }

  lemma Square(q: int, j: int)
    ensures (8 * q + j) * (8 * q + j) == 64 * (q * q) + 16 * (q * j) + j * j
  {
    Distributes(8 * q, j, 8 * q + j);
    Distributes(8 * q, j, 8 * q);
    Distributes(8 * q, j, j);
    Associates(8, q, 8 * q);
    Associates(8, q, j);
    Associates(q, 8, q);
  }

  /** The third bit of an odd number and its square agree, so that the first four bits can be set at once. */
  lemma FirstBits(m: int, bit: int, r: int, c: int) returns (k: int)
    requires m % 2 == 1 && bit == (m + 2) / 4 % 2
    ensures m * (m + 8 * bit - (16 * r) * c) == 1 + 16 * k
  {
    var q, j, g := m / 8, m % 8, r * c;
    var h := if j == 1 then 0 else if j == 3 then 2 else if j == 5 then 4 else 3;
    k := 4 * (q * q) + q * j + h + (if bit == 1 then 4 * q else 0) - m * g;
    OddRests(m, bit, j, h);
    Square(q, j);
    Associates(16, r, c);
    ExpandedGuess(m, bit, g);
    assert m == 8 * q + j && m * bit == if bit == 1 then 8 * q + j else 0;
  }

  /** The widths that a limb can have. */
  predicate Width(w: nat) {
    w == 8 || w == 16 || w == 32 || w == 64
  }

  lemma BaseFactors(w: nat, e: nat)
    requires 2 * e <= w
    ensures Pow(2, w) == (Pow(2, e) * Pow(2, e)) * Pow(2, w - 2 * e)
  {
    PowAdds(2, e, e);
    PowAdds(2, 2 * e, w - 2 * e);
  }

  lemma WideBase(w: nat) returns (r: nat)
    requires Width(w)
    ensures Pow(2, w) == 16 * r && r >= 16
  {
    r := Pow(2, w - 4);
    PowAdds(2, 4, w - 4);
    assert Pow(2, 4) == 16 by {
      assert Pow(2, 3) == 8;
    }
    PowGrows(2, 4, w - 4);
  }

  lemma SixteenIs()
    ensures Pow(2, 4) == 16
  {
    assert Pow(2, 3) == 8;
  }

  lemma QuarterIsEven(x: int, q: int)
    requires 8 * q <= x < 8 * q + 4
    ensures x / 4 % 2 == 0
  {
    assert x / 4 == 2 * q;
  }

  lemma BitThree(m: int, r: nat)
    requires 0 < m < 16 * r
    ensures Add(16 * r, m, 2) / 4 % 2 == (m + 2) / 4 % 2
  {
    var x := Add(16 * r, m, 2);
    if m + 2 >= 16 * r {
      QuarterIsEven(m + 2, 2 * r);
      QuarterIsEven(x, 0);
    } else {
      assert x == m + 2;
    }
  }

  /** The first approximation, right in its four lowest bits. */
  method FirstGuess(w: nat, m0: int) returns (x: int, ghost k: int)
    requires Width(w) && 0 < m0 < Pow(2, w) && m0 % 2 == 1
    ensures 0 <= x < Pow(2, w) && m0 * x == 1 + Pow(2, 4) * k
  {
    hide Pow;
    var base := Pow(2, w);
    ghost var r := WideBase(w);
    ghost var sixteen := Pow(2, 4);
    SixteenIs();
    var bit := Add(base, m0, 2) / 4 % 2;
    assert bit == (m0 + 2) / 4 % 2 by {
      BitThree(m0, r);
    }
    x := Add(base, m0, bit * 8);
    k := FirstBits(m0, bit, r, Carry(base, m0, bit * 8));
  }

  lemma Quotient(v: int, m: nat) returns (q: int)
    requires m > 0
    ensures v % m == v - m * q && 0 <= v % m < m
  {
    q := v / m;
  }

  /** One step of the iteration, in words. */
  method Newton(w: nat, m0: int, x0: int, ghost e: nat, ghost k0: int) returns (x: int, ghost k: int)
    requires 0 < m0 < Pow(2, w) && 0 <= x0 < Pow(2, w) && 2 * e <= w && Pow(2, w) > 2
    requires m0 * x0 == 1 + Pow(2, e) * k0
    ensures 0 <= x < Pow(2, w) && m0 * x == 1 + Pow(2, 2 * e) * k
  {
    hide Pow;
    var base := Pow(2, w);
    var y := Mul(base, m0, x0);
    ghost var a := Quotient(m0 * x0, base);
    var t := SubHlp.Sub(base, 2, y);
    x := Mul(base, x0, t);
    ghost var c := Quotient(x0 * t, base);
    BaseFactors(w, e);
    PowAdds(2, e, e);
    k := NewtonStep(m0, x0, Pow(2, e), k0, Pow(2, w - 2 * e), a, if 2 < y then 1 else 0, c);
  }

  lemma NegativeInverse(base: int, m: int, x: int, k: int)
    requires m * x == 1 + base * k && base > 1
    ensures x != 0 && Divides(base, m * (base - x) + 1)
  {
    DivModIs(m * x, base, k, 1);
    DivModIs(0, base, 0, 0);
    assert x == 0 ==> m * x == 0;
    Distributes(base, -x, m);
    Associates(m, base, 1);
    Distributes(m, -k, base);
    assert m * (base - x) + 1 == base * (m - k);
  }

  /** The negative inverse of the lowest limb of an odd modulus. */
  method MontgInit(w: nat, m0: int) returns (mm: int)
    requires Width(w) && 0 < m0 < Pow(2, w) && m0 % 2 == 1
    ensures 0 <= mm < Pow(2, w) && Divides(Pow(2, w), m0 * mm + 1)
  {
    hide Pow;
    ghost var r := WideBase(w);
    ghost var k, e := 0, 4;
    var x;
    x, k := FirstGuess(w, m0);
    var i: nat := w;
    while i >= 8
      invariant i == 4 || Width(i)
      invariant e * i == 4 * w && e > 0 && 0 <= x < Pow(2, w) && m0 * x == 1 + Pow(2, e) * k
    {
      assert 2 * e <= w;
      x, k := Newton(w, m0, x, e, k);
      e := 2 * e;
      i := i / 2;
    }
    assert e == w;
    mm := if x == 0 then 0 else Pow(2, w) - x;
    NegativeInverse(Pow(2, w), m0, x, k);
  }
}
