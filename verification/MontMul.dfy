/** The product of two numbers times the inverse of a power of the base, modulo an odd number. */
module MontMul {
  import opened Arithmetic
  import opened Bignum
  import opened Blocks
  import opened Montgomery
  import opened Numerals
  import opened Row
  import opened Words
  import MulHlp
  import MulMpi
  import SubHlp

  lemma LowPart(base: int, e: int, mm: int, z0: int, h: int, g: int)
    requires z0 * mm + 1 == base * h
    ensures e + (e * mm - base * g) * z0 == base * (e * h - g * z0)
  {
    Distributes(e * mm, -(base * g), z0);
    Associates(e, mm, z0);
    Associates(base, g, z0);
    Distributes(z0 * mm, 1, e);
    Associates(base, h, e);
    Associates(e, base, h);
    Distributes(e * h, -(g * z0), base);
  }

  lemma MulDistributes(base: int, u: int, y0: int, y1: int)
    ensures u * (y0 + base * y1) == u * y0 + base * (u * y1)
  {
    Distributes(y0, base * y1, u);
    Associates(u, base, y1);
    Associates(base, u, y1);
  }

  /** The limb that makes the sum divisible by the base, computed from lowest limbs alone. */
  lemma RoundDivides(base: int, x: int, x0: int, x1: int, u0: int, y: int, y0: int, y1: int,
                     u1: int, z: int, z0: int, z1: int, mm: int, h: int, e: int, f: int, g: int)
    requires x == x0 + base * x1 && y == y0 + base * y1 && z == z0 + base * z1
    requires z0 * mm + 1 == base * h && e == x0 + u0 * y0 - base * f && u1 == e * mm - base * g
    ensures Divides(base, x + u0 * y + u1 * z)
  {
    var low, high := e * h - g * z0 + f, x1 + u0 * y1 + u1 * z1;
    LowPart(base, e, mm, z0, h, g);
    MulDistributes(base, u0, y0, y1);
    MulDistributes(base, u1, z0, z1);
    Distributes(x1, u0 * y1, base);
    Distributes(x1 + u0 * y1, u1 * z1, base);
    Distributes(e * h - g * z0, f, base);
    Distributes(low, high, base);
    assert x + u0 * y + u1 * z == base * (low + high);
  }

  /** The sum of a round fits two limbs more than the modulus has, and is less than the base times the bound. */
  lemma RoundFits(base: nat, n: nat, x: int, u0: int, y: int, u1: int, z: int)
    requires base >= 2 && 0 <= x < y + z && 0 <= y < Pow(base, n) && 0 <= z < Pow(base, n)
    requires 0 <= u0 < base && 0 <= u1 < base
    ensures 0 <= x + u0 * y <= x + u0 * y + u1 * z < base * (y + z)
    ensures x + u0 * y + u1 * z < Pow(base, n + 2)
  {
    ProductMonotone(u0, base - 1, y);
    ProductMonotone(0, u0, y);
    ProductMonotone(u1, base - 1, z);
    ProductMonotone(0, u1, z);
    Distributes(y, z, base);
    Distributes(base, -1, y);
    Distributes(base, -1, z);
    PowNext(base, n);
    PowNext(base, n + 1);
    ProductMonotone(y + z, 2 * Pow(base, n), base);
    ProductMonotone(2, base, Pow(base, n + 1));
    Distributes(Pow(base, n), Pow(base, n), base);
  }

  /** A numeral that is divisible by the base ends with a zero. */
  lemma LowestIsZero(base: nat, xs: seq<int>)
    requires base >= 2 && xs != [] && Limbs(base, xs) && Divides(base, Val(base, xs))
    ensures xs[0] == 0 && Val(base, xs) == base * Val(base, xs[1..])
  {
    hide Val;
    var k :| Val(base, xs) == base * k;
    assert xs == [xs[0]] + xs[1..];
    ValCons(base, xs[0], xs[1..]);
    QuotientUnique(base, xs[0], Val(base, xs[1..]), 0, k);
  }

  /** The numerals of a round. */
  ghost function Sum(base: nat, xs: seq<int>, u0: int, ys: seq<int>, u1: int, zs: seq<int>): int {
    Val(base, xs) + u0 * Val(base, ys) + u1 * Val(base, zs)
  }

  /** What a round computes, and that it stays inside the window. */
  lemma RoundReady(base: nat, xs: seq<int>, u0: int, ys: seq<int>, zs: seq<int>, mm: int) returns (u1: int)
    requires base >= 2 && Limbs(base, xs) && Limbs(base, ys) && Limbs(base, zs) && 0 <= u0 < base && 0 <= mm < base
    requires 0 < |ys| <= |zs| && |xs| == |zs| + 2 && Val(base, xs) < Val(base, ys) + Val(base, zs)
    requires Divides(base, zs[0] * mm + 1)
    ensures u1 == Mul(base, Add(base, xs[0], Mul(base, u0, ys[0])), mm) && 0 <= u1 < base
    ensures Divides(base, Sum(base, xs, u0, ys, u1, zs))
    ensures Sum(base, xs, u0, ys, u1, zs) < base * (Val(base, ys) + Val(base, zs))
    ensures 0 <= MulHlp.Total(base, xs, ys, u0) < Pow(base, |xs|)
    ensures 0 <= MulHlp.Total(base, xs, ys, u0) + Val(base, zs) * u1 < Pow(base, |xs|)
    ensures Sum(base, xs, u0, ys, u1, zs) == MulHlp.Total(base, xs, ys, u0) + Val(base, zs) * u1
  {
    hide Val, Pow;
    var e := Add(base, xs[0], Mul(base, u0, ys[0]));
    u1 := Mul(base, e, mm);
    var h :| zs[0] * mm + 1 == base * h;
    var a := Quotient(u0 * ys[0], base);
    var g := Quotient(e * mm, base);
    var c := if xs[0] + Mul(base, u0, ys[0]) < base then 0 else 1;
    assert xs == [xs[0]] + xs[1..] && ys == [ys[0]] + ys[1..] && zs == [zs[0]] + zs[1..];
    ValCons(base, xs[0], xs[1..]);
    ValCons(base, ys[0], ys[1..]);
    ValCons(base, zs[0], zs[1..]);
    Distributes(a, c, base);
    RoundDivides(base, Val(base, xs), xs[0], Val(base, xs[1..]), u0, Val(base, ys), ys[0], Val(base, ys[1..]),
                 u1, Val(base, zs), zs[0], Val(base, zs[1..]), mm, h, e, a + c, g);
    ValBound(base, xs);
    ValBound(base, ys);
    ValBound(base, zs);
    PowGrows(base, |ys|, |zs|);
    RoundFits(base, |zs|, Val(base, xs), u0, Val(base, ys), u1, Val(base, zs));
    PowGrows(base, |zs| + 2, |xs|);
  }

  lemma SumIsTotal(base: nat, xs: seq<int>, u0: int, ys: seq<int>, u1: int, zs: seq<int>)
    ensures Sum(base, xs, u0, ys, u1, zs) == MulHlp.Total(base, xs, ys, u0) + Val(base, zs) * u1
  {
    hide Val;
  }

  lemma TotalOnTotal(base: nat, xs: seq<int>, x: int, zs: seq<int>, u1: int)
    requires Val(base, xs) == x
    ensures MulHlp.Total(base, xs, zs, u1) == x + Val(base, zs) * u1
  {
    hide Val;
  }

  /** Adds one limb's share of both factors to the window at `d`, whose lowest limb becomes zero. */
  method Round(huit: bool, base: nat, mem: array<int>, d: int, n: nat, u0: int, b: int, m: nat, np: int, mm: int,
               ghost ys: seq<int>, ghost zs: seq<int>)
      returns (ghost u1: int)
    requires base >= 2 && Limbs(base, mem[..]) && 0 <= u0 < base && 0 <= mm < base
    requires 0 <= d && d + n + 2 <= mem.Length && 0 < m <= n && |ys| == m && |zs| == n
    requires Holds(mem[..], b, ys, d, n + 2) && Holds(mem[..], np, zs, d, n + 2)
    requires Val(base, mem[d..d + (n + 2)]) < Val(base, ys) + Val(base, zs) && Divides(base, zs[0] * mm + 1)
    modifies mem
    ensures Limbs(base, mem[..]) && 0 <= u1 < base
    ensures forall k :: 0 <= k < mem.Length && !(d <= k < d + (n + 2)) ==> mem[k] == old(mem[k])
    ensures Val(base, mem[d..d + (n + 2)]) == Sum(base, old(mem[d..d + (n + 2)]), u0, ys, u1, zs)
    ensures Divides(base, Val(base, mem[d..d + (n + 2)]))
    ensures Val(base, mem[d..d + (n + 2)]) < base * (Val(base, ys) + Val(base, zs))
  {
    hide Val, Pow, Sum, Divides, MulHlp.Total, Holds, Limbs;
    ghost var was, xs := mem[..], mem[d..d + (n + 2)];
    LimbsHeld(base, was, b, ys, d, n + 2);
    LimbsHeld(base, was, np, zs, d, n + 2);
    LimbsOf(base, was, d, n + 2);
    LimbOf(was, b, ys, d, n + 2, 0);
    assert mem[d] == xs[0];
    u1 := RoundReady(base, xs, u0, ys, zs, mm);
    SumIsTotal(base, xs, u0, ys, u1, zs);
    var v1 := Mul(base, Add(base, mem[d], Mul(base, u0, mem[b])), mm);
    MulHlp.AddMultiple(huit, base, mem, m, b, d, u0, n + 2, ys);
    StillHolds(was, mem[..], np, zs, d, n + 2);
    TotalOnTotal(base, mem[d..d + (n + 2)], MulHlp.Total(base, xs, ys, u0), zs, u1);
    MulHlp.AddMultiple(huit, base, mem, n, np, d, v1, n + 2, zs);
  }

  /** The equation that every round keeps, for `i` limbs of the first factor. */
  ghost predicate Reduced(base: nat, i: nat, x: int, factor: int, y: int, u: int, z: int) {
    Pow(base, i) * x == factor * y + u * z && 0 <= u < Pow(base, i)
  }

  lemma ReducedNext(base: nat, i: nat, x: int, factor: int, y: int, u: int, z: int, u0: int, u1: int, x': int)
    requires base >= 2 && Reduced(base, i, x, factor, y, u, z) && 0 <= u1 < base
    requires base * x' == x + u0 * y + u1 * z
    ensures Reduced(base, i + 1, x', factor + Pow(base, i) * u0, y, u + Pow(base, i) * u1, z)
  {
    hide Pow;
    var p := Pow(base, i);
    PowNext(base, i);
    PowPositive(base, i);
    Associates(base, p, x');
    Associates(p, base, x');
    Distributes(x, u0 * y, p);
    Distributes(x + u0 * y, u1 * z, p);
    Associates(p, u0, y);
    Associates(p, u1, z);
    Distributes(factor, p * u0, y);
    Distributes(u, p * u1, z);
    DigitBound(base, p, u, u1);
  }

  lemma ReducedFirst(base: nat, y: int, z: int)
    ensures Reduced(base, 0, 0, 0, y, 0, z)
  {
    PowZero(base);
  }

  /** Moving the window up by one limb divides by the base, if the limb that is left behind is zero. */
  method Shift(base: nat, mem: array<int>, d: int, n: nat, u0: int)
    requires base >= 2 && Limbs(base, mem[..]) && 0 <= u0 < base && 0 <= d && d + n + 2 < mem.Length
    requires Divides(base, Val(base, mem[d..d + (n + 2)]))
    modifies mem
    ensures Limbs(base, mem[..])
    ensures forall k :: 0 <= k < mem.Length && k != d && k != d + (n + 2) ==> mem[k] == old(mem[k])
    ensures mem[d + 1..d + 1 + (n + 2)][n + 1] == 0
    ensures base * Val(base, mem[d + 1..d + 1 + (n + 2)]) == Val(base, old(mem[d..d + (n + 2)]))
  {
    hide Val, Divides;
    ghost var xs := mem[d..d + (n + 2)];
    LowestIsZero(base, xs);
    mem[d] := u0;
    mem[d + 1 + (n + 1)] := 0;
    ghost var window := mem[d + 1..d + 1 + (n + 2)];
    assert window == xs[1..] + [0];
    assert ZerosFrom(window, n + 1) && window[..n + 1] == xs[1..];
    ValTrim(base, window, n + 1);
  }

  lemma RoundDone(base: nat, i: nat, window: seq<int>, xs: seq<int>, ys: seq<int>, u: int, zs: seq<int>, u1: int,
                  window': seq<int>)
    requires base >= 2 && Limbs(base, window') && i < |xs| && 0 <= u1 < base
    requires Reduced(base, i, Val(base, window), Val(base, xs[..i]), Val(base, ys), u, Val(base, zs))
    requires base * Val(base, window') == Sum(base, window, xs[i], ys, u1, zs) < base * (Val(base, ys) + Val(base, zs))
    ensures Reduced(base, i + 1, Val(base, window'), Val(base, xs[..i + 1]), Val(base, ys), u + Pow(base, i) * u1,
                    Val(base, zs))
    ensures 0 <= Val(base, window') < Val(base, ys) + Val(base, zs)
  {
    hide Val, Pow, Reduced;
    assert xs[..i + 1] == xs[..i] + [xs[i]];
    ValAppend(base, xs[..i], xs[i]);
    ReducedNext(base, i, Val(base, window), Val(base, xs[..i]), Val(base, ys), u, Val(base, zs), xs[i], u1,
                Val(base, window'));
    ValBound(base, window');
    if Val(base, window') >= Val(base, ys) + Val(base, zs) {
      ProductMonotone(Val(base, ys) + Val(base, zs), Val(base, window'), base);
    }
  }

  /** The state of the window after `i` rounds. */
  ghost predicate Progress(base: nat, i: nat, window: seq<int>, xs: seq<int>, ys: seq<int>, u: int, zs: seq<int>) {
    && i <= |xs| && |window| == |zs| + 2 && (i > 0 ==> window[|zs| + 1] == 0)
    && 0 <= Val(base, window) < Val(base, ys) + Val(base, zs)
    && Reduced(base, i, Val(base, window), Val(base, xs[..i]), Val(base, ys), u, Val(base, zs))
  }

  /** One round, after `i` of them: the window moves from `d` to `d + 1`. */
  method NextRound(huit: bool, base: nat, mem: array<int>, d: int, n: nat, u0: int, b: int, m: nat, np: int, mm: int,
                   ghost i: nat, ghost xs: seq<int>, ghost ys: seq<int>, ghost zs: seq<int>, ghost u: int)
      returns (ghost u': int)
    requires base >= 2 && Limbs(base, mem[..]) && 0 <= mm < base && 0 < m <= n && |ys| == m && |zs| == n
    requires 0 <= d && d + n + 2 < mem.Length && i < |xs| && u0 == xs[i] && 0 <= u0 < base
    requires Holds(mem[..], b, ys, d, n + 2) && Holds(mem[..], np, zs, d, n + 2) && Divides(base, zs[0] * mm + 1)
    requires Progress(base, i, mem[d..d + (n + 2)], xs, ys, u, zs)
    modifies mem
    ensures Limbs(base, mem[..])
    ensures forall k :: 0 <= k < mem.Length && !(d <= k < d + n + 3) ==> mem[k] == old(mem[k])
    ensures Progress(base, i + 1, mem[d + 1..d + 1 + (n + 2)], xs, ys, u', zs)
  {
    hide Val, Divides, Reduced, Sum;
    ghost var window := mem[d..d + (n + 2)];
    ghost var u1 := Round(huit, base, mem, d, n, u0, b, m, np, mm, ys, zs);
    Shift(base, mem, d, n, u0);
    RoundDone(base, i, window, xs, ys, u, zs, u1, mem[d + 1..d + 1 + (n + 2)]);
    u' := u + Pow(base, i) * u1;
  }

  lemma ProgressFirst(base: nat, window: seq<int>, xs: seq<int>, ys: seq<int>, zs: seq<int>)
    requires |window| == |zs| + 2 && Val(base, window) == 0 && Val(base, ys) + Val(base, zs) > 0
    ensures Progress(base, 0, window, xs, ys, 0, zs)
  {
    hide Val;
    ValEmpty(base);
    assert xs[..0] == [];
    ReducedFirst(base, Val(base, ys), Val(base, zs));
  }

  lemma OperandsStay(base: nat, mem: seq<int>, mem': seq<int>, a: int, xs: seq<int>, b: int, ys: seq<int>,
                     np: int, zs: seq<int>, t: int, len: nat, d: int, len': nat, i: nat)
    requires Holds(mem, a, xs, t, len) && Holds(mem, b, ys, t, len) && Holds(mem, np, zs, t, len)
    requires |mem'| == |mem| && forall k :: 0 <= k < |mem| && !(t <= k < t + len) ==> mem'[k] == mem[k]
    requires t <= d && d + len' <= t + len && i < |xs| && Limbs(base, mem')
    ensures Holds(mem', b, ys, d, len') && Holds(mem', np, zs, d, len')
    ensures 0 <= a + i < |mem'| && mem'[a + i] == xs[i] && 0 <= xs[i] < base
  {
    hide Holds;
    StillHolds(mem, mem', a, xs, t, len);
    StillHolds(mem, mem', b, ys, t, len);
    StillHolds(mem, mem', np, zs, t, len);
    Narrower(mem', b, ys, t, len, d, len');
    Narrower(mem', np, zs, t, len, d, len');
    LimbOf(mem', a, xs, t, len, i);
  }

  /** The rounds for all limbs of the first factor, over a block of zeros at `t`. */
  method Rounds(huit: bool, base: nat, mem: array<int>, a: int, n: nat, b: int, m: nat, np: int, mm: int, t: int,
                ghost xs: seq<int>, ghost ys: seq<int>, ghost zs: seq<int>)
      returns (ghost u: int)
    requires base >= 2 && Limbs(base, mem[..]) && 0 <= mm < base && 0 < m <= n && |xs| == |zs| == n && |ys| == m
    requires 0 <= t && t + (2 * n + 2) <= mem.Length && Val(base, mem[t..t + (n + 2)]) == 0
    requires Holds(mem[..], a, xs, t, 2 * n + 2) && Holds(mem[..], b, ys, t, 2 * n + 2)
    requires Holds(mem[..], np, zs, t, 2 * n + 2)
    requires Divides(base, zs[0] * mm + 1) && Val(base, ys) + Val(base, zs) > 0
    modifies mem
    ensures Limbs(base, mem[..])
    ensures forall k :: 0 <= k < mem.Length && !(t <= k < t + (2 * n + 2)) ==> mem[k] == old(mem[k])
    ensures Progress(base, n, mem[t + n..t + n + (n + 2)], xs, ys, u, zs)
  {
    hide Val, Divides, Progress, Holds, Limbs;
    u := 0;
    var i: nat, d := 0, t;
    ProgressFirst(base, mem[t..t + (n + 2)], xs, ys, zs);
    while i < n
      invariant i <= n && d == t + i && Limbs(base, mem[..])
      invariant forall k :: 0 <= k < mem.Length && !(t <= k < t + (2 * n + 2)) ==> mem[k] == old(mem[k])
      invariant Progress(base, i, mem[d..d + (n + 2)], xs, ys, u, zs)
    {
      OperandsStay(base, old(mem[..]), mem[..], a, xs, b, ys, np, zs, t, 2 * n + 2, d, n + 2, i);
      u := NextRound(huit, base, mem, d, n, mem[a + i], b, m, np, mm, i, xs, ys, zs, u);
      i, d := i + 1, d + 1;
    }
  }

  lemma HalfBound(r: int, x: int, z: int, v: int, w: int)
    requires r > 0 && r * x == v + w && v < r * z && w <= r * z
    ensures x < 2 * z
  {
    Distributes(z, z, r);
    if x >= 2 * z {
      ProductMonotone(2 * z, x, r);
    }
  }

  /** If one factor is below the modulus, so is half the result. */
  lemma FinalBound(base: nat, n: nat, x: int, factor: int, y: int, u: int, z: int)
    requires base >= 2 && Reduced(base, n, x, factor, y, u, z) && z > 0
    requires 0 <= factor < Pow(base, n) && 0 <= y < Pow(base, n) && (factor < z || y < z)
    ensures x < 2 * z
  {
    hide Pow;
    var r := Pow(base, n);
    if y < z {
      MulMpi.ProductBelow(factor, r, y, z);
    } else {
      MulMpi.ProductBelow(y, r, factor, z);
    }
    ProductMonotone(u, r, z);
    HalfBound(r, x, z, factor * y, u * z);
  }

  lemma Congruent(r: int, x: int, factor: int, y: int, u: int, z: int, q: int)
    requires r * x == factor * y + u * z
    ensures Divides(z, r * (x - q * z) - factor * y)
  {
    Distributes(x, -(q * z), r);
    Associates(r, q, z);
    Distributes(u, -(r * q), z);
    assert r * (x - q * z) - factor * y == z * (u - r * q);
  }

  /** A numeral that stands further up in another is not greater than that. */
  lemma InsideIsLess(base: nat, xs: seq<int>, k: nat, n: nat)
    requires base >= 2 && Limbs(base, xs) && k + n <= |xs|
    ensures 0 <= Val(base, xs[k..k + n]) <= Val(base, xs)
  {
    hide Val, Pow;
    assert xs == xs[..k] + xs[k..] && xs[k..] == xs[k..k + n] + xs[k + n..];
    ValConcat(base, xs[..k], xs[k..]);
    ValConcat(base, xs[k..k + n], xs[k + n..]);
    ValBound(base, xs[..k]);
    ValBound(base, xs[k..k + n]);
    ValBound(base, xs[k + n..]);
    ValBound(base, xs[k..]);
    PowPositive(base, k);
    PowPositive(base, n);
    ProductMonotone(0, Val(base, xs[k + n..]), Pow(base, n));
    ProductMonotone(1, Pow(base, k), Val(base, xs[k..]));
  }

  /** What the rounds leave in the first factor: a number below the sum of the second factor and the modulus. */
  ghost predicate Unreduced(base: nat, n: nat, x: int, xs: seq<int>, ys: seq<int>, u: int, zs: seq<int>) {
    && 0 <= x < Val(base, ys) + Val(base, zs)
    && Reduced(base, n, x, Val(base, xs), Val(base, ys), u, Val(base, zs))
  }

  lemma ModulusPositive(base: nat, zs: seq<int>, mm: int)
    requires base >= 2 && zs != [] && Limbs(base, zs) && Divides(base, zs[0] * mm + 1)
    ensures Val(base, zs) > 0
  {
    hide Val, Pow;
    var k :| zs[0] * mm + 1 == base * k;
    ValBound(base, zs);
    if zs[0] == 0 {
      DivModIs(1, base, k, 0);
      DivModIs(1, base, 0, 1);
    } else {
      ValAtLeast(base, zs, 0);
      PowZero(base);
    }
  }

  lemma Ready(mem: seq<int>, mem': seq<int>, p: int, xs: seq<int>, t: int, len: nat, len': nat)
    requires Holds(mem, p, xs, t, len) && |mem'| == |mem| && len' <= len
    requires forall k :: 0 <= k < |mem| && !(t <= k < t + len) ==> mem'[k] == mem[k]
    ensures Holds(mem', p, xs, t, len')
  {
    StillHolds(mem, mem', p, xs, t, len);
    Narrower(mem', p, xs, t, len, t, len');
  }

  method WipeWorkspace(h: Heap, ghost a: int, ghost b: int, ghost np: int, n: nat, t: int, tlen: nat,
                       ghost xs: seq<int>, ghost ys: seq<int>, ghost zs: seq<int>)
    requires h.Valid() && 0 <= t && t + tlen <= h.mem.Length && 2 * n + 2 <= tlen
    requires Holds(h.mem[..], a, xs, t, tlen) && Holds(h.mem[..], b, ys, t, tlen) && Holds(h.mem[..], np, zs, t, tlen)
    modifies h.mem
    ensures h.Valid() && Val(h.base, h.mem[t..t + (n + 2)]) == 0
    ensures Holds(h.mem[..], a, xs, t, 2 * n + 2) && Holds(h.mem[..], b, ys, t, 2 * n + 2)
    ensures Holds(h.mem[..], np, zs, t, 2 * n + 2)
    ensures forall k :: 0 <= k < h.mem.Length && !(t <= k < t + tlen) ==> h.mem[k] == old(h.mem[k])
  {
    hide Val, Holds, Limbs;
    h.Zero(t, tlen);
    ValZeros(h.base, h.mem[t..t + (n + 2)]);
    Ready(old(h.mem[..]), h.mem[..], a, xs, t, tlen, 2 * n + 2);
    Ready(old(h.mem[..]), h.mem[..], b, ys, t, tlen, 2 * n + 2);
    Ready(old(h.mem[..]), h.mem[..], np, zs, t, tlen, 2 * n + 2);
  }

  lemma WindowFront(base: nat, window: seq<int>, xs: seq<int>, ys: seq<int>, u: int, zs: seq<int>)
    requires |xs| == |zs| && |xs| > 0 && Progress(base, |xs|, window, xs, ys, u, zs)
    ensures Unreduced(base, |xs|, Val(base, window[..|xs| + 1]), xs, ys, u, zs)
  {
    hide Val, Reduced;
    ValTrim(base, window, |xs| + 1);
    assert xs[..|xs|] == xs;
  }

  method CopyBack(h: Heap, a: int, d: int, n: nat)
    requires h.Valid() && 0 <= a && a + (n + 1) <= h.mem.Length && 0 <= d && d + (n + 2) <= h.mem.Length
    requires Apart(a, n + 1, d, n + 2)
    modifies h.mem
    ensures h.Valid() && h.mem[a..a + (n + 1)] == h.mem[d..d + (n + 1)] == old(h.mem[d..d + (n + 2)])[..n + 1]
    ensures forall k :: 0 <= k < h.mem.Length && !(a <= k < a + (n + 1)) ==> h.mem[k] == old(h.mem[k])
  {
    h.Move(a, d, n + 1);
  }

  /** Wipes the work space, does the rounds there and copies the result over the first factor. */
  method Compute(huit: bool, h: Heap, a: int, alen: nat, b: int, m: nat, np: int, n: nat, mm: int, t: int, tlen: nat,
                 ghost xs: seq<int>, ghost ys: seq<int>, ghost zs: seq<int>)
      returns (ghost u: int)
    requires h.Valid() && 0 <= mm < h.base && 0 < m <= n && |xs| == |zs| == n && |ys| == m
    requires 0 <= t && t + tlen <= h.mem.Length && 2 * n + 2 <= tlen
    requires Holds(h.mem[..], a, xs, t, tlen) && Holds(h.mem[..], b, ys, t, tlen) && Holds(h.mem[..], np, zs, t, tlen)
    requires Divides(h.base, zs[0] * mm + 1) && 0 <= a && a + n + 1 <= a + alen <= h.mem.Length
    requires Apart(a, alen, t, tlen)
    modifies h.mem
    ensures h.Valid()
    ensures forall k :: 0 <= k < h.mem.Length && !(t <= k < t + tlen) && !(a <= k < a + n + 1) ==>
              h.mem[k] == old(h.mem[k])
    ensures h.mem[a..a + (n + 1)] == h.mem[t + n..t + n + (n + 1)]
    ensures Unreduced(h.base, n, Val(h.base, h.mem[a..a + (n + 1)]), xs, ys, u, zs)
  {
    hide Val, Divides, Reduced, Holds, Limbs, Unreduced;
    LimbsHeld(h.base, h.mem[..], b, ys, t, tlen);
    LimbsHeld(h.base, h.mem[..], np, zs, t, tlen);
    ModulusPositive(h.base, zs, mm);
    ValBound(h.base, ys);
    WipeWorkspace(h, a, b, np, n, t, tlen, xs, ys, zs);
    u := Rounds(huit, h.base, h.mem, a, n, b, m, np, mm, t, xs, ys, zs);
    WindowFront(h.base, h.mem[t + n..t + n + (n + 2)], xs, ys, u, zs);
    CopyBack(h, a, t + n, n);
  }

  /** What the last step needs to know: the sizes of the numbers it compares and subtracts. */
  lemma LastStep(base: nat, n: nat, digits: seq<int>, work: seq<int>, xs: seq<int>, ys: seq<int>, u: int, zs: seq<int>)
    requires base >= 2 && Limbs(base, digits) && Limbs(base, work) && n + 1 <= |digits| && 2 * n + 1 <= |work|
    requires ZerosFrom(digits, n + 1) && digits[..n + 1] == work[n..n + (n + 1)]
    requires Unreduced(base, n, Val(base, digits[..n + 1]), xs, ys, u, zs)
    ensures Unreduced(base, n, Val(base, digits), xs, ys, u, zs)
    ensures Val(base, digits[..n]) <= Val(base, digits) <= Val(base, work)
  {
    hide Val, Unreduced;
    ValTrim(base, digits, n + 1);
    InsideIsLess(base, digits, 0, n);
    InsideIsLess(base, work, n, n + 1);
  }

  /**
   * `x`, times a power of the base, is the product of the factors modulo the modulus. It has as many limbs as the
   * modulus, and is below it if one of the factors is.
   */
  ghost predicate Outcome(base: nat, x: int, xs: seq<int>, ys: seq<int>, zs: seq<int>) {
    && Divides(Val(base, zs), Pow(base, |zs|) * x - Val(base, xs) * Val(base, ys))
    && 0 <= x < Pow(base, |zs|)
    && (Val(base, xs) < Val(base, zs) || Val(base, ys) < Val(base, zs) ==> x < Val(base, zs))
  }

  /** The result, after `q` subtractions of the modulus. */
  lemma Result(base: nat, n: nat, x: int, xs: seq<int>, ys: seq<int>, u: int, zs: seq<int>, q: int)
    requires base >= 2 && Unreduced(base, n, x, xs, ys, u, zs) && Limbs(base, xs) && Limbs(base, ys) && Limbs(base, zs)
    requires |xs| == |zs| == n && |ys| <= n && Val(base, zs) > 0 && q == if x >= Val(base, zs) then 1 else 0
    ensures Outcome(base, x - q * Val(base, zs), xs, ys, zs)
  {
    hide Val, Pow;
    ValBound(base, xs);
    ValBound(base, ys);
    ValBound(base, zs);
    PowGrows(base, |ys|, n);
    Congruent(Pow(base, n), x, Val(base, xs), Val(base, ys), u, Val(base, zs), q);
    if Val(base, xs) < Val(base, zs) || Val(base, ys) < Val(base, zs) {
      FinalBound(base, n, x, Val(base, xs), Val(base, ys), u, Val(base, zs));
    }
  }

  /** Subtracts the modulus at `np` from the number at `a`, or pretends to, in the work space at `t`. */
  method SubtractOrPretend(base: nat, mem: array<int>, order: int, a: int, alen: nat, np: int, n: nat,
                           t: int, tlen: nat, ghost digits: seq<int>, ghost zs: seq<int>, ghost work: seq<int>)
      returns (inside: bool)
    requires base >= 2 && Limbs(base, mem[..]) && n <= alen && n <= tlen
    requires 0 <= a && a + alen <= mem.Length && mem[a..a + alen] == digits
    requires 0 <= np && np + n <= mem.Length && mem[np..np + n] == zs
    requires 0 <= t && t + tlen <= mem.Length && mem[t..t + tlen] == work
    requires Apart(a, alen, t, tlen) && Apart(np, n, a, alen) && Apart(np, n, t, tlen)
    requires order == SubHlp.Order(Val(base, digits), Val(base, zs)) && Val(base, digits[..n]) <= Val(base, work)
    modifies mem
    ensures Limbs(base, mem[..]) && inside && mem[np..np + n] == zs
    ensures forall k :: 0 <= k < mem.Length && !(a <= k < a + alen) && !(t <= k < t + tlen) ==> mem[k] == old(mem[k])
    ensures Val(base, mem[a..a + alen])
         == Val(base, digits) - if Val(base, digits) >= Val(base, zs) then Val(base, zs) else 0
  {
    hide Val, Limbs;
    if order >= 0 {
      inside := SubHlp.SubHlp(base, mem, n, np, a, a + alen);
      Untouched(old(mem[..]), mem[..], a, a + alen, np, n);
    } else {
      assert mem[a..a + n] == digits[..n];
      inside := SubHlp.SubHlp(base, mem, n, a, t, t + tlen);
      Untouched(old(mem[..]), mem[..], t, t + tlen, np, n);
      Untouched(old(mem[..]), mem[..], t, t + tlen, a, alen);
    }
  }

  /** Compares with the modulus, and subtracts it or pretends to. */
  method Reduce(base: nat, mem: array<int>, a: int, alen: nat, np: int, n: nat, t: int, tlen: nat,
                ghost digits: seq<int>, ghost zs: seq<int>, ghost work: seq<int>,
                ghost xs: seq<int>, ghost ys: seq<int>, ghost u: int)
      returns (inside: bool)
    requires base >= 2 && Limbs(base, mem[..]) && n < alen && 2 * n + 1 <= tlen
    requires 0 <= a && a + alen <= mem.Length && mem[a..a + alen] == digits
    requires 0 <= np && np + n <= mem.Length && mem[np..np + n] == zs
    requires 0 <= t && t + tlen <= mem.Length && mem[t..t + tlen] == work
    requires Apart(a, alen, t, tlen) && Apart(np, n, a, alen) && Apart(np, n, t, tlen)
    requires Limbs(base, xs) && Limbs(base, ys) && |xs| == n && |ys| <= n && Val(base, zs) > 0
    requires ZerosFrom(digits, n + 1) && digits[..n + 1] == work[n..n + (n + 1)]
    requires Unreduced(base, n, Val(base, digits[..n + 1]), xs, ys, u, zs)
    modifies mem
    ensures Limbs(base, mem[..]) && inside
    ensures forall k :: 0 <= k < mem.Length && !(a <= k < a + alen) && !(t <= k < t + tlen) ==> mem[k] == old(mem[k])
    ensures Outcome(base, Val(base, mem[a..a + alen]), xs, ys, zs)
  {
    hide Val, Pow, Limbs, Unreduced, ZerosFrom, Outcome;
    ghost var x := Val(base, digits);
    LimbsOf(base, mem[..], a, alen);
    LimbsOf(base, mem[..], t, tlen);
    LimbsOf(base, mem[..], np, n);
    LastStep(base, n, digits, work, xs, ys, u, zs);
    Result(base, n, x, xs, ys, u, zs, if x >= Val(base, zs) then 1 else 0);
    var order := SubHlp.CompareBlocks(base, mem, a, np, digits, zs, alen, n);
    inside := SubtractOrPretend(base, mem, order, a, alen, np, n, t, tlen, digits, zs, work);
  }

  function Least(x: nat, y: nat): (z: nat)
    ensures z <= x && z <= y && (z == x || z == y)
  {
    if x < y then x else y
  }

  lemma Tail(mem: seq<int>, mem': seq<int>, a: int, alen: nat, k: nat)
    requires |mem'| == |mem| && 0 <= a && a + alen <= |mem| && k <= alen && ZerosFrom(mem[a..a + alen], k)
    requires forall i :: a + k <= i < a + alen ==> mem'[i] == mem[i]
    ensures ZerosFrom(mem'[a..a + alen], k)
  {
    assert mem'[a..a + alen][k..] == mem[a..a + alen][k..];
    var xs, ys := mem[a..a + alen], mem'[a..a + alen];
    forall i | k <= i < |ys| ensures ys[i] == 0 {
      assert ys[i] == ys[k..][i - k] && xs[i] == xs[k..][i - k];
    }
  }

  lemma UntouchedByTwo(mem: seq<int>, mem': seq<int>, a: int, k: nat, t: int, len: nat, p: int, n: nat)
    requires |mem'| == |mem| && 0 <= p && p + n <= |mem| && Apart(p, n, a, k) && Apart(p, n, t, len)
    requires forall i :: 0 <= i < |mem| && !(t <= i < t + len) && !(a <= i < a + k) ==> mem'[i] == mem[i]
    ensures mem'[p..p + n] == mem[p..p + n]
  {
  }

  lemma SubSlice(mem: seq<int>, p: int, len: nat, i: nat, k: nat)
    requires 0 <= p && p + len <= |mem| && i + k <= len
    ensures mem[p..p + len][i..i + k] == mem[p + i..p + i + k]
  {
    var xs, ys := mem[p..p + len][i..i + k], mem[p + i..p + i + k];
    assert |xs| == |ys| && forall j :: 0 <= j < k ==> xs[j] == mem[p + i + j] == ys[j];
  }

  lemma FactorsHeld(mem: seq<int>, a: int, alen: nat, b: int, blen: nat, m: nat, np: int, n: nat, t: int, tlen: nat)
    requires 0 <= a && a + alen <= |mem| && n <= alen && Apart(a, alen, t, tlen)
    requires 0 <= b && b + blen <= |mem| && m <= blen && Apart(b, blen, t, tlen)
    requires 0 <= np && np + n <= |mem| && Apart(np, n, t, tlen)
    ensures Holds(mem, a, mem[a..a + alen][..n], t, tlen) && Holds(mem, b, mem[b..b + blen][..m], t, tlen)
    ensures Holds(mem, np, mem[np..np + n], t, tlen)
  {
    HoldsFront(mem, a, alen, n, t, tlen);
    HoldsFront(mem, b, blen, m, t, tlen);
    HoldsFront(mem, np, n, n, t, tlen);
    assert mem[np..np + n][..n] == mem[np..np + n];
  }

  lemma BlocksAfter(mem: seq<int>, mem': seq<int>, a: int, alen: nat, t: int, tlen: nat, np: int, n: nat)
    requires |mem'| == |mem| && 0 <= a && a + alen <= |mem| && 0 <= t && t + tlen <= |mem| && 0 <= np && np + n <= |mem|
    requires n < alen && 2 * n + 2 <= tlen && Apart(a, alen, t, tlen) && Apart(np, n, a, alen) && Apart(np, n, t, tlen)
    requires forall k :: 0 <= k < |mem| && !(t <= k < t + tlen) && !(a <= k < a + n + 1) ==> mem'[k] == mem[k]
    requires mem'[a..a + (n + 1)] == mem'[t + n..t + n + (n + 1)] && ZerosFrom(mem[a..a + alen], n + 1)
    ensures ZerosFrom(mem'[a..a + alen], n + 1) && mem'[np..np + n] == mem[np..np + n]
    ensures mem'[a..a + alen][..n + 1] == mem'[a..a + (n + 1)] == mem'[t..t + tlen][n..n + (n + 1)]
  {
    UntouchedByTwo(mem, mem', a, n + 1, t, tlen, np, n);
    Tail(mem, mem', a, alen, n + 1);
    SubSlice(mem', a, alen, 0, n + 1);
    SubSlice(mem', t, tlen, n, n + 1);
    assert mem'[a..a + alen][..n + 1] == mem'[a..a + alen][0..n + 1];
  }

  /** The rounds, and what is known of the three blocks afterwards. */
  method ComputeBlocks(huit: bool, h: Heap, a: int, alen: nat, b: int, m: nat, np: int, n: nat, mm: int, t: int,
                       tlen: nat, ghost xs: seq<int>, ghost ys: seq<int>, ghost zs: seq<int>)
      returns (ghost u: int, ghost digits: seq<int>, ghost work: seq<int>)
    requires h.Valid() && 0 <= mm < h.base && 0 < m <= n < alen && 2 * n + 2 <= tlen && |ys| == m && |xs| == |zs| == n
    requires 0 <= t && t + tlen <= h.mem.Length && 0 <= a && a + alen <= h.mem.Length && Apart(a, alen, t, tlen)
    requires Holds(h.mem[..], a, xs, t, tlen) && Holds(h.mem[..], b, ys, t, tlen)
    requires Holds(h.mem[..], np, zs, t, tlen) && Apart(np, n, a, alen)
    requires Divides(h.base, zs[0] * mm + 1) && ZerosFrom(h.mem[..][a..a + alen], n + 1)
    modifies h.mem
    ensures h.Valid() && h.mem[a..a + alen] == digits && h.mem[t..t + tlen] == work && h.mem[np..np + n] == zs
    ensures ZerosFrom(digits, n + 1) && digits[..n + 1] == work[n..n + (n + 1)]
    ensures Unreduced(h.base, n, Val(h.base, digits[..n + 1]), xs, ys, u, zs)
    ensures forall k :: 0 <= k < h.mem.Length && !(a <= k < a + alen) && !(t <= k < t + tlen) ==>
              h.mem[k] == old(h.mem[k])
  {
    hide Val, Divides, Limbs, Unreduced, ZerosFrom, Holds;
    ghost var mem := h.mem[..];
    HeldAt(mem, np, zs, t, tlen);
    u := Compute(huit, h, a, alen, b, m, np, n, mm, t, tlen, xs, ys, zs);
    digits, work := h.mem[a..a + alen], h.mem[t..t + tlen];
    BlocksAfter(mem, h.mem[..], a, alen, t, tlen, np, n);
  }

  /** Computes in blocks of memory. */
  method MontBlocks(huit: bool, h: Heap, a: int, alen: nat, b: int, m: nat, np: int, n: nat, mm: int, t: int, tlen: nat,
                    ghost xs: seq<int>, ghost ys: seq<int>, ghost zs: seq<int>)
      returns (inside: bool)
    requires h.Valid() && 0 <= mm < h.base && 0 < m <= n < alen && 2 * n + 2 <= tlen && |ys| == m && |xs| == |zs| == n
    requires 0 <= t && t + tlen <= h.mem.Length && 0 <= a && a + alen <= h.mem.Length && Apart(a, alen, t, tlen)
    requires Holds(h.mem[..], a, xs, t, tlen) && Holds(h.mem[..], b, ys, t, tlen)
    requires Holds(h.mem[..], np, zs, t, tlen) && Apart(np, n, a, alen)
    requires Divides(h.base, zs[0] * mm + 1) && ZerosFrom(h.mem[..][a..a + alen], n + 1)
    modifies h.mem
    ensures h.Valid() && inside
    ensures forall k :: 0 <= k < h.mem.Length && !(a <= k < a + alen) && !(t <= k < t + tlen) ==>
              h.mem[k] == old(h.mem[k])
    ensures Outcome(h.base, Val(h.base, h.mem[a..a + alen]), xs, ys, zs)
  {
    hide Val, Divides, Limbs, Unreduced, ZerosFrom, Outcome;
    LimbsHeld(h.base, h.mem[..], a, xs, t, tlen);
    LimbsHeld(h.base, h.mem[..], b, ys, t, tlen);
    LimbsHeld(h.base, h.mem[..], np, zs, t, tlen);
    ModulusPositive(h.base, zs, mm);
    ghost var u, digits, work := ComputeBlocks(huit, h, a, alen, b, m, np, n, mm, t, tlen, xs, ys, zs);
    inside := Reduce(h.base, h.mem, a, alen, np, n, t, tlen, digits, zs, work, xs, ys, u);
  }

  /** The operands, as blocks of memory. */
  lemma Operands(h: Heap, A: Mpi, B: Mpi, N: Mpi, T: Mpi, m: nat)
    requires h.Valid() && A.In(h) && B.In(h) && N.In(h) && T.In(h) && N.n < A.n && m <= B.n
    requires Apart(A.p, A.n, T.p, T.n) && Apart(B.p, B.n, T.p, T.n) && Apart(N.p, N.n, T.p, T.n)
    ensures 0 <= A.p && A.p + A.n <= h.mem.Length && 0 <= T.p && T.p + T.n <= h.mem.Length
    ensures A.Digits(h) == h.mem[..][A.p..A.p + A.n] && |B.Digits(h)| == B.n && |N.Digits(h)| == N.n
    ensures Holds(h.mem[..], A.p, A.Digits(h)[..N.n], T.p, T.n) && Holds(h.mem[..], B.p, B.Digits(h)[..m], T.p, T.n)
    ensures Holds(h.mem[..], N.p, N.Digits(h), T.p, T.n)
  {
    hide Val, Holds, Apart, Limbs;
    FactorsHeld(h.mem[..], A.p, A.n, B.p, B.n, m, N.p, N.n, T.p, T.n);
  }

  /**
   * A becomes A times B divided by a power of the base, modulo N. Its value is below N if one of the factors was.
   * The last subtraction is done in the work space where it is not needed, so that the time does not tell; neither
   * one leaves its block.
   */
  method MontMul(huit: bool, h: Heap, A: Mpi, B: Mpi, N: Mpi, mm: int, T: Mpi) returns (inside: bool)
    requires h.Valid() && A.In(h) && B.In(h) && N.In(h) && T.In(h) && 0 < N.n < A.n && 0 < B.n && 2 * N.n + 2 <= T.n
    requires Apart(A.p, A.n, T.p, T.n) && Apart(B.p, B.n, T.p, T.n) && Apart(N.p, N.n, T.p, T.n)
    requires Apart(N.p, N.n, A.p, A.n) && ZerosFrom(A.Digits(h), N.n + 1)
    requires 0 <= mm < h.base && Divides(h.base, N.Digits(h)[0] * mm + 1)
    modifies h.mem
    ensures h.Valid() && inside
    ensures forall k :: 0 <= k < h.mem.Length && !(A.p <= k < A.p + A.n) && !(T.p <= k < T.p + T.n) ==>
              h.mem[k] == old(h.mem[k])
    ensures Outcome(h.base, A.Magnitude(h), old(A.Digits(h))[..N.n], old(B.Digits(h))[..Least(B.n, N.n)],
                    old(N.Digits(h)))
  {
    hide Val, Divides, Limbs, Holds, ZerosFrom, Outcome, Apart, InUse, Least;
    var m := Least(B.n, N.n);
    Operands(h, A, B, N, T, m);
    inside := MontBlocks(huit, h, A.p, A.n, B.p, m, N.p, N.n, mm, T.p, T.n, A.Digits(h)[..N.n], B.Digits(h)[..m],
                         N.Digits(h));
  }
}
