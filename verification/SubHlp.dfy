/** The helper of the subtractions, and the comparison that decides whether one is possible. */
module SubHlp {
  import opened Arithmetic
  import opened Bignum
  import opened Blocks
  import opened Numerals
  import opened Row
  import opened Words
  import MulHlp

  /** Subtraction that wraps around. */
  function Sub(base: nat, x: int, y: int): int {
    if x < y then x - y + base else x - y
  }

  /** A borrow at weight `p` that has run through another limb. */
  lemma BorrowMoves(base: nat, p: int, v: int, x: int, y: int, c: int, x': int, c': int)
    requires x - y - c == x' - base * c'
    ensures v + p * (x' - x) - (base * p) * c' == v - p * c - p * y
  {
    Distributes(x' - x, -(base * c'), p);
    Distributes(-c, -y, p);
    Associates(base, p, c');
    Associates(p, base, c');
  }

  /** One limb of the subtraction. */
  method SubLimb(base: nat, mem: array<int>, s: int, d: int, c0: int) returns (c: int)
    requires base >= 2 && Limbs(base, mem[..]) && 0 <= c0 <= 1
    requires 0 <= s < mem.Length && 0 <= d < mem.Length && s != d
    modifies mem
    ensures Limbs(base, mem[..]) && 0 <= c <= 1
    ensures forall a :: 0 <= a < mem.Length && a != d ==> mem[a] == old(mem[a])
    ensures old(mem[d]) - mem[s] - c0 == mem[d] - base * c
  {
    var z := Less(mem[d], c0);
    mem[d] := Sub(base, mem[d], c0);
    c := Less(mem[d], mem[s]) + z;
    mem[d] := Sub(base, mem[d], mem[s]);
  }

  lemma Difference(base: nat, dest: seq<int>, source: seq<int>, i: nat, limbs: seq<int>, c: int, x: int, c': int)
    requires i < |source| && i < |limbs| && limbs[i] - source[i] - c == x - base * c'
    requires Val(base, limbs) - Pow(base, i) * c == Val(base, dest) - Val(base, source[..i])
    ensures Val(base, limbs[i := x]) - Pow(base, i + 1) * c' == Val(base, dest) - Val(base, source[..i + 1])
  {
    hide Val, Pow;
    MulHlp.ValUpdate(base, limbs, i, x);
    PowNext(base, i);
    BorrowMoves(base, Pow(base, i), Val(base, limbs), limbs[i], source[i], c, x, c');
    assert source[..i + 1] == source[..i] + [source[i]];
    ValAppend(base, source[..i], source[i]);
  }

  lemma NoneTimes(p: int)
    ensures p * 0 == 0
  {
  }

  lemma Ended(base: nat, result: seq<int>, dest: seq<int>, taken: int, c: int)
    requires base >= 2 && Limbs(base, result) && Limbs(base, dest) && |result| == |dest| && 0 <= taken && 0 <= c <= 1
    requires Val(base, result) - (if c == 1 then Pow(base, |dest|) else 0) == Val(base, dest) - taken
    ensures c == 0 <==> Val(base, dest) >= taken
  {
    hide Val, Pow;
    ValBound(base, result);
    ValBound(base, dest);
  }

  /** The rest of the borrow, at `d`. */
  method RunBorrow(base: nat, mem: array<int>, ghost d0: int, d1: int, c1: int, end: int,
                   ghost dest: seq<int>, ghost taken: int)
      returns (inside: bool)
    requires base >= 2 && Limbs(base, mem[..]) && 0 <= d0 <= d1 <= end <= mem.Length && 0 <= c1 <= 1
    requires |dest| == end - d0 && Limbs(base, dest) && 0 <= taken
    requires Val(base, mem[d0..end]) - Pow(base, d1 - d0) * c1 == Val(base, dest) - taken
    modifies mem
    ensures Limbs(base, mem[..])
    ensures forall a :: 0 <= a < mem.Length && !(d0 <= a < end) ==> mem[a] == old(mem[a])
    ensures inside <==> Val(base, dest) >= taken
    ensures Val(base, mem[d0..end]) == Val(base, dest) - taken + if inside then 0 else Pow(base, end - d0)
  {
    hide Val, Pow;
    var c, d := c1, d1;
    while c != 0
      invariant d1 <= d <= end && 0 <= c <= 1 && Limbs(base, mem[..])
      invariant forall a :: 0 <= a < mem.Length && !(d0 <= a < end) ==> mem[a] == old(mem[a])
      invariant Val(base, mem[d0..end]) - Pow(base, d - d0) * c == Val(base, dest) - taken
      decreases end - d, c
    {
      if d == end {
        Ended(base, mem[d0..end], dest, taken, 1);
        return false;
      }
      ghost var x, was, limbs := mem[d], c, mem[d0..end];
      var z := Less(mem[d], c);
      mem[d] := Sub(base, mem[d], c);
      c := z;
      assert mem[d0..end] == limbs[d - d0 := mem[d]];
      MulHlp.ValUpdate(base, limbs, d - d0, mem[d]);
      PowNext(base, d - d0);
      BorrowMoves(base, Pow(base, d - d0), Val(base, limbs), x, 0, was, mem[d], c);
      d := d + 1;
    }
    NoneTimes(Pow(base, d - d0));
    Ended(base, mem[d0..end], dest, taken, 0);
    return true;
  }

  /**
   * Subtracts `n` limbs from a destination that ends at `end`, and lets the borrow run behind them. `inside` tells
   * whether all that happens in front of `end`. (Behind it, the method stops.)
   */
  method SubHlp(base: nat, mem: array<int>, n: nat, s0: int, d0: int, end: int) returns (inside: bool)
    requires base >= 2 && Limbs(base, mem[..]) && 0 <= s0 && s0 + n <= mem.Length
    requires 0 <= d0 && d0 + n <= end <= mem.Length && Apart(s0, n, d0, end - d0)
    modifies mem
    ensures Limbs(base, mem[..])
    ensures forall a :: 0 <= a < mem.Length && !(d0 <= a < end) ==> mem[a] == old(mem[a])
    ensures inside <==> Val(base, old(mem[d0..end])) >= Val(base, old(mem[s0..s0 + n]))
    ensures Val(base, mem[d0..end]) == Val(base, old(mem[d0..end])) - Val(base, old(mem[s0..s0 + n]))
                                     + if inside then 0 else Pow(base, end - d0)
  {
    hide Val, Pow;
    ghost var dest, source := mem[d0..end], mem[s0..s0 + n];
    var i: nat, c, s, d := 0, 0, s0, d0;
    PowZero(base);
    ValEmpty(base);
    assert source[..0] == [];
    while i < n
      invariant i <= n && s == s0 + i && d == d0 + i && 0 <= c <= 1 && Limbs(base, mem[..])
      invariant forall a :: 0 <= a < mem.Length && !(d0 <= a < d) ==> mem[a] == old(mem[a])
      invariant Val(base, mem[d0..end]) - Pow(base, i) * c == Val(base, dest) - Val(base, source[..i])
    {
      ghost var was, limbs := c, mem[d0..end];
      assert mem[s] == source[i] && limbs[i] == mem[d];
      c := SubLimb(base, mem, s, d, c);
      assert mem[d0..end] == limbs[i := mem[d]];
      Difference(base, dest, source, i, limbs, was, mem[d], c);
      i, s, d := i + 1, s + 1, d + 1;
    }
    assert source[..n] == source;
    ValBound(base, source);
    inside := RunBorrow(base, mem, d0, d, c, end, dest, Val(base, source));
  }

  function Order(x: int, y: int): int {
    if x < y then -1 else if x > y then 1 else 0
  }

  /** A numeral with a limb further up is greater. */
  lemma Longer(base: nat, xs: seq<int>, i: nat, ys: seq<int>, j: nat)
    requires base >= 2 && Limbs(base, xs) && Limbs(base, ys) && j < i <= |xs| && j <= |ys|
    requires ZerosFrom(xs, i) && ZerosFrom(ys, j) && xs[i - 1] != 0
    ensures Val(base, xs) > Val(base, ys)
  {
    hide Val, Pow;
    ValTrim(base, xs, i);
    ValTrim(base, ys, j);
    ValBound(base, ys[..j]);
    PowGrows(base, j, i - 1);
    ValAtLeast(base, xs[..i], i - 1);
  }

  ghost predicate SameFrom(xs: seq<int>, ys: seq<int>, i: nat) {
    |xs| == |ys| && forall k :: i <= k < |xs| ==> xs[k] == ys[k]
  }

  /** A numeral is greater if it is in the highest limb that differs. */
  lemma Greater(base: nat, xs: seq<int>, ys: seq<int>, k: nat)
    requires base >= 2 && Limbs(base, xs) && Limbs(base, ys) && k < |xs| && SameFrom(xs, ys, k + 1) && xs[k] > ys[k]
    ensures Val(base, xs) > Val(base, ys)
  {
    hide Val, Pow;
    assert xs[k + 1..] == ys[k + 1..];
    assert xs == (xs[..k] + [xs[k]]) + xs[k + 1..] && ys == (ys[..k] + [ys[k]]) + ys[k + 1..];
    ValConcat(base, xs[..k] + [xs[k]], xs[k + 1..]);
    ValConcat(base, ys[..k] + [ys[k]], ys[k + 1..]);
    ValAppend(base, xs[..k], xs[k]);
    ValAppend(base, ys[..k], ys[k]);
    ValBound(base, xs[..k]);
    ValBound(base, ys[..k]);
    PowPositive(base, k);
    ProductMonotone(ys[k] + 1, xs[k], Pow(base, k));
    Distributes(ys[k], 1, Pow(base, k));
  }

  /** The order of two blocks of the same length, found from the top. */
  method CompareLimbs(base: nat, mem: array<int>, x: int, y: int, j: nat, ghost xs: seq<int>, ghost ys: seq<int>)
      returns (ret: int)
    requires base >= 2 && Limbs(base, xs) && Limbs(base, ys) && |xs| == |ys| == j
    requires 0 <= x && x + j <= mem.Length && 0 <= y && y + j <= mem.Length
    requires forall k :: 0 <= k < j ==> xs[k] == mem[x + k] && ys[k] == mem[y + k]
    ensures ret == Order(Val(base, xs), Val(base, ys))
  {
    hide Val, Limbs;
    var i: nat := j;
    while i > 0
      invariant i <= j && SameFrom(xs, ys, i)
    {
      assert xs[i - 1] == mem[x + (i - 1)] && ys[i - 1] == mem[y + (i - 1)];
      if mem[x + i - 1] > mem[y + i - 1] {
        Greater(base, xs, ys, i - 1);
        return 1;
      }
      if mem[x + i - 1] < mem[y + i - 1] {
        Greater(base, ys, xs, i - 1);
        return -1;
      }
      i := i - 1;
    }
    assert xs == ys;
    return 0;
  }

  lemma Fronts(base: nat, xs: seq<int>, ys: seq<int>, i: nat)
    requires Limbs(base, xs) && Limbs(base, ys) && i <= |xs| && i <= |ys| && ZerosFrom(xs, i) && ZerosFrom(ys, i)
    ensures Limbs(base, xs[..i]) && Limbs(base, ys[..i])
    ensures Val(base, xs) == Val(base, xs[..i]) && Val(base, ys) == Val(base, ys[..i])
    ensures i == 0 ==> Val(base, xs) == Val(base, ys) == 0
  {
    ValTrim(base, xs, i);
    ValTrim(base, ys, i);
    ValEmpty(base);
    assert i == 0 ==> xs[..i] == [] == ys[..i];
  }

  /** The order of two blocks: by the limbs in use, and then limb by limb. */
  method CompareBlocks(base: nat, mem: array<int>, x: int, y: int, ghost xs: seq<int>, ghost ys: seq<int>,
                       n: nat, k: nat)
      returns (ret: int)
    requires base >= 2 && Limbs(base, xs) && Limbs(base, ys) && |xs| == n && |ys| == k
    requires 0 <= x && x + n <= mem.Length && mem[x..x + n] == xs
    requires 0 <= y && y + k <= mem.Length && mem[y..y + k] == ys
    ensures ret == Order(Val(base, xs), Val(base, ys))
  {
    hide Val, ZerosFrom, Pow;
    var i: nat := CountLimbs(mem, x, n, xs);
    var j: nat := CountLimbs(mem, y, k, ys);
    if i == 0 && j == 0 {
      Fronts(base, xs, ys, 0);
      return 0;
    }
    if i > j {
      Longer(base, xs, i, ys, j);
      return 1;
    }
    if j > i {
      Longer(base, ys, j, xs, i);
      return -1;
    }
    Fronts(base, xs, ys, i);
    ret := CompareLimbs(base, mem, x, y, i, xs[..i], ys[..i]);
  }

  /** -1, 0 or 1, as the first magnitude is less than the second, equal or greater. */
  method CmpAbs(h: Heap, X: Mpi, Y: Mpi) returns (ret: int)
    requires h.Valid() && X.In(h) && Y.In(h)
    ensures ret == Order(X.Magnitude(h), Y.Magnitude(h))
  {
    hide Val;
    ret := CompareBlocks(h.base, h.mem, X.p, Y.p, X.Digits(h), Y.Digits(h), X.n, Y.n);
  }
}
