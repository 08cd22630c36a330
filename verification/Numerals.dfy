/** Powers, and numerals in an arbitrary base, least significant digit first. */
module Numerals {
  import opened Arithmetic

  function Pow(b: nat, n: nat): nat {
    if n == 0 then 1 else b * Pow(b, n - 1)
  }

  lemma PowZero(base: nat)
    ensures Pow(base, 0) == 1
  {
  }

  lemma PowNext(base: nat, n: nat)
    ensures Pow(base, n + 1) == base * Pow(base, n)
  {
  }

  lemma {:induction false} PowPositive(b: nat, n: nat)
    requires b > 0
    ensures Pow(b, n) > 0
  {
    if n == 0 {
    } else {
      PowPositive(b, n - 1);
    }
  }

  lemma {:induction false} PowAdds(b: nat, m: nat, n: nat)
    ensures Pow(b, m + n) == Pow(b, m) * Pow(b, n)
  {
    if m == 0 {
    } else {
      PowAdds(b, m - 1, n);
      Associates(b, Pow(b, m - 1), Pow(b, n));
    }
  }

  lemma PowGrows(a: nat, m: nat, n: nat)
    requires a > 0 && m <= n
    ensures Pow(a, m) <= Pow(a, n)
  {
    PowAdds(a, m, n - m);
    PowPositive(a, m);
    PowPositive(a, n - m);
    ProductMonotone(1, Pow(a, n - m), Pow(a, m));
  }

  /** The digits of `xs` all lie below the base. */
  ghost predicate Limbs(base: nat, xs: seq<int>) {
    forall i :: 0 <= i < |xs| ==> 0 <= xs[i] < base
  }

  /** The number that `xs` denotes. */
  function Val(base: nat, xs: seq<int>): int {
    if xs == [] then 0
    else Val(base, xs[..|xs| - 1]) + Pow(base, |xs| - 1) * xs[|xs| - 1]
  }

  lemma ValAppend(base: nat, xs: seq<int>, x: int)
    ensures Val(base, xs + [x]) == Val(base, xs) + Pow(base, |xs|) * x
  {
    var ys := xs + [x];
    assert ys[..|ys| - 1] == xs;
  }

  lemma {:induction false} ValBound(base: nat, xs: seq<int>)
    requires base >= 2 && Limbs(base, xs)
    ensures 0 <= Val(base, xs) < Pow(base, |xs|)
  {
    if xs == [] {
    } else {
      var n := |xs| - 1;
      ValBound(base, xs[..n]);
      PowPositive(base, n);
      DigitBound(base, Pow(base, n), Val(base, xs[..n]), xs[n]);
    }
  }

  /** Two numerals of the same length that denote the same number are the same numeral. */
  lemma {:induction false} ValInjective(base: nat, xs: seq<int>, ys: seq<int>)
    requires base >= 2 && Limbs(base, xs) && Limbs(base, ys)
    requires |xs| == |ys| && Val(base, xs) == Val(base, ys)
    ensures xs == ys
  {
    if xs == [] {
    } else {
      var n := |xs| - 1;
      ValBound(base, xs[..n]);
      ValBound(base, ys[..n]);
      QuotientUnique(Pow(base, n), Val(base, xs[..n]), xs[n], Val(base, ys[..n]), ys[n]);
      ValInjective(base, xs[..n], ys[..n]);
      assert xs == xs[..n] + [xs[n]] && ys == ys[..n] + [ys[n]];
    }
  }

  /** A numeral cut in two. */
  lemma {:induction false} ValConcat(base: nat, xs: seq<int>, ys: seq<int>)
    ensures Val(base, xs + ys) == Val(base, xs) + Pow(base, |xs|) * Val(base, ys)
  {
    if ys == [] {
      assert xs + ys == xs;
    } else {
      hide Val, Pow;
      var n := |ys| - 1;
      var front, last := ys[..n], ys[n];
      ValConcat(base, xs, front);
      assert ys == front + [last] && xs + ys == (xs + front) + [last];
      ValAppend(base, xs + front, last);
      ValAppend(base, front, last);
      PowAdds(base, |xs|, n);
      Associates(Pow(base, |xs|), Pow(base, n), last);
      Distributes(Val(base, front), Pow(base, n) * last, Pow(base, |xs|));
    }
  }

  lemma ValEmpty(base: nat)
    ensures Val(base, []) == 0
  {
  }

  /** A numeral of one digit. */
  lemma ValOne(base: nat, x: int)
    ensures Val(base, [x]) == x
  {
    hide Val;
    assert [x] == [] + [x];
    ValAppend(base, [], x);
    ValEmpty(base);
  }

  lemma ValCons(base: nat, x: int, xs: seq<int>)
    ensures Val(base, [x] + xs) == x + base * Val(base, xs)
  {
    hide Pow;
    if xs == [] {
      assert [x] + xs == [] + [x];
      ValAppend(base, [], x);
      PowZero(base);
    } else {
      var n := |xs| - 1;
      var front, last := xs[..n], xs[n];
      assert xs == front + [last] && [x] + xs == ([x] + front) + [last];
      ValCons(base, x, front);
      ValAppend(base, [x] + front, last);
      ValAppend(base, front, last);
      PowNext(base, n);
      Distributes(Val(base, front), Pow(base, n) * last, base);
      Associates(base, Pow(base, n), last);
    }
  }

  ghost predicate ZerosFrom(xs: seq<int>, i: nat) {
    forall k :: i <= k < |xs| ==> xs[k] == 0
  }

  lemma {:induction false} ValZeros(base: nat, xs: seq<int>)
    requires forall i :: 0 <= i < |xs| ==> xs[i] == 0
    ensures Val(base, xs) == 0
  {
    if xs == [] {
    } else {
      ValZeros(base, xs[..|xs| - 1]);
    }
  }

  /** The number of digits up to the last one that is not zero. */
  ghost function Used(xs: seq<int>): (i: nat)
    ensures i <= |xs|
  {
    if xs == [] then 0
    else if xs[|xs| - 1] != 0 then |xs|
    else Used(xs[..|xs| - 1])
  }

  lemma {:induction false} UsedIs(xs: seq<int>, i: nat)
    requires i <= |xs| && ZerosFrom(xs, i) && (i > 0 ==> xs[i - 1] != 0)
    ensures Used(xs) == i
  {
    if i < |xs| {
      UsedIs(xs[..|xs| - 1], i);
    }
  }

  /** What is behind the first digits does not matter as long as it is zero. */
  lemma {:induction false} UsedFront(xs: seq<int>, i: nat)
    requires i <= |xs| && ZerosFrom(xs, i)
    ensures Used(xs) == Used(xs[..i])
  {
    if i == |xs| {
      assert xs[..i] == xs;
    } else {
      UsedFront(xs[..|xs| - 1], i);
      assert xs[..|xs| - 1][..i] == xs[..i];
    }
  }

  /** Zeros at the end do not count. */
  lemma ValTrim(base: nat, xs: seq<int>, i: nat)
    requires i <= |xs| && ZerosFrom(xs, i)
    ensures Val(base, xs) == Val(base, xs[..i])
  {
    assert xs == xs[..i] + xs[i..];
    ValConcat(base, xs[..i], xs[i..]);
    ValZeros(base, xs[i..]);
  }
}
