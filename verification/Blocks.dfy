/** Blocks of memory: which addresses are in use, what they hold, and what a step leaves as it was. */
module Blocks {
  import opened Numerals

  /** The addresses from `p` on, `n` of them, marked as in use or not. */
  function Marked(used: seq<bool>, p: int, n: nat, mark: bool): (used': seq<bool>)
    ensures |used'| == |used|
    ensures forall a :: 0 <= a < |used| ==> used'[a] == if p <= a < p + n then mark else used[a]
  {
    seq(|used|, a requires 0 <= a < |used| => if p <= a < p + n then mark else used[a])
  }

  predicate Unused(used: seq<bool>, p: int, n: nat) {
    forall a :: p <= a < p + n && 0 <= a < |used| ==> !used[a]
  }

  predicate InUse(used: seq<bool>, p: int, n: nat) {
    0 <= p && p + n <= |used| && forall a :: p <= a < p + n ==> used[a]
  }

  function Zeros(n: nat): (xs: seq<int>)
    ensures |xs| == n && forall i :: 0 <= i < n ==> xs[i] == 0
  {
    seq(n, _ => 0)
  }

  lemma ThenZeros(mem: seq<int>, q: int, n: nat, k: nat, digits: seq<int>)
    requires 0 <= q && n <= k && q + k <= |mem| && mem[q..q + n] == digits
    requires forall a :: q + n <= a < q + k ==> mem[a] == 0
    ensures mem[q..q + k] == digits + Zeros(k - n)
  {
  }

  predicate Apart(p: int, n: nat, q: int, k: nat) {
    p + n <= q || q + k <= p
  }

  /** One block has given way to another, or stayed, and nothing else has been taken or given back. */
  ghost predicate Replaced(used: seq<bool>, p: int, n: nat, used': seq<bool>, p': int, n': nat) {
    && Unused(Marked(used, p, n, false), p', n')
    && used' == Marked(Marked(used, p, n, false), p', n', true)
  }

  /** What is in use, but for one block, holds what it held. */
  ghost predicate Same(mem: seq<int>, mem': seq<int>, used: seq<bool>, p: int, n: nat) {
    && |mem'| == |mem| == |used|
    && forall a :: 0 <= a < |mem| && used[a] && !(p <= a < p + n) ==> mem'[a] == mem[a]
  }

  /** What was in use has left nothing where nothing is in use: there is zero, or what was not in use before either. */
  ghost predicate Clean(mem: seq<int>, used: seq<bool>, mem': seq<int>, used': seq<bool>) {
    && |mem'| == |mem| == |used| == |used'|
    && forall a :: 0 <= a < |mem| && !used'[a] ==> mem'[a] == 0 || (!used[a] && mem'[a] == mem[a])
  }

  lemma CleanBySelf(mem: seq<int>, used: seq<bool>)
    requires |mem| == |used|
    ensures Clean(mem, used, mem, used)
  {
  }

  lemma CleanTrans(m0: seq<int>, u0: seq<bool>, m1: seq<int>, u1: seq<bool>, m2: seq<int>, u2: seq<bool>)
    requires Clean(m0, u0, m1, u1) && Clean(m1, u1, m2, u2)
    ensures Clean(m0, u0, m2, u2)
  {
  }

  lemma CleanInside(mem: seq<int>, mem': seq<int>, used: seq<bool>, p: int, n: nat)
    requires |mem'| == |mem| == |used| && InUse(used, p, n)
    requires forall a :: 0 <= a < |mem| && !(p <= a < p + n) ==> mem'[a] == mem[a]
    ensures Clean(mem, used, mem', used)
  {
  }

  /** A wiped block leaves nothing behind, and a block in use may hold anything. */
  lemma CleanMoved(mem: seq<int>, mem': seq<int>, used: seq<bool>, p: int, n: nat, q: int, k: nat)
    requires |mem'| == |mem| == |used| && Apart(p, n, q, k)
    requires forall a :: 0 <= a < |mem| && p <= a < p + n ==> mem'[a] == 0
    requires forall a :: 0 <= a < |mem| && !(q <= a < q + k) && !(p <= a < p + n) ==> mem'[a] == mem[a]
    ensures Clean(mem, used, mem', Marked(Marked(used, q, k, true), p, n, false))
  {
  }

  lemma ReplacedTrans(u0: seq<bool>, p0: int, n0: nat, u1: seq<bool>, p1: int, n1: nat, u2: seq<bool>, p2: int, n2: nat)
    requires Replaced(u0, p0, n0, u1, p1, n1) && Replaced(u1, p1, n1, u2, p2, n2)
    ensures Replaced(u0, p0, n0, u2, p2, n2)
  {
    assert Marked(u1, p1, n1, false) == Marked(u0, p0, n0, false);
  }

  lemma ReplacedBySelf(used: seq<bool>, p: int, n: nat)
    requires InUse(used, p, n)
    ensures Replaced(used, p, n, used, p, n)
  {
  }

  lemma ReplacedByOther(used: seq<bool>, p: int, n: nat, q: int, k: nat)
    requires InUse(used, p, n) && Unused(used, q, k) && 0 <= q && q + k <= |used| && Apart(p, n, q, k)
    ensures Replaced(used, p, n, Marked(Marked(used, q, k, true), p, n, false), q, k)
    ensures InUse(Marked(used, q, k, true), q, k) && InUse(Marked(used, q, k, true), p, n)
    ensures InUse(Marked(Marked(used, q, k, true), p, n, false), q, k)
  {
  }

  /** What a step at a block in use, and at one not in use, leaves the same. */
  lemma SameButTwo(mem: seq<int>, mem': seq<int>, used: seq<bool>, p: int, n: nat, q: int, k: nat)
    requires |mem'| == |mem| == |used| && Unused(used, q, k)
    requires forall a :: 0 <= a < |mem| && !(q <= a < q + k) && !(p <= a < p + n) ==> mem'[a] == mem[a]
    ensures Same(mem, mem', used, p, n)
  {
  }

  lemma SameTrans(m0: seq<int>, m1: seq<int>, m2: seq<int>,
                  u0: seq<bool>, p0: int, n0: nat, u1: seq<bool>, p1: int, n1: nat)
    requires Same(m0, m1, u0, p0, n0) && Replaced(u0, p0, n0, u1, p1, n1) && Same(m1, m2, u1, p1, n1)
    ensures Same(m0, m2, u0, p0, n0)
  {
    forall a | 0 <= a < |m0| && u0[a] && !(p0 <= a < p0 + n0) ensures m2[a] == m0[a] {
      assert Marked(u0, p0, n0, false)[a];
    }
  }

  /** A block in use and a block not in use do not overlap. */
  lemma Elsewhere(used: seq<bool>, p: int, n: nat, q: int, k: nat)
    requires InUse(used, p, n) && Unused(used, q, k) && 0 <= q && q + k <= |used| && k > 0 && (n == 0 ==> p == 0)
    ensures Apart(p, n, q, k)
  {
    var a := if p <= q then q else p;
    var shared := used[a];
  }

  /** Another block stays in use, stays apart and keeps its limbs. */
  lemma OtherStays(m: seq<int>, m': seq<int>, u: seq<bool>, p: int, n: nat, u': seq<bool>, p': int, n': nat,
                   q: int, k: nat)
    requires Replaced(u, p, n, u', p', n') && Same(m, m', u, p, n)
    requires InUse(u, q, k) && Apart(q, k, p, n) && (k == 0 ==> q == 0)
    requires 0 <= p' && p' + n' <= |u| && (n' == 0 ==> p' == 0)
    ensures InUse(u', q, k) && Apart(q, k, p', n') && m'[q..q + k] == m[q..q + k]
  {
    var freed := Marked(u, p, n, false);
    assert InUse(freed, q, k);
    if n' > 0 {
      Elsewhere(freed, q, k, p', n');
    }
  }

  lemma SameOutside(mem: seq<int>, mem': seq<int>, used: seq<bool>, p: int, n: nat)
    requires |mem'| == |mem| == |used|
    requires forall a :: 0 <= a < |mem| && !(p <= a < p + n) ==> mem'[a] == mem[a]
    ensures Same(mem, mem', used, p, n)
  {
  }

  lemma FrontOf(digits: seq<int>, i: nat, n: nat, copy: seq<int>)
    requires i <= |digits| && i <= n && copy == digits[..i] + Zeros(n - i)
    ensures copy[..i] == digits[..i] && ZerosFrom(copy, i)
  {
  }

  lemma InBounds(used: seq<bool>, p: int, n: nat)
    requires InUse(used, p, n)
    ensures 0 <= p && p + n <= |used|
  {
  }

  lemma SameBySelf(mem: seq<int>, used: seq<bool>, p: int, n: nat)
    requires |mem| == |used|
    ensures Same(mem, mem, used, p, n)
  {
  }

  /** A block that holds given limbs, apart from the block that is being worked on. */
  ghost predicate Holds(mem: seq<int>, p: int, xs: seq<int>, t: int, len: nat) {
    0 <= p && p + |xs| <= |mem| && Apart(p, |xs|, t, len) && mem[p..p + |xs|] == xs
  }

  lemma StillHolds(mem: seq<int>, mem': seq<int>, p: int, xs: seq<int>, t: int, len: nat)
    requires Holds(mem, p, xs, t, len) && |mem'| == |mem|
    requires forall k :: 0 <= k < |mem| && !(t <= k < t + len) ==> mem'[k] == mem[k]
    ensures Holds(mem', p, xs, t, len)
  {
  }

  lemma Narrower(mem: seq<int>, p: int, xs: seq<int>, t: int, len: nat, d: int, len': nat)
    requires Holds(mem, p, xs, t, len) && t <= d && d + len' <= t + len
    ensures Holds(mem, p, xs, d, len')
  {
  }

  lemma LimbOf(mem: seq<int>, p: int, xs: seq<int>, t: int, len: nat, i: nat)
    requires Holds(mem, p, xs, t, len) && i < |xs|
    ensures 0 <= p + i < |mem| && mem[p + i] == xs[i]
  {
    assert mem[p..p + |xs|][i] == mem[p + i];
  }

  lemma HeldAt(mem: seq<int>, p: int, xs: seq<int>, t: int, len: nat)
    requires Holds(mem, p, xs, t, len)
    ensures 0 <= p && p + |xs| <= |mem| && Apart(p, |xs|, t, len) && mem[p..p + |xs|] == xs
  {
  }

  lemma HoldsFront(mem: seq<int>, p: int, n: nat, k: nat, t: int, len: nat)
    requires 0 <= p && p + n <= |mem| && k <= n && Apart(p, n, t, len)
    ensures Holds(mem, p, mem[p..p + n][..k], t, len)
  {
    assert mem[p..p + n][..k] == mem[p..p + k];
  }

  lemma LimbsHeld(base: nat, mem: seq<int>, p: int, xs: seq<int>, t: int, len: nat)
    requires Limbs(base, mem) && Holds(mem, p, xs, t, len)
    ensures Limbs(base, xs)
  {
    forall i | 0 <= i < |xs| ensures 0 <= xs[i] < base {
      LimbOf(mem, p, xs, t, len, i);
    }
  }

  lemma Untouched(mem: seq<int>, mem': seq<int>, from: int, to: int, p: int, n: nat)
    requires |mem'| == |mem| && 0 <= p && p + n <= |mem| && (n == 0 || p + n <= from || to <= p)
    requires forall m :: 0 <= m < |mem| && !(from <= m < to) ==> mem'[m] == mem[m]
    ensures mem'[p..p + n] == mem[p..p + n]
  {
  }

  lemma LimbsOf(base: nat, mem: seq<int>, p: int, n: nat)
    requires Limbs(base, mem) && 0 <= p && p + n <= |mem|
    ensures Limbs(base, mem[p..p + n])
  {
  }
}
