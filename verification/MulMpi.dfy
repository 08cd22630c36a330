/** The product of two numbers, row by row from the top. */
module MulMpi {
  import opened Arithmetic
  import opened Bignum
  import opened Blocks
  import opened Numerals
  import MulHlp

  lemma ProductBelow(x: int, p: int, y: int, q: int)
    requires 0 <= x < p && 0 <= y < q
    ensures 0 <= x * y < p * q
  {
    ProductMonotone(0, x, y);
    ProductMonotone(x, p - 1, y);
    ProductMonotone(y, q - 1, p - 1);
    Distributes(p, -1, q - 1);
    Distributes(q, -1, p);
  }

  /** The product of what `x` stands for and one more limb of the other factor, and that it fits. */
  lemma NextLimb(base: nat, x: int, i: nat, limbs: seq<int>, k: nat, window: seq<int>)
    requires base >= 2 && 0 <= x < Pow(base, i) && Limbs(base, limbs) && k < |limbs|
    requires i + (|limbs| - k) <= |window| && window[0] == 0
    requires Val(base, window[1..]) == x * Val(base, limbs[k + 1..])
    ensures Val(base, window) + x * limbs[k] == x * Val(base, limbs[k..]) < Pow(base, |window|)
  {
    hide Val, Pow;
    assert window == [window[0]] + window[1..];
    ValCons(base, window[0], window[1..]);
    assert limbs[k..] == [limbs[k]] + limbs[k + 1..];
    ValCons(base, limbs[k], limbs[k + 1..]);
    Distributes(limbs[k], base * Val(base, limbs[k + 1..]), x);
    Associates(base, x, Val(base, limbs[k + 1..]));
    Associates(x, base, Val(base, limbs[k + 1..]));
    ValBound(base, limbs[k..]);
    ProductBelow(x, Pow(base, i), Val(base, limbs[k..]), Pow(base, |limbs| - k));
    PowAdds(base, i, |limbs| - k);
    PowGrows(base, i + (|limbs| - k), |window|);
  }

  /** The product of two numerals. */
  ghost function Product(base: nat, xs: seq<int>, ys: seq<int>): int {
    Val(base, xs) * Val(base, ys)
  }

  /** So the sum that the row computes fits, and is that product. */
  lemma NextRow(base: nat, factor: seq<int>, limbs: seq<int>, k: nat, window: seq<int>)
    requires base >= 2 && Limbs(base, factor) && Limbs(base, limbs) && k < |limbs|
    requires |factor| + (|limbs| - k) <= |window| && window[0] == 0
    requires Val(base, window[1..]) == Product(base, factor, limbs[k + 1..])
    ensures 0 <= MulHlp.Total(base, window, factor, limbs[k]) == Product(base, factor, limbs[k..]) < Pow(base, |window|)
  {
    hide Val, Pow;
    ValBound(base, factor);
    NextLimb(base, Val(base, factor), |factor|, limbs, k, window);
    ValBound(base, limbs[k..]);
    ProductMonotone(0, Val(base, limbs[k..]), Val(base, factor));
  }

  lemma LimbInRange(base: nat, limbs: seq<int>, k: nat)
    requires Limbs(base, limbs) && k < |limbs|
    ensures 0 <= limbs[k] < base
  {
  }

  /** One limb of the second factor, at `b + k`; `a`, `b` and `x` are where the three numbers begin. */
  method AddRow(huit: bool, base: nat, mem: array<int>, a: int, i: nat, b: int, k: nat, x: int, n: nat,
                ghost factor: seq<int>, ghost limbs: seq<int>)
    requires base >= 2 && Limbs(base, mem[..]) && |factor| == i && k < |limbs| && i + |limbs| <= n
    requires 0 <= x && x + n <= mem.Length && mem[x + k] == 0
    requires Holds(mem[..], a, factor, x, n) && Holds(mem[..], b, limbs, x, n)
    requires Val(base, mem[x + k + 1..x + n]) == Product(base, factor, limbs[k + 1..])
    modifies mem
    ensures Limbs(base, mem[..])
    ensures forall m :: 0 <= m < mem.Length && !(x + k <= m < x + n) ==> mem[m] == old(mem[m])
    ensures Val(base, mem[x + k..x + n]) == Product(base, factor, limbs[k..])
  {
    hide Val, Pow, Product, MulHlp.Total, Limbs, Holds;
    ghost var was, window := mem[..], mem[x + k..x + n];
    LimbsHeld(base, was, a, factor, x, n);
    LimbsHeld(base, was, b, limbs, x, n);
    LimbOf(was, b, limbs, x, n, k);
    LimbInRange(base, limbs, k);
    Narrower(was, a, factor, x, n, x + k, n - k);
    assert window[1..] == mem[x + k + 1..x + n];
    NextRow(base, factor, limbs, k, window);
    MulHlp.AddMultiple(huit, base, mem, i, a, x + k, mem[b + k], n - k, factor);
  }

  lemma ProductNothing(base: nat, source: seq<int>)
    ensures Product(base, source, []) == 0
  {
  }

  /** All rows, from the top limb of the second factor down, into `n` zeros at `x`. */
  method AddRows(huit: bool, base: nat, mem: array<int>, a: int, i: nat, b: int, jj: nat, x: int, n: nat,
                 ghost factor: seq<int>, ghost limbs: seq<int>)
    requires base >= 2 && Limbs(base, mem[..]) && |factor| == i && |limbs| == jj && i + jj <= n
    requires 0 <= x && x + n <= mem.Length && mem[x..x + n] == Zeros(n)
    requires Holds(mem[..], a, factor, x, n) && Holds(mem[..], b, limbs, x, n)
    modifies mem
    ensures Limbs(base, mem[..])
    ensures forall m :: 0 <= m < mem.Length && !(x <= m < x + n) ==> mem[m] == old(mem[m])
    ensures Val(base, mem[x..x + n]) == Product(base, factor, limbs)
  {
    hide Val, Pow, Product, Limbs, Zeros, Holds;
    var j: nat := jj;
    ghost var zeros := mem[x..x + n];
    ProductNothing(base, factor);
    assert limbs[jj..] == [];
    assert mem[x + jj..x + n] == zeros[jj..];
    ValZeros(base, zeros[jj..]);
    assert forall k :: 0 <= k < jj ==> mem[x + k] == zeros[k];
    while j > 0
      invariant j <= jj && Limbs(base, mem[..])
      invariant forall m :: 0 <= m < mem.Length && !(x + j <= m < x + n) ==> mem[m] == old(mem[m])
      invariant Val(base, mem[x + j..x + n]) == Product(base, factor, limbs[j..])
    {
      StillHolds(old(mem[..]), mem[..], a, factor, x, n);
      StillHolds(old(mem[..]), mem[..], b, limbs, x, n);
      j := j - 1;
      assert mem[x + j] == zeros[j];
      AddRow(huit, base, mem, a, i, b, j, x, n, factor, limbs);
    }
    assert limbs[0..] == limbs;
  }

  function Sign(s: int, s': int): int {
    s * s'
  }

  lemma SignIs(s: int, s': int)
    requires (s == 1 || s == -1) && (s' == 1 || s' == -1)
    ensures Sign(s, s') == 1 || Sign(s, s') == -1
  {
  }

  lemma SameProduct(base: nat, xs: seq<int>, xs': seq<int>, ys: seq<int>, ys': seq<int>)
    requires Val(base, xs) == Val(base, xs') && Val(base, ys) == Val(base, ys')
    ensures Product(base, xs, ys) == Product(base, xs', ys')
  {
  }

  /** A step that needs `k` limbs fails exactly if they are too many or the heap has refused a block. */
  ghost predicate Failed(ret: int, k: nat, before: nat, after: nat) {
    before <= after && (ret != 0 <==> k > 10000 || before < after)
  }

  lemma FailedFirst(ret: int, k: nat, n: nat, before: nat, after: nat)
    requires Failed(ret, k, before, after) && ret != 0 && k <= n
    ensures Failed(ret, n, before, after)
  {
  }

  lemma FailedNext(k: nat, before: nat, between: nat, ret: int, n: nat, after: nat)
    requires Failed(0, k, before, between) && Failed(ret, n, between, after)
    ensures Failed(ret, n, before, after)
  {
  }

  /** X becomes zero, in at least `k` limbs. */
  method Prepare(h: Heap, X: Mpi, k: nat) returns (ret: int)
    requires h.Valid() && X.In(h)
    modifies X, h, h.mem
    ensures h.Valid() && X.In(h) && (ret == OK || ret == MALLOC_FAILED)
    ensures ret == OK ==> X.n == Larger(old(X.n), AtLeastOne(k)) && X.Digits(h) == Zeros(X.n)
    ensures ret != OK ==> X.n == old(X.n) && X.Value(h) == old(X.Value(h))
    ensures Failed(ret, k, old(h.refusals), h.refusals)
    ensures Replaced(old(h.used), old(X.p), old(X.n), h.used, X.p, X.n)
    ensures Same(old(h.mem[..]), h.mem[..], old(h.used), old(X.p), old(X.n))
    ensures Clean(old(h.mem[..]), old(h.used), h.mem[..], h.used)
  {
    hide Val, Pow, Marked, Replaced, Same, Clean, Unused, InUse, Limbs;
    ghost var used, mem, p, n := h.used, h.mem[..], X.p, X.n;
    InBounds(used, p, n);
    ret := X.Grow(h, k);
    if ret != OK {
      assert X.Digits(h) == mem[p..p + n];
      return;
    }
    ghost var used1, mem1, p1, n1 := h.used, h.mem[..], X.p, X.n;
    ret := X.Lset(h, 0);
    ReplacedTrans(used, p, n, used1, p1, n1, h.used, X.p, X.n);
    SameTrans(mem, mem1, h.mem[..], used, p, n, used1, p1, n1);
    CleanTrans(mem, used, mem1, used1, h.mem[..], h.used);
    if ret == OK {
      assert X.Digits(h) == [0] + Zeros(X.n - 1) == Zeros(X.n);
    }
  }

  /** The same for two numbers of which only the first limbs, `i` and `j` of them, are not zero. */
  method AddAllRows(huit: bool, base: nat, mem: array<int>, a: int, i: nat, b: int, j: nat, x: int, n: nat,
                    ghost xs: seq<int>, ghost ys: seq<int>)
    requires base >= 2 && Limbs(base, mem[..]) && i + j <= n && 0 <= x && x + n <= mem.Length
    requires 0 <= a && a + |xs| <= mem.Length && 0 <= b && b + |ys| <= mem.Length && i <= |xs| && j <= |ys|
    requires Apart(a, |xs|, x, n) && Apart(b, |ys|, x, n) && mem[x..x + n] == Zeros(n)
    requires mem[a..a + |xs|] == xs && mem[b..b + |ys|] == ys && ZerosFrom(xs, i) && ZerosFrom(ys, j)
    modifies mem
    ensures Limbs(base, mem[..])
    ensures forall m :: 0 <= m < mem.Length && !(x <= m < x + n) ==> mem[m] == old(mem[m])
    ensures Val(base, mem[x..x + n]) == Product(base, xs, ys)
  {
    hide Val, Pow, Product, Limbs, Zeros, ZerosFrom, Holds, Apart;
    ValTrim(base, xs, i);
    ValTrim(base, ys, j);
    SameProduct(base, xs, xs[..i], ys, ys[..j]);
    HoldsFront(mem[..], a, |xs|, i, x, n);
    HoldsFront(mem[..], b, |ys|, j, x, n);
    AddRows(huit, base, mem, a, i, b, j, x, n, xs[..i], ys[..j]);
  }

  /** Makes room for the product, away from two blocks in use, whose limbs stay. */
  method MakeRoom(h: Heap, X: Mpi, k: nat, ghost a: int, ghost xs: seq<int>, ghost b: int, ghost ys: seq<int>)
    returns (ret: int)
    requires h.Valid() && X.In(h) && InUse(h.used, a, |xs|) && InUse(h.used, b, |ys|)
    requires (xs == [] ==> a == 0) && (ys == [] ==> b == 0) && Apart(a, |xs|, X.p, X.n) && Apart(b, |ys|, X.p, X.n)
    requires h.mem[..][a..a + |xs|] == xs && h.mem[..][b..b + |ys|] == ys
    modifies X, h, h.mem
    ensures h.Valid() && X.In(h) && (ret == OK || ret == MALLOC_FAILED)
    ensures ret == OK ==> X.n == Larger(old(X.n), AtLeastOne(k)) >= k && h.mem[X.p..X.p + X.n] == Zeros(X.n)
    ensures Failed(ret, k, old(h.refusals), h.refusals)
    ensures 0 <= a && a + |xs| <= h.mem.Length && h.mem[a..a + |xs|] == xs && Apart(a, |xs|, X.p, X.n)
    ensures 0 <= b && b + |ys| <= h.mem.Length && h.mem[b..b + |ys|] == ys && Apart(b, |ys|, X.p, X.n)
    ensures ret != OK ==> X.n == old(X.n) && X.Value(h) == old(X.Value(h))
    ensures Replaced(old(h.used), old(X.p), old(X.n), h.used, X.p, X.n)
    ensures Same(old(h.mem[..]), h.mem[..], old(h.used), old(X.p), old(X.n))
    ensures Clean(old(h.mem[..]), old(h.used), h.mem[..], h.used)
  {
    hide Val, Marked, Replaced, Same, Clean, Unused, InUse, Limbs, Apart, Zeros, Failed;
    ghost var used, mem, p, n := h.used, h.mem[..], X.p, X.n;
    InBounds(used, a, |xs|);
    InBounds(used, b, |ys|);
    ret := Prepare(h, X, k);
    InBounds(h.used, X.p, X.n);
    OtherStays(mem, h.mem[..], used, p, n, h.used, X.p, X.n, a, |xs|);
    OtherStays(mem, h.mem[..], used, p, n, h.used, X.p, X.n, b, |ys|);
  }

  /** The rows, into a number that is zero. */
  method Finish(huit: bool, h: Heap, X: Mpi, A: Mpi, i: nat, B: Mpi, j: nat, ghost xs: seq<int>, ghost ys: seq<int>)
    requires h.Valid() && X.In(h) && X != A && X != B && (A.s == 1 || A.s == -1) && (B.s == 1 || B.s == -1)
    requires |xs| == A.n && 0 <= A.p && A.p + A.n <= h.mem.Length && h.mem[A.p..A.p + A.n] == xs
    requires |ys| == B.n && 0 <= B.p && B.p + B.n <= h.mem.Length && h.mem[B.p..B.p + B.n] == ys
    requires Apart(A.p, A.n, X.p, X.n) && Apart(B.p, B.n, X.p, X.n) && X.n >= i + j
    requires h.mem[X.p..X.p + X.n] == Zeros(X.n) && i <= A.n && j <= B.n && ZerosFrom(xs, i) && ZerosFrom(ys, j)
    modifies X`s, h.mem
    ensures h.Valid() && X.In(h) && X.s == Sign(A.s, B.s) && X.Magnitude(h) == Product(h.base, xs, ys)
    ensures Same(old(h.mem[..]), h.mem[..], h.used, X.p, X.n)
    ensures Clean(old(h.mem[..]), h.used, h.mem[..], h.used)
  {
    hide Val, Product, Sign, Same, Clean, Unused, InUse, Limbs, Apart, ZerosFrom, Zeros;
    InBounds(h.used, X.p, X.n);
    ghost var mem := h.mem[..];
    AddAllRows(huit, h.base, h.mem, A.p, i, B.p, j, X.p, X.n, xs, ys);
    X.s := Sign(A.s, B.s);
    SignIs(A.s, B.s);
    SameOutside(mem, h.mem[..], h.used, X.p, X.n);
    CleanInside(mem, h.mem[..], h.used, X.p, X.n);
  }

  /** The product of two numbers elsewhere, of which `i` and `j` limbs are used. */
  method MultiplyUsed(huit: bool, h: Heap, X: Mpi, A: Mpi, i: nat, B: Mpi, j: nat,
                      ghost xs: seq<int>, ghost ys: seq<int>)
    returns (ret: int)
    requires h.Valid() && X.In(h) && X != A && X != B && (A.s == 1 || A.s == -1) && (B.s == 1 || B.s == -1)
    requires |xs| == A.n && InUse(h.used, A.p, A.n) && Apart(A.p, A.n, X.p, X.n) && (A.n == 0 ==> A.p == 0)
    requires |ys| == B.n && InUse(h.used, B.p, B.n) && Apart(B.p, B.n, X.p, X.n) && (B.n == 0 ==> B.p == 0)
    requires h.mem[..][A.p..A.p + A.n] == xs && h.mem[..][B.p..B.p + B.n] == ys
    requires i <= A.n && j <= B.n && ZerosFrom(xs, i) && ZerosFrom(ys, j)
    modifies X, h, h.mem
    ensures h.Valid() && X.In(h) && (ret == OK || ret == MALLOC_FAILED)
    ensures ret == OK ==> X.s == Sign(A.s, B.s) && X.Magnitude(h) == Product(h.base, xs, ys)
    ensures ret == OK ==> X.n == Larger(old(X.n), AtLeastOne(i + j))
    ensures ret != OK ==> X.n == old(X.n) && X.Value(h) == old(X.Value(h))
    ensures Failed(ret, i + j, old(h.refusals), h.refusals)
    ensures Replaced(old(h.used), old(X.p), old(X.n), h.used, X.p, X.n)
    ensures Same(old(h.mem[..]), h.mem[..], old(h.used), old(X.p), old(X.n))
    ensures Clean(old(h.mem[..]), old(h.used), h.mem[..], h.used)
  {
    hide Val, Product, Sign, Marked, Replaced, Same, Clean, Unused, InUse, Limbs, Apart, ZerosFrom, Zeros, Failed;
    hide Larger, AtLeastOne;
    ghost var used, mem, p, n := h.used, h.mem[..], X.p, X.n;
    ret := MakeRoom(h, X, i + j, A.p, xs, B.p, ys);
    if ret == OK {
      ghost var used2, mem2 := h.used, h.mem[..];
      Finish(huit, h, X, A, i, B, j, xs, ys);
      SameTrans(mem, mem2, h.mem[..], used, p, n, used2, X.p, X.n);
      CleanTrans(mem, used, mem2, used2, h.mem[..], used2);
    }
  }

  /** X becomes the product of two numbers elsewhere. */
  method Multiply(huit: bool, h: Heap, X: Mpi, A: Mpi, B: Mpi, ghost xs: seq<int>, ghost ys: seq<int>)
    returns (ret: int)
    requires h.Valid() && X.In(h) && A.In(h) && B.In(h) && X != A && X != B
    requires Apart(A.p, A.n, X.p, X.n) && Apart(B.p, B.n, X.p, X.n) && xs == A.Digits(h) && ys == B.Digits(h)
    modifies X, h, h.mem
    ensures h.Valid() && X.In(h) && (ret == OK || ret == MALLOC_FAILED)
    ensures ret == OK ==> X.s == Sign(A.s, B.s) && X.Magnitude(h) == Product(h.base, xs, ys)
    ensures ret == OK ==> X.n == Larger(old(X.n), AtLeastOne(Used(xs) + Used(ys)))
    ensures ret != OK ==> X.n == old(X.n) && X.Value(h) == old(X.Value(h))
    ensures Failed(ret, Used(xs) + Used(ys), old(h.refusals), h.refusals)
    ensures Replaced(old(h.used), old(X.p), old(X.n), h.used, X.p, X.n)
    ensures Same(old(h.mem[..]), h.mem[..], old(h.used), old(X.p), old(X.n))
    ensures Clean(old(h.mem[..]), old(h.used), h.mem[..], h.used)
  {
    hide Val, Product, Sign, Marked, Replaced, Same, Clean, Unused, InUse, Limbs, Apart, ZerosFrom, Used, Failed;
    hide Larger, AtLeastOne;
    InBounds(h.used, A.p, A.n);
    InBounds(h.used, B.p, B.n);
    var i := A.UsedLimbs(h);
    var j := B.UsedLimbs(h);
    ret := MultiplyUsed(huit, h, X, A, i, B, j, xs, ys);
  }

  lemma Signs(s: int, x: int, s': int, y: int)
    requires (s == 1 || s == -1) && (s' == 1 || s' == -1)
    ensures (s * s') * (x * y) == (s * x) * (s' * y)
    ensures s * s' == 1 || s * s' == -1
  {
    Distributes(x, -x, y);
    Distributes(y, -y, x);
    Distributes(x, -x, -y);
    if s == 1 {
      assert s * x == x && s * s' == s';
    } else {
      assert s * x == -x && s * s' == -s';
    }
  }

  lemma SignedProduct(base: nat, s: int, xs: seq<int>, s': int, ys: seq<int>)
    requires (s == 1 || s == -1) && (s' == 1 || s' == -1)
    ensures Sign(s, s') * Product(base, xs, ys) == (s * Val(base, xs)) * (s' * Val(base, ys))
  {
    hide Val;
    Signs(s, Val(base, xs), s', Val(base, ys));
  }

  ghost function Times(x: int, y: int): int {
    x * y
  }

  lemma BorrowedBlocks(u0: seq<bool>, t: int, k: nat, u1: seq<bool>, p: int, n: nat, u2: seq<bool>, p': int, n': nat,
                       u3: seq<bool>)
    requires Replaced(u0, 0, 0, u1, t, k) && Replaced(u1, p, n, u2, p', n') && Replaced(u2, t, k, u3, 0, 0)
    requires InUse(u0, p, n)
    ensures Replaced(u0, p, n, u3, p', n')
  {
    forall a | 0 <= a < |u0| && t <= a < t + k ensures !u0[a] && u1[a] && !(p <= a < p + n) {
      assert !Marked(u0, 0, 0, false)[a];
    }
    forall a | 0 <= a < |u0| && p' <= a < p' + n' ensures !Marked(u0, p, n, false)[a] && !(t <= a < t + k) {
      assert !Marked(u1, p, n, false)[a];
    }
    assert u3 == Marked(Marked(u0, p, n, false), p', n', true);
  }

  /** A block taken before a step and given back after it leaves no trace. */
  lemma Borrowed(u0: seq<bool>, m0: seq<int>, t: int, k: nat, u1: seq<bool>, m1: seq<int>, p: int, n: nat,
                 u2: seq<bool>, m2: seq<int>, p': int, n': nat, u3: seq<bool>, m3: seq<int>)
    requires Replaced(u0, 0, 0, u1, t, k) && Same(m0, m1, u0, 0, 0)
    requires Replaced(u1, p, n, u2, p', n') && Same(m1, m2, u1, p, n)
    requires Replaced(u2, t, k, u3, 0, 0) && Same(m2, m3, u2, t, k)
    requires InUse(u0, p, n)
    ensures Replaced(u0, p, n, u3, p', n') && Same(m0, m3, u0, p, n)
  {
    BorrowedBlocks(u0, t, k, u1, p, n, u2, p', n', u3);
    forall a | 0 <= a < |m0| && u0[a] && !(p <= a < p + n) ensures m3[a] == m0[a] {
      assert !(t <= a < t + k) by {
        assert Marked(u0, 0, 0, false)[a];
      }
      assert u1[a] && u2[a];
    }
  }

  lemma EmptyInUse(used: seq<bool>)
    ensures InUse(used, 0, 0)
  {
  }

  lemma AwayFromNothing(p: int, n: nat)
    requires p >= 0
    ensures Apart(p, n, 0, 0)
  {
  }

  lemma ApartEither(p: int, n: nat, q: int, k: nat)
    requires Apart(p, n, q, k)
    ensures Apart(q, k, p, n)
  {
  }

  /** A number for a copy, which is taken if it is asked for. */
  method CopyIf(h: Heap, asked: bool, A: Mpi) returns (ret: int, T: Mpi)
    requires h.Valid() && A.In(h)
    modifies h, h.mem
    ensures h.Valid() && fresh(T) && T.In(h) && (ret == OK || ret == MALLOC_FAILED)
    ensures asked && ret == OK ==> T.Value(h) == old(A.Value(h)) && Used(T.Digits(h)) == old(Used(A.Digits(h)))
    ensures Failed(ret, if asked then old(Used(A.Digits(h))) else 0, old(h.refusals), h.refusals)
    ensures Replaced(old(h.used), 0, 0, h.used, T.p, T.n) && Same(old(h.mem[..]), h.mem[..], old(h.used), 0, 0)
    ensures Clean(old(h.mem[..]), old(h.used), h.mem[..], h.used)
    ensures !asked ==> unchanged(h) && unchanged(h.mem)
  {
    hide Val, Marked, Replaced, Same, Clean, Unused, Limbs, Used, Larger, AtLeastOne;
    T := new Mpi();
    ret := OK;
    EmptyInUse(h.used);
    ReplacedBySelf(h.used, 0, 0);
    SameBySelf(h.mem[..], h.used, 0, 0);
    CleanBySelf(h.mem[..], h.used);
    if asked {
      ret := T.Copy(h, A);
    }
  }

  lemma DigitsAre(h: Heap, X: Mpi)
    requires X.In(h)
    ensures 0 <= X.p && X.p + X.n <= h.mem.Length && X.Digits(h) == h.mem[..][X.p..X.p + X.n]
  {
  }

  /** The same, and two numbers elsewhere stay. */
  method CopyApart(h: Heap, asked: bool, A: Mpi, ghost X: Mpi, ghost B: Mpi) returns (ret: int, T: Mpi)
    requires h.Valid() && A.In(h) && X.In(h) && B.In(h)
    modifies h, h.mem
    ensures h.Valid() && fresh(T) && T.In(h) && (ret == OK || ret == MALLOC_FAILED)
    ensures asked && ret == OK ==> T.Value(h) == old(A.Value(h)) && Used(T.Digits(h)) == old(Used(A.Digits(h)))
    ensures X.In(h) && X.Digits(h) == old(X.Digits(h)) && Apart(X.p, X.n, T.p, T.n)
    ensures B.In(h) && B.Digits(h) == old(B.Digits(h))
    ensures Failed(ret, if asked then old(Used(A.Digits(h))) else 0, old(h.refusals), h.refusals)
    ensures Replaced(old(h.used), 0, 0, h.used, T.p, T.n) && Same(old(h.mem[..]), h.mem[..], old(h.used), 0, 0)
    ensures Clean(old(h.mem[..]), old(h.used), h.mem[..], h.used)
    ensures !asked ==> unchanged(h) && unchanged(h.mem)
  {
    hide Val, Marked, Replaced, Same, Clean, Unused, InUse, Limbs, Used, Failed, Apart;
    hide Mpi.Digits, Mpi.Value, Mpi.Magnitude, Heap.Valid;
    ghost var used, mem := h.used, h.mem[..];
    InBounds(used, X.p, X.n);
    InBounds(used, B.p, B.n);
    AwayFromNothing(X.p, X.n);
    AwayFromNothing(B.p, B.n);
    DigitsAre(h, X);
    DigitsAre(h, B);
    ret, T := CopyIf(h, asked, A);
    InBounds(h.used, T.p, T.n);
    OtherStays(mem, h.mem[..], used, 0, 0, h.used, T.p, T.n, X.p, X.n);
    OtherStays(mem, h.mem[..], used, 0, 0, h.used, T.p, T.n, B.p, B.n);
    DigitsAre(h, X);
    DigitsAre(h, B);
  }

  /** A factor that is the result itself is copied first; `T` holds the copy. The other factor stays. */
  method Operand(h: Heap, X: Mpi, A: Mpi, ghost B: Mpi) returns (ret: int, A': Mpi, T: Mpi)
    requires h.Valid() && X.In(h) && A.In(h) && B.In(h) && (X != A ==> Apart(A.p, A.n, X.p, X.n))
    modifies h, h.mem
    ensures h.Valid() && fresh(T) && T.In(h) && X.In(h) && Apart(T.p, T.n, X.p, X.n)
    ensures (ret == OK || ret == MALLOC_FAILED) && (A' == A || A' == T) && A' != X
    ensures ret == OK ==> A'.In(h) && Apart(A'.p, A'.n, X.p, X.n) && A'.Value(h) == old(A.Value(h))
    ensures ret == OK ==> Used(A'.Digits(h)) == old(Used(A.Digits(h)))
    ensures B.In(h) && B.Digits(h) == old(B.Digits(h)) && X.Digits(h) == old(X.Digits(h))
    ensures Failed(ret, if X == A then old(Used(A.Digits(h))) else 0, old(h.refusals), h.refusals)
    ensures Replaced(old(h.used), 0, 0, h.used, T.p, T.n) && Same(old(h.mem[..]), h.mem[..], old(h.used), 0, 0)
    ensures Clean(old(h.mem[..]), old(h.used), h.mem[..], h.used)
  {
    hide Val, Marked, Replaced, Same, Clean, Unused, InUse, Limbs, Used, Failed, Apart;
    ret, T := CopyApart(h, X == A, A, X, B);
    A' := if X == A then T else A;
    ApartEither(X.p, X.n, T.p, T.n);
  }

  /** A block in use stays where another is given back. */
  lemma EndStays(mem: seq<int>, mem': seq<int>, used: seq<bool>, t: int, k: nat, used': seq<bool>, p: int, n: nat)
    requires Replaced(used, t, k, used', 0, 0) && Same(mem, mem', used, t, k)
    requires InUse(used, p, n) && Apart(t, k, p, n) && (n == 0 ==> p == 0)
    ensures InUse(used', p, n) && mem'[p..p + n] == mem[p..p + n]
  {
    OtherStays(mem, mem', used, t, k, used', 0, 0, p, n);
  }

  lemma SameLength(used: seq<bool>, p: int, n: nat, used': seq<bool>, p': int, n': nat)
    requires Replaced(used, p, n, used', p', n')
    ensures |used'| == |used|
  {
  }

  /** Gives the copy of a factor back, after the product. */
  method GiveBack(h: Heap, X: Mpi, T: Mpi, ghost u0: seq<bool>, ghost m0: seq<int>,
                  ghost u1: seq<bool>, ghost m1: seq<int>, ghost p: int, ghost n: nat)
    requires h.Valid() && X.In(h) && X != T && (T.s == 1 || T.s == -1) && (T.n == 0 <==> T.p == NULL)
    requires InUse(u0, p, n) && InUse(u1, T.p, T.n) && Apart(T.p, T.n, p, n)
    requires Replaced(u0, 0, 0, u1, T.p, T.n) && Same(m0, m1, u0, 0, 0)
    requires Replaced(u1, p, n, h.used, X.p, X.n) && Same(m1, h.mem[..], u1, p, n)
    requires Clean(m0, u0, m1, u1) && Clean(m1, u1, h.mem[..], h.used)
    modifies T, h`used, h.mem
    ensures h.Valid() && X.In(h) && X.Value(h) == old(X.Value(h))
    ensures Replaced(u0, p, n, h.used, X.p, X.n) && Same(m0, h.mem[..], u0, p, n)
    ensures Clean(m0, u0, h.mem[..], h.used)
  {
    hide Val, Marked, Replaced, Same, Clean, Unused, InUse, Limbs, Apart;
    ghost var u2, m2, t, k := h.used, h.mem[..], T.p, T.n;
    InBounds(u2, X.p, X.n);
    SameLength(u1, p, n, u2, X.p, X.n);
    OtherStays(m1, m2, u1, p, n, u2, X.p, X.n, t, k);
    T.Clear(h);
    EndStays(m2, h.mem[..], u2, t, k, h.used, X.p, X.n);
    Borrowed(u0, m0, t, k, u1, m1, p, n, u2, m2, X.p, X.n, h.used, h.mem[..]);
    CleanTrans(m0, u0, m1, u1, m2, u2);
    CleanTrans(m0, u0, m2, u2, h.mem[..], h.used);
  }

  method MultiplyValues(huit: bool, h: Heap, X: Mpi, A: Mpi, B: Mpi) returns (ret: int)
    requires h.Valid() && X.In(h) && A.In(h) && B.In(h) && X != A && X != B
    requires Apart(A.p, A.n, X.p, X.n) && Apart(B.p, B.n, X.p, X.n)
    modifies X, h, h.mem
    ensures h.Valid() && X.In(h) && (ret == OK || ret == MALLOC_FAILED)
    ensures ret == OK ==> X.Value(h) == Times(old(A.Value(h)), old(B.Value(h)))
    ensures ret == OK ==> X.n == Larger(old(X.n), AtLeastOne(Used(old(A.Digits(h))) + Used(old(B.Digits(h)))))
    ensures ret != OK ==> X.Value(h) == old(X.Value(h))
    ensures Failed(ret, Used(old(A.Digits(h))) + Used(old(B.Digits(h))), old(h.refusals), h.refusals)
    ensures Replaced(old(h.used), old(X.p), old(X.n), h.used, X.p, X.n)
    ensures Same(old(h.mem[..]), h.mem[..], old(h.used), old(X.p), old(X.n))
    ensures Clean(old(h.mem[..]), old(h.used), h.mem[..], h.used)
  {
    hide Val, Marked, Replaced, Same, Clean, Unused, InUse, Limbs, Product, Sign, Apart, Used, Failed;
    hide Larger, AtLeastOne;
    SignedProduct(h.base, A.s, A.Digits(h), B.s, B.Digits(h));
    ret := Multiply(huit, h, X, A, B, A.Digits(h), B.Digits(h));
  }

  /** The product, when only the second factor may be the result itself. */
  method MultiplyBy(huit: bool, h: Heap, X: Mpi, A: Mpi, B: Mpi) returns (ret: int)
    requires h.Valid() && X.In(h) && A.In(h) && B.In(h) && X != A && Apart(A.p, A.n, X.p, X.n)
    requires X != B ==> Apart(B.p, B.n, X.p, X.n)
    modifies X, h, h.mem
    ensures h.Valid() && X.In(h) && (ret == OK || ret == MALLOC_FAILED)
    ensures ret == OK ==> X.Value(h) == Times(old(A.Value(h)), old(B.Value(h)))
    ensures ret == OK ==> X.n == Larger(old(X.n), AtLeastOne(Used(old(A.Digits(h))) + Used(old(B.Digits(h)))))
    ensures ret != OK ==> X.Value(h) == old(X.Value(h))
    ensures Failed(ret, Used(old(A.Digits(h))) + Used(old(B.Digits(h))), old(h.refusals), h.refusals)
    ensures Replaced(old(h.used), old(X.p), old(X.n), h.used, X.p, X.n)
    ensures Same(old(h.mem[..]), h.mem[..], old(h.used), old(X.p), old(X.n))
    ensures Clean(old(h.mem[..]), old(h.used), h.mem[..], h.used)
  {
    hide Val, Marked, Replaced, Same, Clean, Unused, InUse, Limbs, Times, Product, Sign, Apart, Used, Failed;
    hide Larger, AtLeastOne;
    ghost var used, mem, p, n := h.used, h.mem[..], X.p, X.n;
    ghost var a, b := A.Value(h), B.Value(h);
    ghost var refusals, i, j := h.refusals, Used(A.Digits(h)), Used(B.Digits(h));
    var B', TB;
    ret, B', TB := Operand(h, X, B, A);
    ghost var refusals1 := h.refusals;
    ghost var used1, mem1 := h.used, h.mem[..];
    if ret == OK {
      assert Used(A.Digits(h)) == i && Used(B'.Digits(h)) == j;
      ret := MultiplyValues(huit, h, X, A, B');
      FailedNext(if X == B then j else 0, refusals, refusals1, ret, i + j, h.refusals);
    } else {
      FailedFirst(ret, if X == B then j else 0, i + j, refusals, refusals1);
      ReplacedBySelf(used1, p, n);
      SameBySelf(mem1, used1, p, n);
      CleanBySelf(mem1, used1);
    }
    GiveBack(h, X, TB, used, mem, used1, mem1, p, n);
  }

  /**
   * X becomes the product of any two numbers, either of which, or both, may be X itself. If a block cannot be
   * had, X keeps its value. Every other block in use keeps its limbs, and no other block is taken for good.
   */
  method MulMpi(huit: bool, h: Heap, X: Mpi, A: Mpi, B: Mpi) returns (ret: int)
    requires h.Valid() && X.In(h) && A.In(h) && B.In(h)
    requires (X != A ==> Apart(A.p, A.n, X.p, X.n)) && (X != B ==> Apart(B.p, B.n, X.p, X.n))
    modifies X, h, h.mem
    ensures h.Valid() && X.In(h) && (ret == 0 || ret == -16)
    ensures ret == 0 ==> X.Value(h) == old(A.Value(h)) * old(B.Value(h))
    ensures ret == OK ==> X.n == Larger(old(X.n), AtLeastOne(Used(old(A.Digits(h))) + Used(old(B.Digits(h)))))
    ensures ret != OK ==> X.Value(h) == old(X.Value(h))
    ensures Failed(ret, Used(old(A.Digits(h))) + Used(old(B.Digits(h))), old(h.refusals), h.refusals)
    ensures Replaced(old(h.used), old(X.p), old(X.n), h.used, X.p, X.n)
    ensures Same(old(h.mem[..]), h.mem[..], old(h.used), old(X.p), old(X.n))
    ensures Clean(old(h.mem[..]), old(h.used), h.mem[..], h.used)
  {
    hide Val, Marked, Replaced, Same, Clean, Unused, InUse, Limbs, Product, Sign, Apart, Used, Failed;
    hide Larger, AtLeastOne;
    ghost var used, mem, p, n := h.used, h.mem[..], X.p, X.n;
    ghost var refusals, i, j := h.refusals, Used(A.Digits(h)), Used(B.Digits(h));
    var A', TA;
    ret, A', TA := Operand(h, X, A, B);
    ghost var refusals1 := h.refusals;
    ghost var used1, mem1 := h.used, h.mem[..];
    if ret == OK {
      assert Used(A'.Digits(h)) == i && Used(B.Digits(h)) == j;
      ret := MultiplyBy(huit, h, X, A', B);
      FailedNext(if X == A then i else 0, refusals, refusals1, ret, i + j, h.refusals);
    } else {
      FailedFirst(ret, if X == A then i else 0, i + j, refusals, refusals1);
      ReplacedBySelf(used1, p, n);
      SameBySelf(mem1, used1, p, n);
      CleanBySelf(mem1, used1);
    }
    GiveBack(h, X, TA, used, mem, used1, mem1, p, n);
  }
}
