/**
 * Numbers of any size: a sign, and limbs in a memory block that grows when it has to. Blocks come from one
 * memory, and asking for one may fail.
 */
module Bignum {
  import opened Blocks
  import opened Numerals

  const MAX_LIMBS := 10000

  /** No block begins at this address. */
  const NULL := 0

  const OK := 0

  const MALLOC_FAILED := -0x0010

  class Heap {
    const base: nat
    const mem: array<int>
    var used: seq<bool>
    /** How often a block has been refused. */
    ghost var refusals: nat

    ghost predicate Valid()
      reads this, mem
    {
      base >= 2 && Limbs(base, mem[..]) && |used| == mem.Length
    }

    /** Any block that is not in use, or none at all. */
    method Malloc(n: nat) returns (p: int)
      requires Valid()
      modifies this
      ensures Valid()
      ensures if p == NULL then used == old(used)
              else 0 < p && p + n <= mem.Length && Unused(old(used), p, n) && used == Marked(old(used), p, n, true)
      ensures refusals == if p == NULL then old(refusals) + 1 else old(refusals)
    {
      p := *;
      if p <= 0 || p + n > mem.Length || !Unused(used, p, n) {
        refusals := refusals + 1;
        return NULL;
      }
      used := Marked(used, p, n, true);
    }

    method Free(p: int, n: nat)
      requires Valid()
      modifies `used
      ensures Valid() && used == Marked(old(used), p, n, false)
    {
      used := Marked(used, p, n, false);
    }

    method Zero(p: int, n: nat)
      requires Valid() && 0 <= p && p + n <= mem.Length
      modifies mem
      ensures Valid()
      ensures forall a :: 0 <= a < mem.Length ==> mem[a] == if p <= a < p + n then 0 else old(mem[a])
    {
      forall a | p <= a < p + n {
        mem[a] := 0;
      }
    }

    method Move(to: int, from: int, n: nat)
      requires Valid() && 0 <= to && to + n <= mem.Length && 0 <= from && from + n <= mem.Length
      requires to + n <= from || from + n <= to
      modifies mem
      ensures Valid()
      ensures mem[to..to + n] == old(mem[from..from + n])
      ensures forall a :: 0 <= a < mem.Length && !(to <= a < to + n) ==> mem[a] == old(mem[a])
    {
      forall a | to <= a < to + n {
        mem[a] := mem[from + a - to];
      }
    }

    /** Wipes a block and copies some limbs to its front. */
    method Refill(p: int, n: nat, from: int, i: nat)
      requires Valid() && 0 <= p && p + n <= mem.Length && 0 <= from && from + i <= mem.Length
      requires i <= n && Apart(from, i, p, n)
      modifies mem
      ensures Valid() && mem[p..p + n] == old(mem[from..from + i]) + Zeros(n - i)
      ensures forall a :: 0 <= a < mem.Length && !(p <= a < p + n) ==> mem[a] == old(mem[a])
    {
      ghost var digits := mem[from..from + i];
      Zero(p, n);
      assert mem[from..from + i] == digits;
      Move(p, from, i);
      ThenZeros(mem[..], p, i, n, digits);
    }

    method SetOne(p: int, n: nat, x: int)
      requires Valid() && 0 <= p && p + n <= mem.Length && n > 0 && 0 <= x < base
      modifies mem
      ensures Valid() && mem[p..p + n] == [x] + Zeros(n - 1)
      ensures forall a :: 0 <= a < mem.Length && !(p <= a < p + n) ==> mem[a] == old(mem[a])
    {
      Zero(p, n);
      mem[p] := x;
    }

    method Wipe(p: int, n: nat, ghost q: int, ghost k: nat)
      requires Valid() && 0 <= p && p + n <= mem.Length && 0 <= q && q + k <= mem.Length && (p + n <= q || q + k <= p)
      modifies mem
      ensures Valid() && mem[q..q + k] == old(mem[q..q + k])
      ensures forall a :: 0 <= a < mem.Length ==> mem[a] == if p <= a < p + n then 0 else old(mem[a])
    {
      Zero(p, n);
    }

    /** Copies a block to the front of a larger one, wipes it and gives it back. */
    method Transfer(q: int, k: nat, p: int, n: nat)
      requires Valid() && 0 < q && q + k <= mem.Length && 0 <= p && p + n <= mem.Length && n < k
      requires (p + n <= q || q + k <= p) && (p == NULL ==> n == 0)
      modifies `used, mem
      ensures Valid() && mem[q..q + k] == old(mem[p..p + n]) + Zeros(k - n)
      ensures used == Marked(old(used), p, n, false)
      ensures forall a :: 0 <= a < mem.Length && p <= a < p + n ==> mem[a] == 0
      ensures forall a :: 0 <= a < mem.Length && !(q <= a < q + k) && !(p <= a < p + n) ==> mem[a] == old(mem[a])
    {
      ghost var digits := mem[p..p + n];
      Zero(q, k);
      assert mem[p..p + n] == digits;
      if p != NULL {
        Move(q, p, n);
        assert mem[q..q + n] == digits;
        Wipe(p, n, q, k);
        Free(p, n);
      } else {
        assert used == Marked(used, p, n, false);
      }
      ThenZeros(mem[..], q, n, k, digits);
    }
  }

  function Larger(m: nat, n: nat): nat {
    if m > n then m else n
  }

  function AtLeastOne(n: nat): nat {
    Larger(n, 1)
  }

  lemma OneLimb(base: nat, x: int, k: nat)
    ensures Val(base, [x] + Zeros(k)) == x
  {
    ValTrim(base, [x] + Zeros(k), 1);
    ValOne(base, x);
    assert ([x] + Zeros(k))[..1] == [x];
  }

  /** The number of limbs of a block up to the last one that is not zero. */
  method CountLimbs(mem: array<int>, p: int, n: nat, ghost digits: seq<int>) returns (i: nat)
    requires 0 <= p && p + n <= mem.Length && |digits| == n && mem[p..p + n] == digits
    ensures i <= n && (i > 0 ==> digits[i - 1] != 0) && ZerosFrom(digits, i)
    ensures i == Used(digits)
  {
    i := n;
    while i > 0
      invariant i <= n && ZerosFrom(digits, i)
    {
      assert digits[i - 1] == mem[p + i - 1];
      if mem[p + i - 1] != 0 {
        break;
      }
      i := i - 1;
    }
    UsedIs(digits, i);
  }

  class Mpi {
    var s: int
    var n: nat
    var p: int

    constructor ()
      ensures s == 1 && n == 0 && p == NULL
    {
      s, n, p := 1, 0, NULL;
    }

    ghost predicate In(h: Heap)
      reads this, h
    {
      (s == 1 || s == -1) && (n == 0 <==> p == NULL) && |h.used| == h.mem.Length && InUse(h.used, p, n)
    }

    ghost function Digits(h: Heap): seq<int>
      requires In(h)
      reads this, h, h.mem
    {
      h.mem[..][p..p + n]
    }

    ghost function Magnitude(h: Heap): int
      requires In(h)
      reads this, h, h.mem
    {
      Val(h.base, Digits(h))
    }

    ghost function Value(h: Heap): int
      requires In(h)
      reads this, h, h.mem
    {
      s * Magnitude(h)
    }

    /** Moves the limbs to the larger block at `q`, and gives the old one back. */
    method Relocate(h: Heap, q: int, k: nat)
      requires h.Valid() && In(h) && q > 0 && n < k && InUse(h.used, q, k) && (p + n <= q || q + k <= p)
      modifies this, h`used, h.mem
      ensures h.Valid() && In(h) && s == old(s) && n == k && p == q && Digits(h) == old(Digits(h)) + Zeros(k - old(n))
      ensures h.used == Marked(old(h.used), old(p), old(n), false)
      ensures forall a :: 0 <= a < h.mem.Length && old(p) <= a < old(p) + old(n) ==> h.mem[a] == 0
      ensures forall a :: 0 <= a < h.mem.Length && !(q <= a < q + k) && !(old(p) <= a < old(p) + old(n)) ==>
                h.mem[a] == old(h.mem[a])
    {
      h.Transfer(q, k, p, n);
      n, p := k, q;
    }

    /** Makes room for `k` limbs. */
    method Grow(h: Heap, k: nat) returns (ret: int)
      requires h.Valid() && In(h)
      modifies this, h, h.mem
      ensures h.Valid() && In(h) && s == old(s)
      ensures ret == 0 || ret == -16
      ensures ret == OK ==> n == (if k > old(n) then k else old(n)) && Digits(h) == old(Digits(h)) + Zeros(n - old(n))
      ensures ret != OK ==> n == old(n)
      ensures n == old(n) ==> p == old(p) && h.used == old(h.used) && h.mem[..] == old(h.mem[..])
      ensures Replaced(old(h.used), old(p), old(n), h.used, p, n)
      ensures Same(old(h.mem[..]), h.mem[..], old(h.used), old(p), old(n))
      ensures n > old(n) ==> forall a :: old(p) <= a < old(p) + old(n) ==> h.mem[a] == 0
      ensures Clean(old(h.mem[..]), old(h.used), h.mem[..], h.used)
      ensures h.refusals >= old(h.refusals) && (ret != OK <==> k > 10000 || h.refusals > old(h.refusals))
      ensures k <= old(n) ==> h.refusals == old(h.refusals)
    {
      hide Marked, Replaced, Unused;
      ReplacedBySelf(h.used, p, n);
      CleanBySelf(h.mem[..], h.used);
      if k > MAX_LIMBS {
        return MALLOC_FAILED;
      }
      if n < k {
        ghost var used := h.used;
        var q := h.Malloc(k);
        if q == NULL {
          return MALLOC_FAILED;
        }
        Elsewhere(used, p, n, q, k);
        ReplacedByOther(used, p, n, q, k);
        Relocate(h, q, k);
        SameButTwo(old(h.mem[..]), h.mem[..], used, old(p), old(n), q, k);
        CleanMoved(old(h.mem[..]), h.mem[..], used, old(p), old(n), q, k);
      }
      return OK;
    }

    /** Wipes the limbs and gives the block back. */
    method Clear(h: Heap)
      requires h.Valid() && In(h)
      modifies this, h`used, h.mem
      ensures h.Valid() && In(h) && s == 1 && n == 0
      ensures Replaced(old(h.used), old(p), old(n), h.used, p, n)
      ensures Same(old(h.mem[..]), h.mem[..], old(h.used), old(p), old(n))
      ensures forall a :: old(p) <= a < old(p) + old(n) ==> !h.used[a] && h.mem[a] == 0
      ensures Clean(old(h.mem[..]), old(h.used), h.mem[..], h.used)
    {
      if p != NULL {
        h.Zero(p, n);
        h.Free(p, n);
      }
      s, n, p := 1, 0, NULL;
      assert h.used == Marked(h.used, 0, 0, true);
      assert old(n) == 0 ==> h.used == Marked(old(h.used), 0, 0, false);
    }

    /** The number of limbs up to the last one that is not zero. */
    method UsedLimbs(h: Heap) returns (i: nat)
      requires h.Valid() && In(h)
      ensures i <= n && (i > 0 ==> Digits(h)[i - 1] != 0) && ZerosFrom(Digits(h), i)
      ensures i == Used(Digits(h))
    {
      i := CountLimbs(h.mem, p, n, Digits(h));
    }

    /** The number of limbs that a copy needs, at least one. */
    method CopiedLimbs(h: Heap) returns (i: nat)
      requires h.Valid() && In(h) && n > 0
      ensures 1 <= i <= n && ZerosFrom(Digits(h), i) && i == AtLeastOne(Used(Digits(h)))
    {
      i := n - 1;
      ghost var digits := Digits(h);
      while i > 0
        invariant 0 <= i < n && ZerosFrom(digits, i + 1)
      {
        if h.mem[p + i] != 0 {
          break;
        }
        assert digits[i] == 0;
        i := i - 1;
      }
      i := i + 1;
      UsedIs(digits, if digits[i - 1] == 0 then 0 else i);
    }

    /** Takes over the first `i` limbs, all that are not zero. */
    method Fill(h: Heap, y: Mpi, i: nat)
      requires h.Valid() && In(h) && y.In(h) && Apart(y.p, y.n, p, n) && i <= n && 0 < i <= y.n
      requires ZerosFrom(y.Digits(h), i)
      modifies h.mem
      ensures h.Valid() && Magnitude(h) == old(y.Magnitude(h)) && Used(Digits(h)) == old(Used(y.Digits(h)))
      ensures Same(old(h.mem[..]), h.mem[..], h.used, p, n)
      ensures Clean(old(h.mem[..]), h.used, h.mem[..], h.used)
    {
      hide Val, Limbs, Same, Clean, ZerosFrom, Used;
      ghost var digits := y.Digits(h);
      assert digits[..i] == h.mem[y.p..y.p + i];
      h.Refill(p, n, y.p, i);
      SameOutside(old(h.mem[..]), h.mem[..], h.used, p, n);
      CleanInside(old(h.mem[..]), h.mem[..], h.used, p, n);
      FrontOf(digits, i, n, Digits(h));
      ValTrim(h.base, digits, i);
      ValTrim(h.base, Digits(h), i);
      UsedFront(digits, i);
      UsedFront(Digits(h), i);
    }

    /** Becomes a number of one limb. */
    method Lset(h: Heap, z: int) returns (ret: int)
      requires h.Valid() && In(h) && 0 < h.base + z && z < h.base
      modifies this, h, h.mem
      ensures h.Valid() && In(h) && (ret == OK || ret == MALLOC_FAILED)
      ensures ret == OK ==> n == (if old(n) == 0 then 1 else old(n)) && Value(h) == z && s == if z < 0 then -1 else 1
      ensures ret == OK ==> Digits(h) == [if z < 0 then -z else z] + Zeros(n - 1)
      ensures ret != OK ==> old(n) == n == 0 && s == old(s)
      ensures h.refusals >= old(h.refusals) && (ret != OK <==> h.refusals > old(h.refusals))
      ensures Replaced(old(h.used), old(p), old(n), h.used, p, n)
      ensures Same(old(h.mem[..]), h.mem[..], old(h.used), old(p), old(n))
      ensures Clean(old(h.mem[..]), old(h.used), h.mem[..], h.used)
    {
      hide Marked, Replaced, Same, Clean, Val, Unused;
      ghost var used, mem := h.used, h.mem[..];
      ret := Grow(h, 1);
      if ret != OK {
        return;
      }
      ghost var grown := h.mem[..];
      var x := if z < 0 then -z else z;
      h.SetOne(p, n, x);
      s := if z < 0 then -1 else 1;
      SameOutside(grown, h.mem[..], h.used, p, n);
      SameTrans(mem, grown, h.mem[..], used, old(p), old(n), h.used, p, n);
      CleanInside(grown, h.mem[..], h.used, p, n);
      CleanTrans(mem, used, grown, h.used, h.mem[..], h.used);
      OneLimb(h.base, x, n - 1);
    }

    /** Becomes a copy of another number, in as few limbs as it takes. */
    method Overwrite(h: Heap, y: Mpi) returns (ret: int)
      requires h.Valid() && In(h) && y.In(h) && this != y && y.n > 0 && Apart(y.p, y.n, p, n)
      modifies this, h, h.mem
      ensures h.Valid() && In(h) && (ret == OK || ret == MALLOC_FAILED)
      ensures ret == OK ==> Magnitude(h) == old(y.Magnitude(h)) && Used(Digits(h)) == old(Used(y.Digits(h)))
      ensures ret == OK ==> n == Larger(old(n), AtLeastOne(old(Used(y.Digits(h)))))
      ensures s == y.s && (ret != OK ==> n == old(n) && Digits(h) == old(Digits(h)))
      ensures h.refusals >= old(h.refusals)
      ensures ret != OK <==> old(Used(y.Digits(h))) > 10000 || h.refusals > old(h.refusals)
      ensures Replaced(old(h.used), old(p), old(n), h.used, p, n)
      ensures Same(old(h.mem[..]), h.mem[..], old(h.used), old(p), old(n))
      ensures Clean(old(h.mem[..]), old(h.used), h.mem[..], h.used)
    {
      hide Marked, Replaced, Same, Clean, Val, Unused, InUse, Limbs, Apart, ZerosFrom, Used;
      ghost var digits, used, mem := y.Digits(h), h.used, h.mem[..];
      var i := y.CopiedLimbs(h);
      s := y.s;
      ret := Grow(h, i);
      if ret != OK {
        return;
      }
      InBounds(h.used, p, n);
      OtherStays(mem, h.mem[..], used, old(p), old(n), h.used, p, n, y.p, y.n);
      ghost var grown := h.mem[..];
      assert y.Digits(h) == grown[y.p..y.p + y.n] == digits;
      Fill(h, y, i);
      SameTrans(mem, grown, h.mem[..], used, old(p), old(n), h.used, p, n);
      CleanTrans(mem, used, grown, h.used, h.mem[..], h.used);
    }

    method Copy(h: Heap, y: Mpi) returns (ret: int)
      requires h.Valid() && In(h) && y.In(h) && (this != y ==> Apart(y.p, y.n, p, n))
      modifies this, h, h.mem
      ensures h.Valid() && In(h) && (ret == OK || ret == MALLOC_FAILED)
      ensures ret == OK ==> Value(h) == old(y.Value(h)) && Used(Digits(h)) == old(Used(y.Digits(h)))
      ensures ret == OK ==>
        n == if this == y then old(n) else if y.n == 0 then 0 else Larger(old(n), AtLeastOne(old(Used(y.Digits(h)))))
      ensures s == (if this != y && y.n == 0 then 1 else y.s)
      ensures ret != OK ==> n == old(n) && Digits(h) == old(Digits(h))
      ensures h.refusals >= old(h.refusals)
      ensures ret != OK <==> (this != y && old(Used(y.Digits(h))) > 10000) || h.refusals > old(h.refusals)
      ensures Replaced(old(h.used), old(p), old(n), h.used, p, n)
      ensures Same(old(h.mem[..]), h.mem[..], old(h.used), old(p), old(n))
      ensures Clean(old(h.mem[..]), old(h.used), h.mem[..], h.used)
    {
      hide Marked, Replaced, Same, Clean, Val;
      ReplacedBySelf(h.used, p, n);
      SameBySelf(h.mem[..], h.used, p, n);
      CleanBySelf(h.mem[..], h.used);
      if this == y {
        return OK;
      }
      if y.p == NULL {
        ValEmpty(h.base);
        Clear(h);
        return OK;
      }
      ret := Overwrite(h, y);
    }
  }
}
