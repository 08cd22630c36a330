/** The 68k programs. The unrolled one keeps the carry of its memory additions in the flag X. */
module M68k {
  import opened Arithmetic
  import opened Numerals
  import opened Plan
  import opened Row
  import opened Words

  /** The flag X after the pieces of `plan`: only an INIT can leave it set. */
  function FlagAfter(x: int, plan: seq<Piece>): int {
    if plan == [] then x else if plan[|plan| - 1].Reload? then plan[|plan| - 1].flag else 0
  }

  /** No unrolled block is entered with the flag X set. */
  predicate EntersClear(x: int, plan: seq<Piece>) {
    forall i :: 0 <= i < |plan| && plan[i].Huit? ==> FlagAfter(x, plan[..i]) == 0
  }

  predicate Flags(plan: seq<Piece>) {
    forall i :: 0 <= i < |plan| && plan[i].Reload? ==> 0 <= plan[i].flag <= 1
  }

  lemma CarryOut(base: nat, y: int, x: int)
    requires 0 <= y < base && 0 <= x <= 1
    ensures Add(base, y, 0, x) + base * Carry(base, y, 0, x) == y + x
  {
  }

  /** As `StepIs`, for a carry that may reach the base. */
  lemma StepSplits(base: nat, b: int, r: State, lo: int, hi: int, k: int, out: int)
    requires base >= 2 && Room(r, 1)
    requires Product(base, r.mem[r.s], b, lo, hi) && 0 <= k <= 2
    requires lo + r.mem[r.d] + r.c == out + Multiple(k, base) && 0 <= out < base
    ensures Step(base, b, r) == State(r.mem[r.d := out], r.s + 1, r.d + 1, hi + k)
  {
    hide Lo, Hi, Sum, Product;
    SumIs(base, r.mem[r.s], b, r.mem[r.d], r.c, lo, hi, k, out);
  }

  lemma FirstLimb(base: nat, b: int, r: State, n: nat)
    requires base >= 2 && n > 0 && Room(r, n)
    ensures Steps(base, b, r, n).mem[r.d] == Lo(base, Sum(r.mem[r.s], b, r.mem[r.d], r.c))
  {
    hide Lo, Hi, Sum;
    assert Steps(base, b, r, 0) == r;
    assert Steps(base, b, r, 1) == Step(base, b, r);
    StepsSplit(base, b, r, 1, n - 1);
  }

  lemma SuccessorDiffers(base: nat, t: int)
    requires base >= 2
    ensures Lo(base, t + 1) != Lo(base, t)
  {
    if Lo(base, t) == base - 1 {
      Distributes(t / base, 1, base);
      DivModIs(t + 1, base, t / base + 1, 0);
    } else {
      DivModIs(t + 1, base, t / base, t % base + 1);
    }
  }

  /** One more in the incoming carry changes the first limb of the result. */
  lemma CarryInShows(base: nat, b: int, r: State, n: nat)
    requires base >= 2 && n > 0 && Room(r, n)
    ensures Steps(base, b, r.(c := r.c + 1), n).mem[r.d] != Steps(base, b, r, n).mem[r.d]
  {
    FirstLimb(base, b, r, n);
    FirstLimb(base, b, r.(c := r.c + 1), n);
    SuccessorDiffers(base, Sum(r.mem[r.s], b, r.mem[r.d], r.c));
  }

  class Machine {
    const base: nat
    const mem: array<int>
    var a2: int
    var a3: int
    var d0: int
    var d2: int
    var d3: int
    var x: int

    ghost function View(): State
      reads this, mem
    {
      State(mem[..], a2, a3, d3)
    }

    ghost predicate Valid()
      reads this, mem
    {
      Fits(base, d2, View()) && d0 == 0 && 0 <= x <= 1
    }

    /** INIT does not touch the flag X: it stays as the surrounding code left it. */
    constructor Init(base: nat, mem: array<int>, s: int, d: int, c: int, b: int, x: int)
      requires Fits(base, b, State(mem[..], s, d, c)) && 0 <= x <= 1
      ensures Valid() && this.base == base && this.mem == mem && d2 == b && this.x == x
      ensures View() == State(mem[..], s, d, c)
    {
      this.base, this.mem, this.x := base, mem, x;
      a2, a3, d3, d2 := s, d, c, b;
      d0 := 0;
    }

    method Core()
      requires Valid() && Room(View(), 1)
      modifies this, mem
      ensures Valid() && d2 == old(d2) && x == 0 && View() == Step(base, d2, old(View()))
    {
      hide Step, MulLo, MulHi, Product;
      var d1 := mem[a2];
      a2 := a2 + 1;
      ProductSplit(base, d1, d2);
      var d4: int;
      d4, d1 := MulHi(base, d1, d2), MulLo(base, d1, d2);
      ghost var lo, hi := d1, d4;
      d1, x := Add(base, d1, d3), Carry(base, d1, d3);
      ghost var w := x;
      d4, x := Add(base, d4, d0, x), Carry(base, d4, d0, x);
      d3 := 0;
      d1, x := Add(base, mem[a3], d1), Carry(base, mem[a3], d1);
      StepIs(base, d2, old(View()), lo, hi, w + x, d1);
      mem[a3] := d1;
      a3 := a3 + 1;
      d3, x := Add(base, d3, d4, x), Carry(base, d3, d4, x);
    }

    /** The state in the middle of an unrolled block: `high` is the register that holds the upper half. */
    ghost function Inside(high: int): State
      reads this, mem
    {
      State(mem[..], a2, a3, high + x)
    }

    /** The logical carry may be as large as the base itself, if X was set on entry. */
    ghost predicate InsideValid(high: int)
      reads this, mem
    {
      && base >= 2 && 0 <= d2 < base && Limbs(base, mem[..]) && d0 == 0
      && 0 <= x <= 1 && 0 <= high < base
    }

    /** One limb of the unrolled block; the register that brings the carry alternates. */
    method Limb(low: int) returns (high: int)
      requires InsideValid(low) && Room(Inside(low), 1)
      modifies this, mem
      ensures InsideValid(high) && d2 == old(d2) && Inside(high) == Step(base, d2, old(Inside(low)))
    {
      hide Step, MulLo, MulHi, Product;
      var d1 := mem[a2];
      a2 := a2 + 1;
      ProductSplit(base, d1, d2);
      high, d1 := MulHi(base, d1, d2), MulLo(base, d1, d2);
      ghost var lo, hi := d1, high;
      d1, x := Add(base, d1, low, x), Carry(base, d1, low, x);
      ghost var w := x;
      high, x := Add(base, high, d0, x), Carry(base, high, d0, x);
      d1, x := Add(base, mem[a3], d1), Carry(base, mem[a3], d1);
      StepSplits(base, d2, old(Inside(low)), lo, hi, w + x, d1);
      mem[a3] := d1;
      a3 := a3 + 1;
    }

    /** Two limbs of the unrolled block: the carry leaves `d3` for `d4` and comes back. */
    method Pair(ghost r: State, ghost k: nat)
      requires InsideValid(d3) && Room(r, k + 2) && |r.mem| == mem.Length
      requires Inside(d3) == Steps(base, d2, r, k)
      modifies this, mem
      ensures InsideValid(d3) && d2 == old(d2) && Inside(d3) == Steps(base, d2, r, k + 2)
    {
      hide Step;
      var d4 := Limb(d3);
      assert Inside(d4) == Steps(base, d2, r, k + 1);
      d3 := Limb(d4);
    }

    method EightLimbs()
      requires InsideValid(d3) && Room(View(), 8)
      modifies this, mem
      ensures InsideValid(d3) && d2 == old(d2) && Inside(d3) == Steps(base, d2, old(Inside(d3)), 8)
    {
      ghost var r := Inside(d3);
      assert Steps(base, d2, r, 0) == r;
      hide Step, Steps;
      Pair(r, 0);
      Pair(r, 2);
      Pair(r, 4);
      Pair(r, 6);
    }

    /**
     * The unrolled block is eight steps from a carry that includes the flag X, and its own carry
     * is cut into the register and X.
     */
    method HuitAnyFlag()
      requires InsideValid(d3) && Room(View(), 8)
      modifies this, mem
      ensures InsideValid(d3) && d2 == old(d2)
      ensures State(mem[..], a2, a3, d3 + base * x) == Steps(base, d2, old(Inside(d3)), 8)
    {
      hide Step, Steps;
      EightLimbs();
      CarryOut(base, d3, x);
      d3, x := Add(base, d3, d0, x), Carry(base, d3, d0, x);
    }

    /**
     * The unrolled block is eight times CORE exactly when it is entered with the flag X clear; otherwise the
     * first limb it stores is wrong.
     */
    method Huit()
      requires Valid() && Room(View(), 8)
      modifies this, mem
      ensures Valid() && d2 == old(d2) && a2 == old(a2) + 8 && a3 == old(a3) + 8
      ensures forall i :: 0 <= i < mem.Length && !(old(a3) <= i < a3) ==> mem[i] == old(mem[i])
      ensures View() == Steps(base, d2, old(View()), 8) <==> old(x) == 0
      ensures if old(x) == 0 then x == 0 else mem[old(a3)] != Steps(base, d2, old(View()), 8).mem[old(a3)]
    {
      ghost var r, x0 := View(), x;
      HuitAnyFlag();
      hide Step;
      StepsFit(base, d2, r, 8);
      if x0 == 0 {
        assert x == 0;
      } else {
        CarryInShows(base, d2, r, 8);
      }
    }

    method Stop() returns (c: int, d: int, s: int)
      ensures State(mem[..], s, d, c) == View()
    {
      c, d, s := d3, a3, a2;
    }
  }

  lemma FlagAfterLast(x: int, plan: seq<Piece>)
    requires plan != []
    ensures FlagAfter(x, plan) == if plan[|plan| - 1].Reload? then plan[|plan| - 1].flag else 0
  {
  }

  lemma EntersClearNext(x: int, plan: seq<Piece>, i: nat)
    requires i < |plan|
    ensures EntersClear(x, plan[..i + 1])
       <==> EntersClear(x, plan[..i]) && (plan[i].Huit? ==> FlagAfter(x, plan[..i]) == 0)
    ensures FlagAfter(x, plan[..i + 1]) == if plan[i].Reload? then plan[i].flag else 0
  {
    hide FlagAfter;
    assert plan[..i + 1][..i] == plan[..i];
    forall k | 0 <= k < i ensures plan[..i + 1][..k] == plan[..i][..k] == plan[..k] {
    }
    FlagAfterLast(x, plan[..i + 1]);
  }

  /** A limb among the first `k` that is already stored, and is not the one of the row of `n` limbs. */
  ghost predicate Spoilt(base: nat, b: int, r: State, n: nat, k: int, mem: seq<int>, at: int)
    requires base >= 2 && Room(r, n) && k <= n && |mem| == |r.mem|
  {
    r.d <= at < r.d + k && mem[at] != Steps(base, b, r, n).mem[at]
  }

  lemma StepKeeps(base: nat, b: int, q: State)
    requires base >= 2 && Room(q, 1)
    ensures forall i :: 0 <= i < |q.mem| && i != q.d ==> Step(base, b, q).mem[i] == q.mem[i]
  {
  }

  /** One piece is that many steps, unless it is a block that finds X set; then its first limb is wrong. */
  ghost predicate PieceDone(base: nat, b: int, p: Piece, q: State, flag: int, q': State, flag': int)
    requires base >= 2 && Room(q, Size(p))
  {
    && |q'.mem| == |q.mem| && q'.s == q.s + Size(p) && q'.d == q.d + Size(p)
    && (forall i :: 0 <= i < |q.mem| && !(q.d <= i < q'.d) ==> q'.mem[i] == q.mem[i])
    && if p.Huit? && flag != 0 then q'.mem[q.d] != Steps(base, b, q, 8).mem[q.d]
       else q' == Steps(base, b, q, Size(p)) && flag' == if p.Reload? then p.flag else 0
  }

  method RunPiece(m: Machine, p: Piece) returns (m': Machine)
    requires m.Valid() && Room(m.View(), Size(p)) && (p.Reload? ==> 0 <= p.flag <= 1)
    modifies m, m.mem
    ensures m'.Valid() && m'.base == m.base && m'.mem == m.mem && m'.d2 == old(m.d2) && (m' == m || fresh(m'))
    ensures PieceDone(m.base, m'.d2, p, old(m.View()), old(m.x), m'.View(), m'.x)
  {
    hide Step, Steps;
    ghost var r := m.View();
    m' := m;
    StepsNone(m.base, m.d2, r);
    if p.Core? {
      StepsNext(m.base, m.d2, r, 0);
      StepKeeps(m.base, m.d2, r);
      m.Core();
    } else if p.Huit? {
      m.Huit();
    } else {
      var c, d, s := m.Stop();
      m' := new Machine.Init(m.base, m.mem, s, d, c, m.d2, p.flag);
    }
  }

  lemma Spoils(base: nat, b: int, r: State, n: nat, k: int, mem: seq<int>, at: int)
    requires base >= 2 && Room(r, n) && k <= n && |mem| == |r.mem|
    requires r.d <= at < r.d + k && mem[at] != Steps(base, b, r, n).mem[at]
    ensures Spoilt(base, b, r, n, k, mem, at)
  {
  }

  lemma StaysSpoilt(base: nat, b: int, r: State, n: nat, k: int, k': int, mem: seq<int>, mem': seq<int>, at: int)
    requires base >= 2 && Room(r, n) && k <= k' <= n && |mem| == |mem'| == |r.mem|
    requires Spoilt(base, b, r, n, k, mem, at) && (r.d <= at < r.d + k ==> mem'[at] == mem[at])
    ensures Spoilt(base, b, r, n, k', mem', at)
  {
  }

  lemma SpoiltRow(base: nat, b: int, r: State, n: nat, r': State, at: int)
    requires Fits(base, b, r) && Room(r, n) && |r'.mem| == |r.mem| && Limbs(base, r'.mem)
    requires Spoilt(base, b, r, n, n, r'.mem, at)
    ensures r' != Steps(base, b, r, n)
    ensures r.d <= r.s || r.s + n <= r.d ==> !RowEquation(base, b, r, n, r')
  {
    hide Steps, Balance, Val, Pow, Solves;
    if r.d <= r.s || r.s + n <= r.d {
      RowUnique(base, b, r, n);
      var limbs, out := r'.mem[r.d..r.d + n], Steps(base, b, r, n).mem[r.d..r.d + n];
      assert limbs[at - r.d] != out[at - r.d];
      assert !Solves(base, b, r, n, limbs, r'.c);
    }
  }

  /** After `i` pieces: the row so far, if no block was entered with X set, and otherwise a limb that is wrong. */
  ghost predicate Tracks(base: nat, b: int, r: State, x: int, plan: seq<Piece>, i: nat, q: State, flag: int, at: int)
    requires base >= 2 && Room(r, Total(plan)) && i <= |plan|
  {
    var k := Total(plan[..i]);
    && k <= Total(plan) && |q.mem| == |r.mem| && q.s == r.s + k && q.d == r.d + k
    && if EntersClear(x, plan[..i]) then flag == FlagAfter(x, plan[..i]) && q == Steps(base, b, r, k)
       else Spoilt(base, b, r, Total(plan), k, q.mem, at)
  }

  lemma TracksNext(base: nat, b: int, r: State, x: int, plan: seq<Piece>, i: nat,
                   q: State, flag: int, q': State, flag': int, at: int)
      returns (at': int)
    requires base >= 2 && Room(r, Total(plan)) && i < |plan| && Tracks(base, b, r, x, plan, i, q, flag, at)
    requires Room(q, Size(plan[i])) && PieceDone(base, b, plan[i], q, flag, q', flag')
    ensures Tracks(base, b, r, x, plan, i + 1, q', flag', at')
  {
    hide Step, Steps, EntersClear, FlagAfter, Spoilt;
    TotalGrows(plan, i);
    EntersClearNext(x, plan, i);
    var n, k := Total(plan), Total(plan[..i]);
    at' := at;
    if EntersClear(x, plan[..i]) {
      StepsSplit(base, b, r, k, Size(plan[i]));
      if plan[i].Huit? && flag != 0 {
        at' := q.d;
        StillThere(base, b, r, k + 8, n, at');
        Spoils(base, b, r, n, k + 8, q'.mem, at');
      }
    } else {
      StaysSpoilt(base, b, r, n, k, Total(plan[..i + 1]), q.mem, q'.mem, at);
    }
  }

  lemma TracksFirst(base: nat, b: int, r: State, x: int, plan: seq<Piece>)
    requires base >= 2 && Room(r, Total(plan))
    ensures Tracks(base, b, r, x, plan, 0, r, x, 0)
  {
    TotalMonotone(plan, 0);
  }

  lemma TracksRoom(base: nat, b: int, r: State, x: int, plan: seq<Piece>, i: nat, q: State, flag: int, at: int)
    requires base >= 2 && Room(r, Total(plan)) && i < |plan| && Tracks(base, b, r, x, plan, i, q, flag, at)
    ensures Room(q, Size(plan[i]))
  {
    hide Steps, EntersClear, FlagAfter;
    TotalGrows(plan, i);
  }

  lemma TracksLast(base: nat, b: int, r: State, x: int, plan: seq<Piece>, q: State, flag: int, at: int)
    requires Fits(base, b, r) && Room(r, Total(plan)) && Tracks(base, b, r, x, plan, |plan|, q, flag, at)
    requires Limbs(base, q.mem)
    ensures |q.mem| == |r.mem| && q.s == r.s + Total(plan) && q.d == r.d + Total(plan)
    ensures q == Steps(base, b, r, Total(plan)) <==> EntersClear(x, plan)
    ensures r.d <= r.s || r.s + Total(plan) <= r.d ==>
              (RowEquation(base, b, r, Total(plan), q) <==> EntersClear(x, plan))
  {
    hide Steps, EntersClear, FlagAfter, Spoilt, RowEquation;
    assert plan[..|plan|] == plan;
    if !EntersClear(x, plan) {
      SpoiltRow(base, b, r, Total(plan), q, at);
    } else if r.d <= r.s || r.s + Total(plan) <= r.d {
      RowValue(base, b, r, Total(plan));
    }
  }

  /**
   * A whole program of unrolled blocks, single limbs and interruptions. It is one uninterrupted row, and
   * satisfies the row equation, exactly when no unrolled block is entered with the flag X set.
   */
  method MulAddC(base: nat, mem: array<int>, s0: int, d0: int, c0: int, b: int, x: int, plan: seq<Piece>)
      returns (c: int, d: int, s: int)
    requires Fits(base, b, State(mem[..], s0, d0, c0)) && Room(State(mem[..], s0, d0, c0), Total(plan))
    requires 0 <= x <= 1 && Flags(plan)
    modifies mem
    ensures s == s0 + Total(plan) && d == d0 + Total(plan)
    ensures State(mem[..], s, d, c) == Steps(base, b, State(old(mem[..]), s0, d0, c0), Total(plan))
       <==> EntersClear(x, plan)
    ensures d0 <= s0 || s0 + Total(plan) <= d0 ==>
      (RowEquation(base, b, State(old(mem[..]), s0, d0, c0), Total(plan), State(mem[..], s, d, c))
       <==> EntersClear(x, plan))
  {
    hide Step, Steps, RowEquation, Tracks, PieceDone;
    ghost var r, at := State(mem[..], s0, d0, c0), 0;
    TracksFirst(base, b, r, x, plan);
    var m := new Machine.Init(base, mem, s0, d0, c0, b, x);
    for i := 0 to |plan|
      invariant m.Valid() && m.base == base && m.mem == mem && m.d2 == b && fresh(m)
      invariant Tracks(base, b, r, x, plan, i, m.View(), m.x, at)
    {
      TracksRoom(base, b, r, x, plan, i, m.View(), m.x, at);
      ghost var q, flag := m.View(), m.x;
      m := RunPiece(m, plan[i]);
      at := TracksNext(base, b, r, x, plan, i, q, flag, m.View(), m.x, at);
    }
    TracksLast(base, b, r, x, plan, m.View(), m.x, at);
    c, d, s := m.Stop();
  }
}
