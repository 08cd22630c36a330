/**
 * The contract every implementation of the inner loop shares: multiply the source vector by one limb,
 * add the product into the destination vector and hand the carry on.
 *
 * Both vectors live in one memory, so that they may be disjoint, equal or overlap in any other way.
 */
module Row {
  import opened Arithmetic
  import opened Numerals

  /** Memory, the two pointers (as limb indices) and the carry. */
  datatype State = State(mem: seq<int>, s: int, d: int, c: int)

  /** The pointers leave room for `n` more limbs. */
  ghost predicate Room(r: State, n: int) {
    0 <= r.s && r.s + n <= |r.mem| && 0 <= r.d && r.d + n <= |r.mem|
  }

  /** Every value in the state fits one limb. */
  ghost predicate Fits(base: nat, b: int, r: State) {
    base >= 2 && 0 <= b < base && 0 <= r.c < base && Limbs(base, r.mem)
  }

  /** The double-width value that one step cuts into a limb and a carry. */
  ghost function Sum(x: int, b: int, y: int, c: int): int {
    x * b + y + c
  }

  ghost function Lo(base: nat, t: int): int
    requires base > 0
  {
    t % base
  }

  ghost function Hi(base: nat, t: int): int
    requires base > 0
  {
    t / base
  }

  /** One limb of the row. */
  ghost function Step(base: nat, b: int, r: State): State
    requires base >= 2 && Room(r, 1)
  {
    var t := Sum(r.mem[r.s], b, r.mem[r.d], r.c);
    State(r.mem[r.d := Lo(base, t)], r.s + 1, r.d + 1, Hi(base, t))
  }

  /** `n` limbs of the row. */
  ghost function Steps(base: nat, b: int, r: State, n: nat): (r': State)
    requires base >= 2 && Room(r, n)
    ensures |r'.mem| == |r.mem| && r'.s == r.s + n && r'.d == r.d + n
    ensures forall i :: 0 <= i < |r.mem| && !(r.d <= i < r.d + n) ==> r'.mem[i] == r.mem[i]
  {
    if n == 0 then r else Step(base, b, Steps(base, b, r, n - 1))
  }

  lemma StepsNone(base: nat, b: int, r: State)
    requires base >= 2 && Room(r, 0)
    ensures Steps(base, b, r, 0) == r
  {
  }

  lemma StepsNext(base: nat, b: int, r: State, n: nat)
    requires base >= 2 && Room(r, n + 1)
    ensures Steps(base, b, r, n + 1) == Step(base, b, Steps(base, b, r, n))
  {
  }

  /** The sum of one step never needs more than two limbs, so that the carry is again a limb. */
  lemma SumFits(base: nat, x: int, b: int, y: int, c: int)
    requires base >= 2 && 0 <= x < base && 0 <= b < base && 0 <= y < base && 0 <= c < base
    ensures 0 <= Sum(x, b, y, c) < base * base
    ensures 0 <= Lo(base, Sum(x, b, y, c)) < base && 0 <= Hi(base, Sum(x, b, y, c)) < base
  {
    ProductMonotone(0, x, b);
    ProductMonotone(x, base - 1, b);
    ProductMonotone(b, base - 1, base - 1);
    Distributes(base, -1, base - 1);
    Distributes(base, -1, base);
    QuotientBelow(base, base, Sum(x, b, y, c));
  }

  /** A step keeps every value inside one limb. */
  lemma StepFits(base: nat, b: int, r: State)
    requires Fits(base, b, r) && Room(r, 1)
    ensures Fits(base, b, Step(base, b, r))
  {
    hide Lo, Hi, Sum;
    SumFits(base, r.mem[r.s], b, r.mem[r.d], r.c);
  }

  lemma {:induction false} StepsFit(base: nat, b: int, r: State, n: nat)
    requires Fits(base, b, r) && Room(r, n)
    ensures Fits(base, b, Steps(base, b, r, n))
  {
    hide Step;
    if n == 0 {
    } else {
      StepsFit(base, b, r, n - 1);
      StepFits(base, b, Steps(base, b, r, n - 1));
    }
  }

  /** Stopping after `m` limbs, with pointers and carry saved, and starting again changes nothing. */
  lemma {:induction false} StepsSplit(base: nat, b: int, r: State, m: nat, n: nat)
    requires base >= 2 && Room(r, m + n)
    ensures Steps(base, b, Steps(base, b, r, m), n) == Steps(base, b, r, m + n)
  {
    hide Step;
    if n == 0 {
    } else {
      StepsSplit(base, b, r, m, n - 1);
    }
  }

  /** A limb that is not stored between steps `k` and `n` reads the same after either. */
  lemma StillThere(base: nat, b: int, r: State, k: nat, n: nat, at: int)
    requires base >= 2 && k <= n && Room(r, n) && 0 <= at < |r.mem| && !(r.d + k <= at < r.d + n)
    ensures Steps(base, b, r, n).mem[at] == Steps(base, b, r, k).mem[at]
  {
    hide Step;
    StepsSplit(base, b, r, k, n - k);
  }

  /** Result and carry of weight `p` make up destination plus source times `b` plus incoming carry. */
  ghost predicate Balance(p: int, result: int, carry: int, dest: int, source: int, b: int, c: int) {
    result + p * carry == dest + source * b + c
  }

  /** The equation the row is for, of a result and a carry. */
  ghost predicate Solves(base: nat, b: int, r: State, n: nat, limbs: seq<int>, c: int)
    requires Room(r, n)
  {
    Balance(Pow(base, n), Val(base, limbs), c, Val(base, r.mem[r.d..r.d + n]), Val(base, r.mem[r.s..r.s + n]), b, r.c)
  }

  ghost predicate RowEquation(base: nat, b: int, r: State, n: nat, r': State)
    requires Room(r, n) && |r'.mem| == |r.mem|
  {
    Solves(base, b, r, n, r'.mem[r.d..r.d + n], r'.c)
  }

  lemma EmptyRow(base: nat, b: int, r: State)
    requires Room(r, 0)
    ensures RowEquation(base, b, r, 0, r)
  {
  }

  /** What one step does, without saying how its sum is cut into limb and carry. */
  ghost predicate Advances(base: nat, b: int, q: State, r': State) {
    && Room(q, 1) && |r'.mem| == |q.mem| && r' == State(q.mem[q.d := r'.mem[q.d]], q.s + 1, q.d + 1, r'.c)
    && Balance(base, r'.mem[q.d], r'.c, q.mem[q.d], q.mem[q.s], b, q.c)
  }

  lemma SumCut(base: nat, x: int, b: int, y: int, c: int)
    requires base > 0
    ensures Balance(base, Lo(base, Sum(x, b, y, c)), Hi(base, Sum(x, b, y, c)), y, x, b, c)
  {
  }

  lemma StepAdvances(base: nat, b: int, q: State)
    requires base >= 2 && Room(q, 1)
    ensures Advances(base, b, q, Step(base, b, q))
  {
    hide Lo, Hi, Sum, Balance;
    var r' := Step(base, b, q);
    assert r'.mem == q.mem[q.d := r'.mem[q.d]];
    SumCut(base, q.mem[q.s], b, q.mem[q.d], q.c);
  }

  lemma ValLast(base: nat, mem: seq<int>, from: int, k: nat)
    requires 0 <= from && from + k < |mem|
    ensures Val(base, mem[from..from + k + 1]) == Val(base, mem[from..from + k]) + Pow(base, k) * mem[from + k]
  {
    assert mem[from..from + k + 1] == mem[from..from + k] + [mem[from + k]];
    ValAppend(base, mem[from..from + k], mem[from + k]);
  }

  lemma LastLimb(base: int, p: int, x: int, b: int, y: int, c: int, lo: int, hi: int, vs: int, vd: int, c0: int, v: int)
    requires Balance(base, lo, hi, y, x, b, c)
    requires Balance(p, v, c, vd, vs, b, c0)
    ensures Balance(base * p, v + p * lo, hi, vd + p * y, vs + p * x, b, c0)
  {
    Distributes(lo, base * hi, p);
    Associates(base, p, hi);
    Associates(p, base, hi);
    Distributes(x * b + y, c, p);
    Distributes(x * b, y, p);
    Associates(p, x, b);
    Distributes(vs, p * x, b);
  }

  /** The equation survives one more limb, provided that limb is still unchanged in both vectors. */
  lemma RowGrows(base: nat, b: int, r: State, k: nat, q: State, r': State)
    requires Room(r, k + 1)
    requires |q.mem| == |r.mem| && q.s == r.s + k && q.d == r.d + k
    requires q.mem[q.s] == r.mem[q.s] && q.mem[q.d] == r.mem[q.d]
    requires RowEquation(base, b, r, k, q) && Advances(base, b, q, r')
    ensures RowEquation(base, b, r, k + 1, r')
  {
    hide Balance, Val, Pow;
    var lo, hi := r'.mem[q.d], r'.c;
    PowNext(base, k);
    assert r'.mem[r.d..r.d + k] == q.mem[r.d..r.d + k];
    ValLast(base, r.mem, r.s, k);
    ValLast(base, r.mem, r.d, k);
    ValLast(base, r'.mem, r.d, k);
    LastLimb(base, Pow(base, k), r.mem[q.s], b, r.mem[q.d], q.c, lo, hi,
             Val(base, r.mem[r.s..r.s + k]), Val(base, r.mem[r.d..r.d + k]), r.c, Val(base, q.mem[r.d..r.d + k]));
  }

  /** Row theorem: the equation holds whenever no limb of the source is overwritten before it is read. */
  lemma {:induction false} RowValue(base: nat, b: int, r: State, n: nat)
    requires base >= 2 && Room(r, n) && (r.d <= r.s || r.s + n <= r.d)
    ensures RowEquation(base, b, r, n, Steps(base, b, r, n))
  {
    hide Step, Balance, Val, Pow;
    if n == 0 {
      EmptyRow(base, b, r);
    } else {
      var k := n - 1;
      RowValue(base, b, r, k);
      StepAdvances(base, b, Steps(base, b, r, k));
      RowGrows(base, b, r, k, Steps(base, b, r, k), Steps(base, b, r, n));
    }
  }

  /**
   * What a row leaves behind: the equation, a carry and limbs that fit, nothing written but the destination, and
   * both pointers moved on; and the source is as before if the vectors are disjoint.
   */
  ghost predicate RowDone(base: nat, b: int, r: State, n: nat, r': State)
    requires Room(r, n) && |r'.mem| == |r.mem|
  {
    && RowEquation(base, b, r, n, r')
    && 0 <= r'.c < base && Limbs(base, r'.mem)
    && r'.s == r.s + n && r'.d == r.d + n
    && r'.mem == r.mem[..r.d] + r'.mem[r.d..r.d + n] + r.mem[r.d + n..]
    && (r.d + n <= r.s || r.s + n <= r.d ==> r'.mem[r.s..r.s + n] == r.mem[r.s..r.s + n])
  }

  lemma RowLeaves(base: nat, b: int, r: State, n: nat)
    requires Fits(base, b, r) && Room(r, n) && (r.d <= r.s || r.s + n <= r.d)
    ensures RowDone(base, b, r, n, Steps(base, b, r, n))
  {
    hide Step, RowEquation;
    RowValue(base, b, r, n);
    StepsFit(base, b, r, n);
  }

  /** Every row, unless its destination starts inside its source, leaves all of that behind. */
  lemma RowTheorem(base: nat, len: nat, s: int, d: int, n: nat)
    requires base >= 2 && 0 <= s && s + n <= len && 0 <= d && d + n <= len && (d <= s || s + n <= d)
    ensures forall mem: seq<int>, b, c | |mem| == len && Fits(base, b, State(mem, s, d, c)) ::
              RowDone(base, b, State(mem, s, d, c), n, Steps(base, b, State(mem, s, d, c), n))
  {
    hide Step, RowEquation, RowDone;
    forall mem: seq<int>, b, c | |mem| == len && Fits(base, b, State(mem, s, d, c))
      ensures RowDone(base, b, State(mem, s, d, c), n, Steps(base, b, State(mem, s, d, c), n))
    {
      RowLeaves(base, b, State(mem, s, d, c), n);
    }
  }

  lemma BalanceUnique(p: int, v: int, c: int, v': int, c': int, vd: int, vs: int, b: int, c0: int)
    requires 0 <= v < p && 0 <= v' < p
    requires Balance(p, v, c, vd, vs, b, c0) && Balance(p, v', c', vd, vs, b, c0)
    ensures v == v' && c == c'
  {
    QuotientUnique(p, v, c, v', c');
  }

  /** The equation leaves no freedom: among results that fit their limbs, the row is the one that satisfies it. */
  lemma RowUnique(base: nat, b: int, r: State, n: nat)
    requires Fits(base, b, r) && Room(r, n) && (r.d <= r.s || r.s + n <= r.d)
    ensures forall limbs: seq<int>, c | |limbs| == n && Limbs(base, limbs) ::
              Solves(base, b, r, n, limbs, c)
              <==> limbs == Steps(base, b, r, n).mem[r.d..r.d + n] && c == Steps(base, b, r, n).c
  {
    hide Step, Balance, Val, Pow;
    RowValue(base, b, r, n);
    StepsFit(base, b, r, n);
    var out := Steps(base, b, r, n).mem[r.d..r.d + n];
    var vd, vs := Val(base, r.mem[r.d..r.d + n]), Val(base, r.mem[r.s..r.s + n]);
    forall limbs: seq<int>, c | |limbs| == n && Limbs(base, limbs)
      ensures Solves(base, b, r, n, limbs, c) <==> limbs == out && c == Steps(base, b, r, n).c
    {
      if Solves(base, b, r, n, limbs, c) {
        ValBound(base, limbs);
        ValBound(base, out);
        BalanceUnique(Pow(base, n), Val(base, limbs), c, Val(base, out), Steps(base, b, r, n).c, vd, vs, b, r.c);
        ValInjective(base, limbs, out);
      }
    }
  }

  /** Source and destination may be the same vector. */
  lemma AliasedRow(base: nat, b: int, r: State, n: nat)
    requires base >= 2 && Room(r, n) && r.s == r.d
    ensures var r' := Steps(base, b, r, n);
            Val(base, r'.mem[r.d..r.d + n]) + Pow(base, n) * r'.c == Val(base, r.mem[r.d..r.d + n]) * (b + 1) + r.c
  {
    hide Step;
    RowValue(base, b, r, n);
    Distributes(b, 1, Val(base, r.mem[r.d..r.d + n]));
  }

  /** A memory of `len` zero limbs but for a one at `at`. */
  function Spike(len: nat, at: int): (mem: seq<int>)
    ensures |mem| == len
    ensures forall i :: 0 <= i < len ==> mem[i] == if i == at then 1 else 0
  {
    seq(len, i => if i == at then 1 else 0)
  }

  lemma StepByOne(base: nat, r: State)
    requires base >= 2 && Room(r, 1) && 0 <= r.mem[r.s] + r.mem[r.d] + r.c < base
    ensures Step(base, 1, r) == State(r.mem[r.d := r.mem[r.s] + r.mem[r.d] + r.c], r.s + 1, r.d + 1, 0)
  {
    DivModIs(Sum(r.mem[r.s], 1, r.mem[r.d], r.c), base, 0, r.mem[r.s] + r.mem[r.d] + r.c);
  }

  /** Steps that multiply a lone one by one copy it, until they read back what they wrote. */
  lemma {:induction false} SpikeCopies(base: nat, len: nat, s: int, d: int, n: nat)
    requires base >= 2 && 0 <= s < d && n <= d - s && d + n <= len
    ensures Room(State(Spike(len, s), s, d, 0), n)
    ensures var r' := Steps(base, 1, State(Spike(len, s), s, d, 0), n);
            r'.c == 0 && forall i :: 0 <= i < len ==> r'.mem[i] == if i == s || (i == d && n > 0) then 1 else 0
  {
    hide Step;
    if n == 0 {
    } else {
      SpikeCopies(base, len, s, d, n - 1);
      StepByOne(base, Steps(base, 1, State(Spike(len, s), s, d, 0), n - 1));
    }
  }

  lemma SpikeReadBack(base: nat, len: nat, s: int, d: int, n: nat)
    requires base >= 2 && 0 <= s < d < s + n && d + n <= len
    ensures Room(State(Spike(len, s), s, d, 0), n)
    ensures Steps(base, 1, State(Spike(len, s), s, d, 0), n).mem[d + (d - s)] == 1
  {
    hide Step;
    var r := State(Spike(len, s), s, d, 0);
    var k := d - s;
    SpikeCopies(base, len, s, d, k);
    StepByOne(base, Steps(base, 1, r, k));
    assert Steps(base, 1, r, k + 1).mem[d + k] == 1;
    StepsSplit(base, 1, r, k + 1, n - (k + 1));
  }

  lemma {:induction false} ValAtLeast(base: nat, xs: seq<int>, k: nat)
    requires base >= 2 && Limbs(base, xs) && k < |xs| && xs[k] >= 1
    ensures Val(base, xs) >= Pow(base, k)
  {
    var n := |xs| - 1;
    PowPositive(base, n);
    ValBound(base, xs[..n]);
    if k == n {
      ProductMonotone(1, xs[n], Pow(base, n));
    } else {
      ProductMonotone(0, xs[n], Pow(base, n));
      ValAtLeast(base, xs[..n], k);
    }
  }

  /** A limb at `k` is too much where source and destination make up less than that place. */
  lemma TooMuch(base: nat, b: int, r: State, n: nat, r': State, k: nat)
    requires Fits(base, b, r) && Room(r, n) && k < n
    requires |r'.mem| == |r.mem| && Limbs(base, r'.mem) && r'.c >= 0 && r'.mem[r.d + k] >= 1
    requires Val(base, r.mem[r.d..r.d + n]) + Val(base, r.mem[r.s..r.s + n]) * b + r.c < Pow(base, k)
    ensures !RowEquation(base, b, r, n, r')
  {
    hide Val, Pow;
    ValAtLeast(base, r'.mem[r.d..r.d + n], k);
    PowPositive(base, n);
    ProductMonotone(0, r'.c, Pow(base, n));
  }

  lemma PowAtLeast(base: nat, k: nat)
    requires base >= 2 && k > 0
    ensures Pow(base, k) >= base
  {
    PowPositive(base, k - 1);
    ProductMonotone(1, Pow(base, k - 1), base);
  }

  /** A numeral with a lone one denotes the power of its place, and with no one, zero. */
  lemma {:induction false} ValSpike(base: nat, xs: seq<int>, at: nat)
    requires forall i :: 0 <= i < |xs| ==> xs[i] == if i == at then 1 else 0
    ensures Val(base, xs) == if at < |xs| then Pow(base, at) else 0
  {
    if xs == [] {
    } else {
      ValSpike(base, xs[..|xs| - 1], at);
    }
  }

  /** From a lone one in front of the source, no result with a limb further on is right. */
  lemma SpikeTooMuch(base: nat, len: nat, s: int, d: int, n: nat, r': State, k: nat)
    requires base >= 2 && 0 <= s < d && s + n <= len && d + n <= len && 0 < k < n
    requires |r'.mem| == len && Limbs(base, r'.mem) && r'.c >= 0 && r'.mem[d + k] >= 1
    ensures !RowEquation(base, 1, State(Spike(len, s), s, d, 0), n, r')
  {
    hide Val, Pow, RowEquation;
    var r := State(Spike(len, s), s, d, 0);
    ValSpike(base, r.mem[s..s + n], 0);
    ValSpike(base, r.mem[d..d + n], n);
    PowAtLeast(base, k);
    PowZero(base);
    TooMuch(base, 1, r, n, r', k);
  }

  /** When the destination starts inside the source, a limb just written is read back as source. */
  lemma OverlapBreaksRow(base: nat, len: nat, s: int, d: int, n: nat)
    requires base >= 2 && 0 <= s < d < s + n && d + n <= len
    ensures var r := State(Spike(len, s), s, d, 0);
            Room(r, n) && !RowEquation(base, 1, r, n, Steps(base, 1, r, n))
  {
    hide Step, RowEquation;
    SpikeReadBack(base, len, s, d, n);
    StepsFit(base, 1, State(Spike(len, s), s, d, 0), n);
    SpikeTooMuch(base, len, s, d, n, Steps(base, 1, State(Spike(len, s), s, d, 0), n), d - s);
  }

  /** The row does what it is for exactly when the destination does not start inside the source. */
  lemma RowCorrectIff(base: nat, len: nat, s: int, d: int, n: nat)
    requires base >= 2 && 0 <= s && s + n <= len && 0 <= d && d + n <= len
    ensures (d <= s || s + n <= d)
       <==> forall mem: seq<int>, b, c | |mem| == len && Fits(base, b, State(mem, s, d, c)) ::
              RowEquation(base, b, State(mem, s, d, c), n, Steps(base, b, State(mem, s, d, c), n))
  {
    hide RowEquation, Steps;
    if d <= s || s + n <= d {
      forall mem: seq<int>, b, c | |mem| == len && Fits(base, b, State(mem, s, d, c))
        ensures RowEquation(base, b, State(mem, s, d, c), n, Steps(base, b, State(mem, s, d, c), n))
      {
        RowValue(base, b, State(mem, s, d, c), n);
      }
    } else {
      OverlapBreaksRow(base, len, s, d, n);
      assert Fits(base, 1, State(Spike(len, s), s, d, 0));
    }
  }
}
