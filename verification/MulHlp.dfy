/** The loop around the row: it multiplies a vector of any length into another and carries on behind it. */
module MulHlp {
  import opened Arithmetic
  import opened Blocks
  import opened Numerals
  import opened Plan
  import opened Row
  import opened Words
  import Arm
  import I386

  /** What the destination is to become. */
  ghost function Total(base: nat, dest: seq<int>, source: seq<int>, b: int): int {
    Val(base, dest) + Val(base, source) * b
  }

  lemma StepsMove(base: nat, b: int, r: State, n: nat)
    requires base >= 2 && Room(r, n)
    ensures Steps(base, b, r, n).s == r.s + n && Steps(base, b, r, n).d == r.d + n
  {
  }

  /** INIT, `k` times CORE, STOP, in the middle of a row. */
  method ArmRow(base: nat, mem: array<int>, ghost r: State, ghost done: nat, s0: int, d0: int, c0: int, b: int,
                k: nat, ghost n: nat)
      returns (c: int, d: int, s: int)
    requires Fits(base, b, r) && Room(r, n) && done + k <= n
    requires State(mem[..], s0, d0, c0) == Steps(base, b, r, done)
    modifies mem
    ensures Fits(base, b, State(mem[..], s, d, c)) && State(mem[..], s, d, c) == Steps(base, b, r, done + k)
  {
    hide Step, Steps, RowEquation;
    StepsFit(base, b, r, done);
    StepsFit(base, b, r, done + k);
    StepsMove(base, b, r, done);
    StepsSplit(base, b, r, done, k);
    c, d, s := Arm.MulAddC(base, mem, s0, d0, c0, b, k);
  }

  /** The rows of a compiler without an unrolled block: sixteen limbs, eight, or one at a time. */
  method Rows(base: nat, mem: array<int>, n: nat, s0: int, d0: int, b: int) returns (c: int, d: int)
    requires Fits(base, b, State(mem[..], s0, d0, 0)) && Room(State(mem[..], s0, d0, 0), n)
    modifies mem
    ensures State(mem[..], s0 + n, d, c) == Steps(base, b, State(old(mem[..]), s0, d0, 0), n)
  {
    hide Steps;
    ghost var r := State(mem[..], s0, d0, 0);
    var i, s := n, s0;
    c, d := 0, d0;
    StepsNone(base, b, r);
    while i >= 16
      invariant 0 <= i <= n && Fits(base, b, State(mem[..], s, d, c))
      invariant State(mem[..], s, d, c) == Steps(base, b, r, n - i)
    {
      c, d, s := ArmRow(base, mem, r, n - i, s, d, c, b, 16, n);
      i := i - 16;
    }
    while i >= 8
      invariant 0 <= i <= n && Fits(base, b, State(mem[..], s, d, c))
      invariant State(mem[..], s, d, c) == Steps(base, b, r, n - i)
    {
      c, d, s := ArmRow(base, mem, r, n - i, s, d, c, b, 8, n);
      i := i - 8;
    }
    while i > 0
      invariant 0 <= i <= n && Fits(base, b, State(mem[..], s, d, c))
      invariant State(mem[..], s, d, c) == Steps(base, b, r, n - i)
    {
      c, d, s := ArmRow(base, mem, r, n - i, s, d, c, b, 1, n);
      i := i - 1;
    }
    StepsMove(base, b, r, n);
  }

  lemma OnePiece(piece: Piece)
    ensures Plan.Total([piece]) == Size(piece) && (Huit in [piece] <==> piece == Huit)
  {
    assert [piece][..0] == [];
  }

  /** INIT, HUIT or CORE, STOP, in the middle of a row. */
  method I386Row(base: nat, mem: array<int>, ghost r: State, ghost done: nat, s0: int, d0: int, c0: int, b: int,
                 piece: Piece, ghost n: nat)
      returns (c: int, d: int, s: int)
    requires Fits(base, b, r) && Room(r, n) && done + Size(piece) <= n && (r.d <= r.s || r.s + n <= r.d)
    requires State(mem[..], s0, d0, c0) == Steps(base, b, r, done)
    modifies mem
    ensures Fits(base, b, State(mem[..], s, d, c))
    ensures State(mem[..], s, d, c) == Steps(base, b, r, done + Size(piece))
  {
    hide Step, Steps, RowEquation;
    StepsFit(base, b, r, done);
    StepsFit(base, b, r, done + Size(piece));
    StepsMove(base, b, r, done);
    StepsSplit(base, b, r, done, Size(piece));
    OnePiece(piece);
    c, d, s := I386.MulAddC(base, mem, s0, d0, c0, b, [piece]);
  }

  /** The rows of a compiler with the unrolled SSE2 block. */
  method RowsHuit(base: nat, mem: array<int>, n: nat, s0: int, d0: int, b: int) returns (c: int, d: int)
    requires Fits(base, b, State(mem[..], s0, d0, 0)) && Room(State(mem[..], s0, d0, 0), n)
    requires d0 <= s0 || s0 + n <= d0
    modifies mem
    ensures State(mem[..], s0 + n, d, c) == Steps(base, b, State(old(mem[..]), s0, d0, 0), n)
  {
    hide Steps;
    ghost var r := State(mem[..], s0, d0, 0);
    var i, s := n, s0;
    c, d := 0, d0;
    StepsNone(base, b, r);
    while i >= 8
      invariant 0 <= i <= n && Fits(base, b, State(mem[..], s, d, c))
      invariant State(mem[..], s, d, c) == Steps(base, b, r, n - i)
    {
      c, d, s := I386Row(base, mem, r, n - i, s, d, c, b, Huit, n);
      i := i - 8;
    }
    while i > 0
      invariant 0 <= i <= n && Fits(base, b, State(mem[..], s, d, c))
      invariant State(mem[..], s, d, c) == Steps(base, b, r, n - i)
    {
      c, d, s := I386Row(base, mem, r, n - i, s, d, c, b, Core, n);
      i := i - 1;
    }
    StepsMove(base, b, r, n);
  }

  /** A carry at weight `p` that has run through another limb. */
  lemma CarryMoves(base: nat, p: int, v: int, x: int, c: int, x': int, c': int)
    requires x + c == x' + base * c'
    ensures v + p * (x' - x) + (base * p) * c' == v + p * c
  {
    Distributes(x' - x, base * c', p);
    Associates(base, p, c');
    Associates(p, base, c');
  }

  /** A numeral with one digit replaced. */
  lemma {:induction false} ValUpdate(base: nat, xs: seq<int>, k: nat, x: int)
    requires k < |xs|
    ensures Val(base, xs[k := x]) == Val(base, xs) + Pow(base, k) * (x - xs[k])
  {
    hide Pow;
    var n := |xs| - 1;
    if k == n {
      assert xs[k := x][..n] == xs[..n];
      Distributes(x, -xs[n], Pow(base, n));
    } else {
      ValUpdate(base, xs[..n], k, x);
      assert xs[k := x][..n] == xs[..n][k := x];
    }
  }

  /** What `n` limbs keep of a number. */
  ghost function Cut(base: nat, n: nat, v: int): int
    requires base >= 2
  {
    PowPositive(base, n);
    v % Pow(base, n)
  }

  lemma CutIs(base: nat, n: nat, v: int, rest: int, k: int)
    requires base >= 2 && 0 <= rest < Pow(base, n) && 0 <= k && v == rest + Pow(base, n) * k
    ensures Cut(base, n, v) == rest
    ensures v < Pow(base, n) <==> k == 0
  {
    hide Pow;
    DivModIs(v, Pow(base, n), k, rest);
    if k > 0 {
      ProductMonotone(1, k, Pow(base, n));
    }
  }

  /** The carry that leaves a numeral at its end is there exactly if the sum does not fit. */
  lemma Leftover(base: nat, dest: seq<int>, result: seq<int>, c0: int, c: int)
    requires base >= 2 && Limbs(base, result) && |result| == |dest| && 0 <= c
    requires Val(base, result) + Pow(base, |dest|) * c == Val(base, dest) + c0
    ensures Val(base, result) == Cut(base, |dest|, Val(base, dest) + c0)
    ensures Val(base, dest) + c0 < Pow(base, |dest|) <==> c == 0
  {
    hide Val, Pow;
    ValBound(base, result);
    CutIs(base, |dest|, Val(base, dest) + c0, Val(base, result), c);
  }

  /**
   * The carry behind a row. It is added to the next limb in any case, and what is left over to the limb after
   * that, until nothing is left. `end` is the end of the destination; `inside` tells whether all that happens
   * in front of it. (Behind it, the method stops.)
   */
  method Propagate(base: nat, mem: array<int>, d0: int, c0: int, end: int) returns (inside: bool)
    requires base >= 2 && Limbs(base, mem[..]) && 0 <= c0 < base && 0 <= d0 <= end <= mem.Length
    modifies mem
    ensures Limbs(base, mem[..])
    ensures forall i :: 0 <= i < mem.Length && !(d0 <= i < end) ==> mem[i] == old(mem[i])
    ensures inside <==> d0 < end && Val(base, old(mem[d0..end])) + c0 < Pow(base, end - d0)
    ensures Val(base, mem[d0..end]) == Cut(base, end - d0, Val(base, old(mem[d0..end])) + c0)
  {
    hide Val, Pow;
    ghost var dest := mem[d0..end];
    ghost var total := Val(base, mem[d0..end]) + c0;
    var c, d := c0, d0;
    var more := true;
    PowZero(base);
    while more
      invariant d0 <= d <= end && 0 <= c < base && Limbs(base, mem[..])
      invariant forall i :: 0 <= i < mem.Length && !(d0 <= i < d) ==> mem[i] == old(mem[i])
      invariant Val(base, mem[d0..end]) + Pow(base, d - d0) * c == total
      invariant if d == d0 then more && c == c0 else c == if more then 1 else 0
      decreases end - d, more
    {
      if d == end {
        Leftover(base, dest, mem[d0..end], c0, c);
        return false;
      }
      ghost var x, was, limbs := mem[d], c, mem[d0..end];
      WrapCaught(base, x, c);
      mem[d] := Add(base, mem[d], c);
      c := Less(mem[d], c);
      assert mem[d0..end] == limbs[d - d0 := mem[d]];
      ValUpdate(base, limbs, d - d0, mem[d]);
      PowNext(base, d - d0);
      CarryMoves(base, Pow(base, d - d0), Val(base, limbs), x, was, mem[d], c);
      d := d + 1;
      more := c != 0;
    }
    Leftover(base, dest, mem[d0..end], c0, 0);
    return true;
  }

  /** What is added behind a row counts with the weight of the row. */
  lemma RowThenCarry(p: int, q: int, low: int, high: int, c: int, high': int, k: int)
    requires high + c == high' + q * k
    ensures low + p * c + p * high == (low + p * high') + (q * p) * k
  {
    Distributes(c, high, p);
    Distributes(high', q * k, p);
    Associates(q, p, k);
    Associates(p, q, k);
  }

  lemma DivSplit(v: int, m: int) returns (k: int)
    requires m > 0 && 0 <= v
    ensures 0 <= k && v == v % m + m * k && 0 <= v % m < m
  {
    k := v / m;
  }

  lemma CutSplit(base: nat, n: nat, v: int) returns (k: int)
    requires base >= 2 && 0 <= v
    ensures 0 <= k && v == Cut(base, n, v) + Pow(base, n) * k && 0 <= Cut(base, n, v) < Pow(base, n)
    ensures v < Pow(base, n) <==> k == 0
  {
    hide Pow;
    PowPositive(base, n);
    k := DivSplit(v, Pow(base, n));
    CutIs(base, n, v, v % Pow(base, n), k);
  }

  /** Row and carry together: the lower part as the row leaves it, the upper part with the carry. */
  lemma Together(base: nat, low: seq<int>, high: seq<int>, c: int, high': seq<int>, sum: int)
    requires base >= 2 && Limbs(base, low) && Limbs(base, high) && Limbs(base, high') && |high'| == |high| && 0 <= c
    requires Val(base, high') == Cut(base, |high|, Val(base, high) + c)
    requires sum == Val(base, low) + Pow(base, |low|) * c + Pow(base, |low|) * Val(base, high)
    ensures Val(base, low + high') == Cut(base, |low| + |high|, sum)
    ensures sum < Pow(base, |low| + |high|) <==> Val(base, high) + c < Pow(base, |high|)
  {
    hide Val, Pow, Cut;
    var p, q := Pow(base, |low|), Pow(base, |high|);
    ValBound(base, high);
    ValBound(base, high');
    ValBound(base, low);
    var k := CutSplit(base, |high|, Val(base, high) + c);
    RowThenCarry(p, q, Val(base, low), Val(base, high), c, Val(base, high'), k);
    PowAdds(base, |high|, |low|);
    DigitBound(q, p, Val(base, low), Val(base, high'));
    ValConcat(base, low, high');
    CutIs(base, |high| + |low|, sum, Val(base, low + high'), k);
  }

  /** The row equation, seen from the whole destination. */
  lemma RowTotal(base: nat, b: int, r: State, n: nat, r': State, end: int)
    requires base >= 2 && Room(r, n) && |r'.mem| == |r.mem| && r.d + n <= end <= |r.mem| && r.c == 0
    requires RowEquation(base, b, r, n, r')
    ensures Total(base, r.mem[r.d..end], r.mem[r.s..r.s + n], b)
         == Val(base, r'.mem[r.d..r.d + n]) + Pow(base, n) * r'.c + Pow(base, n) * Val(base, r.mem[r.d + n..end])
  {
    hide Val, Pow;
    assert r.mem[r.d..end] == r.mem[r.d..r.d + n] + r.mem[r.d + n..end];
    ValConcat(base, r.mem[r.d..r.d + n], r.mem[r.d + n..end]);
  }

  /** From the row and the carry behind it to the whole destination. */
  lemma RowDoneThenCarry(base: nat, b: int, r: State, n: nat, r': State, end: int, mem: seq<int>)
    requires Fits(base, b, r) && Room(r, n) && r.c == 0 && (r.d <= r.s || r.s + n <= r.d)
    requires r.d + n <= end <= |r.mem| == |mem| && Limbs(base, mem) && r' == Steps(base, b, r, n)
    requires forall i :: 0 <= i < |mem| && !(r.d + n <= i < end) ==> mem[i] == r'.mem[i]
    requires Val(base, mem[r.d + n..end]) == Cut(base, end - (r.d + n), Val(base, r'.mem[r.d + n..end]) + r'.c)
    ensures var sum := Total(base, r.mem[r.d..end], r.mem[r.s..r.s + n], b);
            && Val(base, mem[r.d..end]) == Cut(base, end - r.d, sum)
            && (sum < Pow(base, end - r.d)
                <==> Val(base, r'.mem[r.d + n..end]) + r'.c < Pow(base, end - (r.d + n)))
    ensures forall i :: 0 <= i < |mem| && !(r.d <= i < end) ==> mem[i] == r.mem[i]
  {
    hide Val, Pow, Steps, Total, Cut, RowEquation;
    var k := r.d + n;
    StepsFit(base, b, r, n);
    RowValue(base, b, r, n);
    RowTotal(base, b, r, n, r', end);
    assert r'.mem[k..end] == r.mem[k..end] && mem[r.d..k] == r'.mem[r.d..k];
    assert mem[r.d..end] == mem[r.d..k] + mem[k..end];
    Together(base, mem[r.d..k], r'.mem[k..end], r'.c, mem[k..end],
             Total(base, r.mem[r.d..end], r.mem[r.s..r.s + n], b));
  }

  /**
   * The helper of the multiplications: `n` limbs of the source times `b` are added to the destination, which
   * ends at `end`, and the carry is run through. The result is exact, and nothing behind the destination is
   * touched, exactly when there is at least one limb behind the row and the sum fits the destination.
   */
  method MulHlp(huit: bool, base: nat, mem: array<int>, n: nat, s: int, d: int, b: int, end: int) returns (inside: bool)
    requires Fits(base, b, State(mem[..], s, d, 0)) && Room(State(mem[..], s, d, 0), n)
    requires (d <= s || s + n <= d) && d + n <= end <= mem.Length
    modifies mem
    ensures Limbs(base, mem[..])
    ensures forall i :: 0 <= i < mem.Length && !(d <= i < end) ==> mem[i] == old(mem[i])
    ensures inside <==> d + n < end && Total(base, old(mem[d..end]), old(mem[s..s + n]), b) < Pow(base, end - d)
    ensures Val(base, mem[d..end]) == Cut(base, end - d, Total(base, old(mem[d..end]), old(mem[s..s + n]), b))
  {
    hide Val, Pow, Steps, Total, Cut;
    ghost var r := State(mem[..], s, d, 0);
    assert mem[d..end] == r.mem[d..end] && mem[s..s + n] == r.mem[s..s + n];
    var c, d1: int;
    if huit {
      c, d1 := RowsHuit(base, mem, n, s, d, b);
    } else {
      c, d1 := Rows(base, mem, n, s, d, b);
    }
    ghost var r' := State(mem[..], s + n, d1, c);
    StepsMove(base, b, r, n);
    StepsFit(base, b, r, n);
    assert mem[d1..end] == r'.mem[d1..end];
    inside := Propagate(base, mem, d1, c, end);
    RowDoneThenCarry(base, b, r, n, r', end, mem[..]);
    assert mem[d1..end] == mem[..][d1..end] && mem[d..end] == mem[..][d..end];
  }

  lemma CutSmall(base: nat, n: nat, v: int)
    requires base >= 2 && 0 <= v < Pow(base, n)
    ensures Cut(base, n, v) == v
  {
    hide Pow;
    CutIs(base, n, v, v, 0);
  }

  /** The helper, where the sum is known to fit and the source lies elsewhere. */
  method AddMultiple(huit: bool, base: nat, mem: array<int>, n: nat, s: int, d: int, b: int, len: nat,
                     ghost source: seq<int>)
    requires base >= 2 && Limbs(base, mem[..]) && 0 <= b < base && |source| == n < len
    requires 0 <= d && d + len <= mem.Length && Holds(mem[..], s, source, d, len)
    requires 0 <= Total(base, mem[d..d + len], source, b) < Pow(base, len)
    modifies mem
    ensures Limbs(base, mem[..])
    ensures forall k :: 0 <= k < mem.Length && !(d <= k < d + len) ==> mem[k] == old(mem[k])
    ensures Val(base, mem[d..d + len]) == Total(base, old(mem[d..d + len]), source, b)
  {
    hide Val, Pow, Cut, Total, Holds;
    HeldAt(mem[..], s, source, d, len);
    CutSmall(base, len, Total(base, mem[d..d + len], source, b));
    var inside := MulHlp(huit, base, mem, n, s, d, b, d + len);
    assert inside;
  }
}
