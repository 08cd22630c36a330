/** The IA-32 program, and the SSE2 program that does eight limbs with interleaved loads and stores. */
module I386 {
  import opened Arithmetic
  import opened Numerals
  import opened Plan
  import opened Row
  import opened Words

  /** One limb of a row whose source limb is `x`, not the one in memory. */
  ghost function FeedStep(base: nat, b: int, q: State, x: int): State
    requires base >= 2 && Room(q, 1)
  {
    var t := Sum(x, b, q.mem[q.d], q.c);
    State(q.mem[q.d := Lo(base, t)], q.s + 1, q.d + 1, Hi(base, t))
  }

  /** `n` limbs of a row whose source limbs were loaded beforehand. */
  ghost function Feed(base: nat, b: int, r: State, src: seq<int>, n: nat): (r': State)
    requires base >= 2 && Room(r, n) && n <= |src|
    ensures |r'.mem| == |r.mem| && r'.s == r.s + n && r'.d == r.d + n
    ensures forall i :: 0 <= i < |r.mem| && !(r.d <= i < r.d + n) ==> r'.mem[i] == r.mem[i]
  {
    if n == 0 then r else FeedStep(base, b, Feed(base, b, r, src, n - 1), src[n - 1])
  }

  /** The limbs the SSE2 block loads: four before its first store, three after it, the last after the second. */
  ghost function Loads(base: nat, b: int, r: State): (src: seq<int>)
    requires base >= 2 && Room(r, 8)
    ensures |src| == 8
  {
    var early := r.mem[r.s..r.s + 4];
    var first := early + Feed(base, b, r, early, 1).mem[r.s + 4..r.s + 7];
    first + [Feed(base, b, r, first, 2).mem[r.s + 7]]
  }

  /** Eight limbs as the SSE2 block does them. */
  ghost function Block(base: nat, b: int, r: State): State
    requires base >= 2 && Room(r, 8)
  {
    Feed(base, b, r, Loads(base, b, r), 8)
  }

  // The 64-bit registers: two limbs wide.

  function Paddq(base: nat, x: int, y: int): int {
    Add(base * base, x, y)
  }

  /** The product of the lower halves. */
  function Pmuludq(base: nat, x: int, y: int): int
    requires base > 0
  {
    (x % base) * (y % base)
  }

  function Psrlq(base: nat, x: int): int
    requires base > 0
  {
    x / base
  }

  function Low32(base: nat, x: int): int
    requires base > 0
  {
    x % base
  }

  lemma FeedNothing(base: nat, b: int, r: State, src: seq<int>)
    requires base >= 2 && Room(r, 0)
    ensures Feed(base, b, r, src, 0) == r
  {
  }

  lemma {:induction false} FeedPrefix(base: nat, b: int, r: State, src: seq<int>, src': seq<int>, n: nat)
    requires base >= 2 && Room(r, n) && n <= |src| && src <= src'
    ensures Feed(base, b, r, src, n) == Feed(base, b, r, src', n)
  {
    hide FeedStep;
    if n == 0 {
    } else {
      FeedPrefix(base, b, r, src, src', n - 1);
    }
  }

  lemma {:induction false} FeedFits(base: nat, b: int, r: State, src: seq<int>, n: nat)
    requires Fits(base, b, r) && Room(r, n) && n <= |src| && Limbs(base, src)
    ensures Fits(base, b, Feed(base, b, r, src, n))
  {
    hide Lo, Hi, Sum;
    if n == 0 {
    } else {
      FeedFits(base, b, r, src, n - 1);
      var q := Feed(base, b, r, src, n - 1);
      SumFits(base, src[n - 1], b, q.mem[q.d], q.c);
    }
  }

  /** No column overflows its 64-bit register, in whichever order its three terms are added. */
  lemma ColumnFits(base: nat, x: int, b: int, y: int, c: int)
    requires base >= 2 && 0 <= x < base && 0 <= b < base && 0 <= y < base && 0 <= c < base
    ensures var p, t := Pmuludq(base, x, b), Sum(x, b, y, c);
            && Paddq(base, Paddq(base, c, y), p) == t
            && Paddq(base, c, Paddq(base, y, p)) == t
            && Paddq(base, c, Paddq(base, p, y)) == t
            && Low32(base, t) == Lo(base, t) && Psrlq(base, t) == Hi(base, t)
  {
    DivModIs(x, base, 0, x);
    DivModIs(b, base, 0, b);
    SumFits(base, x, b, y, c);
    ProductMonotone(0, x, b);
  }

  lemma Column(base: nat, b: int, r: State, src: seq<int>, k: nat)
    requires Fits(base, b, r) && Room(r, k + 1) && k < |src| && Limbs(base, src)
    ensures
      var q := Feed(base, b, r, src, k);
      var q' := Feed(base, b, r, src, k + 1);
      var p, y := Pmuludq(base, src[k], b), r.mem[r.d + k];
      var t := Paddq(base, Paddq(base, q.c, y), p);
      && t == Paddq(base, q.c, Paddq(base, y, p)) == Paddq(base, q.c, Paddq(base, p, y))
      && q'.mem == q.mem[r.d + k := Low32(base, t)] && q'.c == Psrlq(base, t)
      && Fits(base, b, q') && Fits(base, b, q)
  {
    hide Paddq, Pmuludq, Psrlq, Low32, Lo, Hi, Sum;
    var q := Feed(base, b, r, src, k);
    FeedFits(base, b, r, src, k);
    FeedFits(base, b, r, src, k + 1);
    ColumnFits(base, src[k], b, r.mem[r.d + k], q.c);
  }

  class Machine {
    const base: nat
    const mem: array<int>
    var esi: int
    var edi: int
    var ecx: int
    var ebx: int

    ghost function View(): State
      reads this, mem
    {
      State(mem[..], esi, edi, ecx)
    }

    ghost predicate Valid()
      reads this, mem
    {
      Fits(base, ebx, View())
    }

    constructor Init(base: nat, mem: array<int>, s: int, d: int, c: int, b: int)
      requires Fits(base, b, State(mem[..], s, d, c))
      ensures Valid() && this.base == base && this.mem == mem && ebx == b && View() == State(mem[..], s, d, c)
    {
      this.base, this.mem := base, mem;
      esi, edi, ecx, ebx := s, d, c, b;
    }

    method Core()
      requires Valid() && Room(View(), 1)
      modifies this, mem
      ensures Valid() && ebx == old(ebx) && View() == Step(base, ebx, old(View()))
    {
      hide Step, MulLo, MulHi, Product;
      var eax := mem[esi];
      esi := esi + 1;
      ProductSplit(base, eax, ebx);
      var edx: int;
      edx, eax := MulHi(base, eax, ebx), MulLo(base, eax, ebx);
      ghost var lo, hi := eax, edx;
      var cf: int;
      eax, cf := Add(base, eax, ecx), Carry(base, eax, ecx);
      ghost var w := cf;
      edx, cf := Add(base, edx, 0, cf), Carry(base, edx, 0, cf);
      eax, cf := Add(base, eax, mem[edi]), Carry(base, eax, mem[edi]);
      StepIs(base, ebx, old(View()), lo, hi, w + cf, eax);
      edx, cf := Add(base, edx, 0, cf), Carry(base, edx, 0, cf);
      ecx := edx;
      mem[edi] := eax;
      edi := edi + 1;
    }

    method Stop() returns (c: int, d: int, s: int)
      ensures State(mem[..], s, d, c) == View()
    {
      c, d, s := ecx, edi, esi;
    }

    /** Storing the lower half of a 64-bit register at an offset from the destination pointer. */
    method Movd(offset: int, mm: int)
      requires base > 0 && 0 <= edi + offset < mem.Length
      modifies mem
      ensures mem[..] == old(mem[..])[edi + offset := Low32(base, mm)]
    {
      mem[edi + offset] := Low32(base, mm);
    }

    /** `k` columns are done: their limbs are stored and `carry` is what they leave over. */
    ghost predicate Done(r: State, src: seq<int>, k: nat, carry: int)
      reads this, mem
    {
      && Fits(base, ebx, r) && Room(r, 8) && esi == r.s && edi == r.d && |r.mem| == mem.Length
      && Limbs(base, src) && k <= |src| <= 8
      && mem[..] == Feed(base, ebx, r, src, k).mem && carry == Feed(base, ebx, r, src, k).c
    }

    method HuitColumn0(ghost r: State)
        returns (ghost src: seq<int>, mm1: int, mm3: int, mm5: int, mm7: int)
      requires Valid() && r == View() && Room(r, 8)
      modifies mem
      ensures src == r.mem[r.s..r.s + 4] && Done(r, src, 1, Psrlq(base, mm1))
      ensures mm3 == Paddq(base, r.mem[r.d + 1], Pmuludq(base, src[1], ebx))
      ensures mm5 == Paddq(base, r.mem[r.d + 2], Pmuludq(base, src[2], ebx))
      ensures mm7 == Paddq(base, Pmuludq(base, src[3], ebx), r.mem[r.d + 3])
    {
      hide FeedStep, Paddq, Pmuludq, Psrlq, Low32, Feed;
      src := r.mem[r.s..r.s + 4];
      FeedNothing(base, ebx, r, src);
      Column(base, ebx, r, src, 0);
      mm1 := ecx;
      var mm0 := ebx;
      mm3 := mem[edi];
      mm1 := Paddq(base, mm1, mm3);
      var mm2 := mem[esi];
      mm2 := Pmuludq(base, mm2, mm0);
      var mm4 := mem[esi + 1];
      mm4 := Pmuludq(base, mm4, mm0);
      var mm6 := mem[esi + 2];
      mm6 := Pmuludq(base, mm6, mm0);
      mm7 := mem[esi + 3];
      mm7 := Pmuludq(base, mm7, mm0);
      mm1 := Paddq(base, mm1, mm2);
      mm3 := mem[edi + 1];
      mm3 := Paddq(base, mm3, mm4);
      mm5 := mem[edi + 2];
      mm5 := Paddq(base, mm5, mm6);
      mm4 := mem[edi + 3];
      mm7 := Paddq(base, mm7, mm4);
      Movd(0, mm1);
    }

    method HuitColumn1(ghost r: State, ghost early: seq<int>, t0: int, t1: int)
        returns (ghost src: seq<int>, mm1: int, mm2: int, mm4: int, mm6: int)
      requires base >= 2 && |early| == 4 && Done(r, early, 1, Psrlq(base, t0))
      requires t1 == Paddq(base, r.mem[r.d + 1], Pmuludq(base, early[1], ebx))
      modifies mem
      ensures src == early + Feed(base, ebx, r, early, 1).mem[r.s + 4..r.s + 7] && Done(r, src, 2, mm1)
      ensures mm2 == Pmuludq(base, src[4], ebx) && mm4 == Pmuludq(base, src[5], ebx)
      ensures mm6 == Pmuludq(base, src[6], ebx)
    {
      hide FeedStep, Paddq, Pmuludq, Psrlq, Low32, Feed;
      Column(base, ebx, r, early, 1);
      ghost var seen := Feed(base, ebx, r, early, 1).mem;
      src := early + [seen[r.s + 4], seen[r.s + 5], seen[r.s + 6]];
      assert src == early + seen[r.s + 4..r.s + 7];
      FeedPrefix(base, ebx, r, early, src, 1);
      FeedPrefix(base, ebx, r, early, src, 2);
      mm1 := t0;
      var mm0, mm3 := ebx, t1;
      mm2 := mem[esi + 4];
      mm2 := Pmuludq(base, mm2, mm0);
      mm1 := Psrlq(base, mm1);
      mm4 := mem[esi + 5];
      mm4 := Pmuludq(base, mm4, mm0);
      mm1 := Paddq(base, mm1, mm3);
      mm6 := mem[esi + 6];
      mm6 := Pmuludq(base, mm6, mm0);
      Movd(1, mm1);
      mm1 := Psrlq(base, mm1);
    }

    method HuitColumns2And3(ghost r: State, ghost first: seq<int>, c: int, p4: int, p5: int, t2: int, t3: int)
        returns (ghost src: seq<int>, mm1: int, mm2: int, mm3: int, mm4: int)
      requires |first| == 7 && Done(r, first, 2, c)
      requires t2 == Paddq(base, r.mem[r.d + 2], Pmuludq(base, first[2], ebx))
      requires t3 == Paddq(base, Pmuludq(base, first[3], ebx), r.mem[r.d + 3])
      requires p4 == Pmuludq(base, first[4], ebx) && p5 == Pmuludq(base, first[5], ebx)
      modifies mem
      ensures src == first + [Feed(base, ebx, r, first, 2).mem[r.s + 7]] && Done(r, src, 4, mm1)
      ensures mm2 == Paddq(base, Pmuludq(base, src[4], ebx), r.mem[r.d + 4])
      ensures mm4 == Paddq(base, Pmuludq(base, src[5], ebx), r.mem[r.d + 5])
      ensures mm3 == Pmuludq(base, src[7], ebx)
    {
      hide FeedStep, Paddq, Pmuludq, Psrlq, Low32, Feed;
      ghost var b := ebx;
      var mm0 := ebx;
      var mm5, mm7 := t2, t3;
      mm1, mm2, mm4 := c, p4, p5;
      FeedFits(base, b, r, first, 2);
      mm3 := mem[esi + 7];
      src := first + [mm3];
      FeedPrefix(base, b, r, first, src, 2);
      Column(base, b, r, src, 2);
      Column(base, b, r, src, 3);
      mm3 := Pmuludq(base, mm3, mm0);
      mm1 := Paddq(base, mm1, mm5);
      mm5 := mem[edi + 4];
      mm2 := Paddq(base, mm2, mm5);
      Movd(2, mm1);
      mm1 := Psrlq(base, mm1);
      mm1 := Paddq(base, mm1, mm7);
      mm5 := mem[edi + 5];
      mm4 := Paddq(base, mm4, mm5);
      Movd(3, mm1);
      mm1 := Psrlq(base, mm1);
    }

    method HuitColumns4To7(ghost r: State, ghost src: seq<int>, c: int, t4: int, p7: int, t5: int, p6: int)
      requires |src| == 8 && Done(r, src, 4, c)
      requires t4 == Paddq(base, Pmuludq(base, src[4], ebx), r.mem[r.d + 4])
      requires t5 == Paddq(base, Pmuludq(base, src[5], ebx), r.mem[r.d + 5])
      requires p6 == Pmuludq(base, src[6], ebx) && p7 == Pmuludq(base, src[7], ebx)
      modifies this, mem
      ensures ebx == old(ebx) && View() == Feed(base, ebx, r, src, 8)
    {
      hide FeedStep, Paddq, Pmuludq, Psrlq, Low32, Feed;
      ghost var b := ebx;
      var mm1, mm2, mm3, mm4, mm6 := c, t4, p7, t5, p6;
      Column(base, b, r, src, 4);
      Column(base, b, r, src, 5);
      Column(base, b, r, src, 6);
      Column(base, b, r, src, 7);
      mm1 := Paddq(base, mm1, mm2);
      var mm5 := mem[edi + 6];
      mm6 := Paddq(base, mm6, mm5);
      Movd(4, mm1);
      mm1 := Psrlq(base, mm1);
      mm1 := Paddq(base, mm1, mm4);
      mm5 := mem[edi + 7];
      mm3 := Paddq(base, mm3, mm5);
      Movd(5, mm1);
      mm1 := Psrlq(base, mm1);
      mm1 := Paddq(base, mm1, mm6);
      Movd(6, mm1);
      mm1 := Psrlq(base, mm1);
      mm1 := Paddq(base, mm1, mm3);
      Movd(7, mm1);
      edi := edi + 8;
      esi := esi + 8;
      mm1 := Psrlq(base, mm1);
      ecx := mm1;
    }

    /**
     * The SSE2 block. The 64-bit registers hold whole columns, a product plus a limb of the destination,
     * and `mm1` runs down the columns with the carry.
     */
    method Huit()
      requires Valid() && Room(View(), 8)
      modifies this, mem
      ensures Valid() && ebx == old(ebx)
      ensures View() == Block(base, ebx, old(View()))
    {
      hide Feed;
      ghost var r := View();
      ghost var early, first, src;
      var mm1, mm2, mm3, mm4, mm5, mm6, mm7;
      early, mm1, mm3, mm5, mm7 := HuitColumn0(r);
      first, mm1, mm2, mm4, mm6 := HuitColumn1(r, early, mm1, mm3);
      src, mm1, mm2, mm3, mm4 := HuitColumns2And3(r, first, mm1, mm2, mm4, mm5, mm7);
      HuitColumns4To7(r, src, mm1, mm2, mm3, mm4, mm6);
      FeedFits(base, ebx, r, src, 8);
    }
  }

  /** How many limbs of the result the SSE2 block has stored when it loads source limb `i`. */
  function StoredBefore(i: nat): (k: nat) {
    if i <= 3 then 0 else if i <= 6 then 1 else 2
  }

  lemma LoadSees(base: nat, b: int, r: State, i: nat)
    requires base >= 2 && Room(r, 8) && i < 8
    ensures Loads(base, b, r)[i] == Feed(base, b, r, Loads(base, b, r), StoredBefore(i)).mem[r.s + i]
  {
    hide FeedStep, Feed;
    var src := Loads(base, b, r);
    FeedNothing(base, b, r, src);
    FeedPrefix(base, b, r, src[..4], src, 1);
    FeedPrefix(base, b, r, src[..7], src, 2);
    assert src[..4] == r.mem[r.s..r.s + 4];
    assert src[..7] == src[..4] + Feed(base, b, r, src[..4], 1).mem[r.s + 4..r.s + 7];
  }

  lemma FeedFromMemory(base: nat, b: int, q: State)
    requires base >= 2 && Room(q, 1)
    ensures FeedStep(base, b, q, q.mem[q.s]) == Step(base, b, q)
  {
  }

  /** Loading early does no harm while no limb loaded early is stored in between. */
  lemma {:induction false} BlockFollowsSteps(base: nat, b: int, r: State, k: nat)
    requires base >= 2 && Room(r, 8) && k <= 8 && (r.d <= r.s || r.s + 6 <= r.d)
    ensures Feed(base, b, r, Loads(base, b, r), k) == Steps(base, b, r, k)
  {
    hide Loads, FeedStep, Step;
    if k == 0 {
    } else {
      var i := k - 1;
      BlockFollowsSteps(base, b, r, i);
      BlockFollowsSteps(base, b, r, StoredBefore(i));
      LoadSees(base, b, r, i);
      StillThere(base, b, r, StoredBefore(i), i, r.s + i);
      FeedFromMemory(base, b, Steps(base, b, r, i));
    }
  }

  lemma AddOne(base: nat, x: int, y: int)
    requires base >= 2 && 0 <= x + y < base
    ensures Lo(base, Sum(x, 1, y, 0)) == x + y && Hi(base, Sum(x, 1, y, 0)) == 0
  {
    DivModIs(Sum(x, 1, y, 0), base, 0, x + y);
  }

  /** Multiplying by one adds the loaded limbs, one by one where no sum needs a carry. */
  lemma {:induction false} FeedAdds(base: nat, r: State, src: seq<int>, n: nat)
    requires base >= 2 && Room(r, n) && n <= |src| && r.c == 0
    requires forall i :: 0 <= i < n ==> 0 <= src[i] + r.mem[r.d + i] < base
    ensures Feed(base, 1, r, src, n).c == 0
    ensures forall i :: 0 <= i < n ==> Feed(base, 1, r, src, n).mem[r.d + i] == src[i] + r.mem[r.d + i]
  {
    hide Lo, Hi, Sum;
    if n == 0 {
    } else {
      FeedAdds(base, r, src, n - 1);
      AddOne(base, src[n - 1], r.mem[r.d + n - 1]);
    }
  }

  /** The source limb that the SSE2 block loads too early when the vectors are `off` limbs apart. */
  function Missed(off: int): int {
    if off <= 3 then 0 else 1
  }

  lemma StepsReadBack(base: nat, len: nat, s: int, d: int)
    requires base >= 2 && 0 <= s < d <= s + 5 && d + 8 <= len
    ensures var r, j := State(Spike(len, s + Missed(d - s)), s, d, 0), Missed(d - s);
            Room(r, 8) && Steps(base, 1, r, 8).mem[d + j + (d - s)] == 1
  {
    hide Step;
    if d - s <= 3 {
      SpikeReadBack(base, len, s, d, 8);
    } else {
      var r := State(Spike(len, s + 1), s, d, 0);
      StepByOne(base, r);
      assert Steps(base, 1, r, 0) == r;
      assert r.mem[d := 0] == r.mem;
      assert Steps(base, 1, r, 1) == State(Spike(len, s + 1), s + 1, d + 1, 0);
      StepsSplit(base, 1, r, 1, 7);
      SpikeReadBack(base, len, s + 1, d + 1, 7);
    }
  }

  /** A limb that is not among those stored before its load is loaded as it was at the start. */
  lemma LoadMisses(base: nat, b: int, r: State, i: nat, at: int)
    requires base >= 2 && Room(r, 8) && i < 8 && at == r.s + i && !(r.d <= at < r.d + StoredBefore(i))
    ensures Loads(base, b, r)[i] == r.mem[at]
  {
    hide Feed, Loads;
    LoadSees(base, b, r, i);
  }

  /** From a memory of zeros and ones, with zeros at the destination, only zeros and ones are loaded. */
  lemma {:induction false} SpikeLoads(base: nat, r: State, n: nat)
    requires base >= 2 && Room(r, 8) && r.c == 0 && n <= 8
    requires forall i :: 0 <= i < |r.mem| ==> 0 <= r.mem[i] <= 1
    requires forall i :: r.d <= i < r.d + 8 ==> r.mem[i] == 0
    ensures forall i :: 0 <= i < n ==> 0 <= Loads(base, 1, r)[i] <= 1
  {
    hide FeedStep, Loads;
    if n == 0 {
    } else {
      SpikeLoads(base, r, n - 1);
      var src, k := Loads(base, 1, r), StoredBefore(n - 1);
      LoadSees(base, 1, r, n - 1);
      FeedAdds(base, r, src, k);
      var at := r.s + n - 1;
      if r.d <= at < r.d + k {
        assert Feed(base, 1, r, src, k).mem[r.d + (at - r.d)] == src[at - r.d];
      }
    }
  }

  lemma BlockCopies(base: nat, r: State, i: nat)
    requires base >= 2 && Room(r, 8) && r.c == 0 && i < 8
    requires forall k :: 0 <= k < |r.mem| ==> 0 <= r.mem[k] <= 1
    requires forall k :: r.d <= k < r.d + 8 ==> r.mem[k] == 0
    ensures Block(base, 1, r).mem[r.d + i] == Loads(base, 1, r)[i]
  {
    hide Feed, Loads;
    SpikeLoads(base, r, 8);
    FeedAdds(base, r, Loads(base, 1, r), 8);
  }

  /** From a lone one in the source, the block computes a zero where the single steps compute a one. */
  lemma BlockReadsEarly(base: nat, len: nat, s: int, d: int)
    requires base >= 2 && 0 <= s < d <= s + 5 && d + 8 <= len
    ensures var r, j := State(Spike(len, s + Missed(d - s)), s, d, 0), Missed(d - s);
            && Room(r, 8) && d + j + (d - s) < d + 8
            && Block(base, 1, r).mem[d + j + (d - s)] == 0 && Steps(base, 1, r, 8).mem[d + j + (d - s)] == 1
  {
    hide Block, Loads, Feed, Spike, Step;
    StepsReadBack(base, len, s, d);
    var r, j := State(Spike(len, s + Missed(d - s)), s, d, 0), Missed(d - s);
    BlockCopies(base, r, j + (d - s));
    LoadMisses(base, 1, r, j + (d - s), d + j);
  }

  lemma BlockFollows(base: nat, b: int, r: State)
    requires base >= 2 && Room(r, 8) && (r.d <= r.s || r.s + 6 <= r.d)
    ensures Block(base, b, r) == Steps(base, b, r, 8)
  {
    BlockFollowsSteps(base, b, r, 8);
  }

  /** The SSE2 block is eight steps exactly when the destination does not start one to five limbs after the source. */
  lemma BlockIsStepsIff(base: nat, len: nat, s: int, d: int)
    requires base >= 2 && 0 <= s && s + 8 <= len && 0 <= d && d + 8 <= len
    ensures (d <= s || s + 6 <= d)
       <==> forall mem: seq<int>, b, c | |mem| == len && Fits(base, b, State(mem, s, d, c)) ::
              Block(base, b, State(mem, s, d, c)) == Steps(base, b, State(mem, s, d, c), 8)
  {
    hide Steps, Block;
    if d <= s || s + 6 <= d {
      forall mem: seq<int>, b, c | |mem| == len && Fits(base, b, State(mem, s, d, c))
        ensures Block(base, b, State(mem, s, d, c)) == Steps(base, b, State(mem, s, d, c), 8)
      {
        BlockFollows(base, b, State(mem, s, d, c));
      }
    } else {
      var r := State(Spike(len, s + Missed(d - s)), s, d, 0);
      BlockReadsEarly(base, len, s, d);
      assert Fits(base, 1, r);
      assert Block(base, 1, r) != Steps(base, 1, r, 8);
    }
  }

  /** One piece of a row. */
  ghost function AfterPiece(base: nat, b: int, q: State, p: Piece): (r': State)
    requires base >= 2 && Room(q, Size(p))
    ensures |r'.mem| == |q.mem| && r'.s == q.s + Size(p) && r'.d == q.d + Size(p)
    ensures forall i :: 0 <= i < |q.mem| && !(q.d <= i < q.d + Size(p)) ==> r'.mem[i] == q.mem[i]
  {
    match p
    case Core => Step(base, b, q)
    case Huit => Block(base, b, q)
    case Reload(_) => q
  }

  /** A row cut into blocks, single limbs and interruptions, however the vectors overlap. */
  ghost function Run(base: nat, b: int, r: State, plan: seq<Piece>): (r': State)
    requires base >= 2 && Room(r, Total(plan))
    ensures |r'.mem| == |r.mem| && r'.s == r.s + Total(plan) && r'.d == r.d + Total(plan)
    ensures forall i :: 0 <= i < |r.mem| && !(r.d <= i < r.d + Total(plan)) ==> r'.mem[i] == r.mem[i]
  {
    if plan == [] then r
    else
      AfterPiece(base, b, Run(base, b, r, plan[..|plan| - 1]), plan[|plan| - 1])
  }

  lemma RunNext(base: nat, b: int, r: State, plan: seq<Piece>, i: nat)
    requires base >= 2 && Room(r, Total(plan)) && i < |plan|
    ensures Total(plan[..i + 1]) == Total(plan[..i]) + Size(plan[i]) && Total(plan[..i + 1]) <= Total(plan)
    ensures Run(base, b, r, plan[..i + 1]) == AfterPiece(base, b, Run(base, b, r, plan[..i]), plan[i])
  {
    hide AfterPiece;
    TotalGrows(plan, i);
  }

  /** Where the unrolled block is eight steps, or does not occur, the cut does not matter. */
  lemma {:induction false} RunFollows(base: nat, b: int, r: State, plan: seq<Piece>)
    requires base >= 2 && Room(r, Total(plan)) && (Huit in plan ==> r.d <= r.s || r.s + 6 <= r.d)
    ensures Run(base, b, r, plan) == Steps(base, b, r, Total(plan))
  {
    hide Step, Block;
    if plan == [] {
    } else {
      var front, last := plan[..|plan| - 1], plan[|plan| - 1];
      RunFollows(base, b, r, front);
      if last.Core? {
        StepsNext(base, b, r, Total(front));
      } else if last.Huit? {
        assert last in plan;
        BlockFollows(base, b, Run(base, b, r, front));
        StepsSplit(base, b, r, Total(front), 8);
      }
    }
  }

  /** What the first `i` pieces have stored stays. */
  lemma {:induction false} RunKeeps(base: nat, b: int, r: State, plan: seq<Piece>, i: nat, at: int)
    requires base >= 2 && Room(r, Total(plan)) && i <= |plan|
    requires Total(plan[..i]) <= Total(plan) && 0 <= at < r.d + Total(plan[..i])
    ensures Run(base, b, r, plan).mem[at] == Run(base, b, r, plan[..i]).mem[at]
  {
    hide Step, Block;
    if i == |plan| {
      assert plan[..i] == plan;
    } else {
      var k := |plan| - 1;
      TotalMonotone(plan[..k], i);
      assert plan[..k][..i] == plan[..i];
      RunKeeps(base, b, r, plan[..k], i, at);
    }
  }

  lemma {:induction false} FirstHuit(plan: seq<Piece>) returns (i: nat)
    requires Huit in plan
    ensures i < |plan| && plan[i].Huit? && Huit !in plan[..i]
  {
    var k := |plan| - 1;
    if Huit in plan[..k] {
      i := FirstHuit(plan[..k]);
      assert plan[..k][..i] == plan[..i];
    } else {
      i := k;
      assert plan == plan[..k] + [plan[k]];
    }
  }

  /** Multiplying zeros by one changes nothing. */
  lemma {:induction false} SpikeWaits(base: nat, len: nat, at: int, s: int, d: int, n: nat)
    requires base >= 2 && 0 <= s && s + n <= at < len && 0 <= d && d + n <= len
    ensures Steps(base, 1, State(Spike(len, at), s, d, 0), n) == State(Spike(len, at), s + n, d + n, 0)
  {
    hide Step;
    if n == 0 {
    } else {
      SpikeWaits(base, len, at, s, d, n - 1);
      var q := State(Spike(len, at), s + n - 1, d + n - 1, 0);
      StepByOne(base, q);
      assert q.mem[q.d := q.mem[q.d]] == q.mem;
    }
  }

  /** For every plan with a block and offsets one to five, a memory on which the cut shows. */
  lemma RunBreaks(base: nat, len: nat, s: int, d: int, plan: seq<Piece>) returns (r: State)
    requires base >= 2 && 0 <= s < d <= s + 5 && d + Total(plan) <= len && Huit in plan
    ensures |r.mem| == len && r.s == s && r.d == d && Fits(base, 1, r)
    ensures Run(base, 1, r, plan).mem != Steps(base, 1, r, Total(plan)).mem
  {
    hide Step, Block, Run, Spike;
    var i := FirstHuit(plan);
    TotalGrows(plan, i);
    var k, off := Total(plan[..i]), d - s;
    var j := Missed(off);
    r := State(Spike(len, s + k + j), s, d, 0);
    var q := State(r.mem, s + k, d + k, 0);
    SpikeWaits(base, len, s + k + j, s, d, k);
    BlockReadsEarly(base, len, s + k, d + k);
    RunFollows(base, 1, r, plan[..i]);
    RunNext(base, 1, r, plan, i);
    var at := d + k + j + off;
    RunKeeps(base, 1, r, plan, i + 1, at);
    StepsSplit(base, 1, r, k, 8);
    StillThere(base, 1, r, k + 8, Total(plan), at);
  }

  /**
   * A row cut into blocks, single limbs and interruptions is one uninterrupted row, for all memories, exactly
   * when there is no block or the destination does not start one to five limbs after the source.
   */
  lemma RunIsStepsIff(base: nat, len: nat, s: int, d: int, plan: seq<Piece>)
    requires base >= 2 && 0 <= s && s + Total(plan) <= len && 0 <= d && d + Total(plan) <= len
    ensures (Huit in plan ==> d <= s || s + 6 <= d)
       <==> forall mem: seq<int>, b, c | |mem| == len && Fits(base, b, State(mem, s, d, c)) ::
              Run(base, b, State(mem, s, d, c), plan) == Steps(base, b, State(mem, s, d, c), Total(plan))
  {
    hide Run, Steps;
    if Huit in plan ==> d <= s || s + 6 <= d {
      forall mem: seq<int>, b, c | |mem| == len && Fits(base, b, State(mem, s, d, c))
        ensures Run(base, b, State(mem, s, d, c), plan) == Steps(base, b, State(mem, s, d, c), Total(plan))
      {
        RunFollows(base, b, State(mem, s, d, c), plan);
      }
    } else {
      var r := RunBreaks(base, len, s, d, plan);
      assert r == State(r.mem, s, d, r.c);
    }
  }

  lemma LoadsFit(base: nat, b: int, r: State)
    requires Fits(base, b, r) && Room(r, 8)
    ensures Limbs(base, Loads(base, b, r))
  {
    hide Feed;
    var early := r.mem[r.s..r.s + 4];
    FeedFits(base, b, r, early, 1);
    FeedFits(base, b, r, early + Feed(base, b, r, early, 1).mem[r.s + 4..r.s + 7], 2);
  }

  lemma PieceFits(base: nat, b: int, q: State, p: Piece)
    requires Fits(base, b, q) && Room(q, Size(p))
    ensures Fits(base, b, AfterPiece(base, b, q, p))
  {
    hide Step, Feed, Loads;
    if p.Core? {
      StepFits(base, b, q);
    } else if p.Huit? {
      LoadsFit(base, b, q);
      FeedFits(base, b, q, Loads(base, b, q), 8);
    }
  }

  lemma {:induction false} RunFits(base: nat, b: int, r: State, plan: seq<Piece>)
    requires Fits(base, b, r) && Room(r, Total(plan))
    ensures Fits(base, b, Run(base, b, r, plan))
  {
    hide AfterPiece;
    if plan == [] {
    } else {
      var front := plan[..|plan| - 1];
      RunFits(base, b, r, front);
      PieceFits(base, b, Run(base, b, r, front), plan[|plan| - 1]);
    }
  }

  lemma {:induction false} FeedFirst(base: nat, b: int, r: State, src: seq<int>, n: nat)
    requires base >= 2 && Room(r, n) && 0 < n <= |src|
    ensures Feed(base, b, r, src, n).mem[r.d] == Lo(base, Sum(src[0], b, r.mem[r.d], r.c))
  {
    hide Lo, Hi, Sum;
    if n == 1 {
      FeedNothing(base, b, r, src);
    } else {
      FeedFirst(base, b, r, src, n - 1);
    }
  }

  /** The first limb of a piece is computed from what memory holds when the piece begins. */
  lemma PieceFirst(base: nat, b: int, q: State, p: Piece)
    requires base >= 2 && Room(q, Size(p)) && Size(p) > 0
    ensures AfterPiece(base, b, q, p).mem[q.d] == Lo(base, Sum(q.mem[q.s], b, q.mem[q.d], q.c))
  {
    hide Lo, Hi, Sum, Feed;
    if p.Huit? {
      FeedFirst(base, b, q, Loads(base, b, q), 8);
    }
  }

  lemma {:induction false} RunIdle(base: nat, b: int, r: State, plan: seq<Piece>, i: nat)
    requires base >= 2 && Room(r, Total(plan)) && i <= |plan| && Total(plan[..i]) == Total(plan)
    ensures Run(base, b, r, plan) == Run(base, b, r, plan[..i])
  {
    hide Step, Block;
    if i == |plan| {
      assert plan[..i] == plan;
    } else {
      var front := plan[..|plan| - 1];
      assert front[..i] == plan[..i];
      TotalMonotone(front, i);
      RunIdle(base, b, r, front, i);
    }
  }

  lemma NotAll(plan: seq<Piece>, i: nat)
    requires i <= |plan| && Total(plan[..i]) < Total(plan)
    ensures i < |plan|
  {
    assert plan[..|plan|] == plan;
  }

  /** The next piece that computes something. */
  lemma {:induction false} NextPiece(plan: seq<Piece>, i: nat) returns (j: nat)
    requires i <= |plan| && Total(plan[..i]) < Total(plan)
    ensures i <= j < |plan| && Total(plan[..j]) == Total(plan[..i]) && Size(plan[j]) > 0
    decreases |plan| - i
  {
    NotAll(plan, i);
    if Size(plan[i]) > 0 {
      j := i;
    } else {
      TotalGrows(plan, i);
      j := NextPiece(plan, i + 1);
    }
  }

  // The row equation of a plan.

  /** One to three limbs behind the source, the block loads every source limb as it was at the start. */
  lemma LoadsEarly(base: nat, b: int, r: State)
    requires base >= 2 && Room(r, 8) && r.s < r.d <= r.s + 3
    ensures Loads(base, b, r) == r.mem[r.s..r.s + 8]
  {
    hide Loads, Feed;
    forall i | 0 <= i < 8 ensures Loads(base, b, r)[i] == r.mem[r.s + i] {
      LoadMisses(base, b, r, i, r.s + i);
    }
  }

  lemma BalanceNothing(base: nat, b: int, r: State, src: seq<int>)
    requires Room(r, 0)
    ensures Balance(Pow(base, 0), Val(base, r.mem[r.d..r.d + 0]), r.c,
                    Val(base, r.mem[r.d..r.d + 0]), Val(base, src[..0]), b, r.c)
  {
  }

  /** A row fed with other limbs satisfies the equation of a row with those limbs as source. */
  lemma {:induction false} FeedBalances(base: nat, b: int, r: State, src: seq<int>, n: nat)
    requires base >= 2 && Room(r, n) && n <= |src|
    ensures var q := Feed(base, b, r, src, n);
            Balance(Pow(base, n), Val(base, q.mem[r.d..r.d + n]), q.c,
                    Val(base, r.mem[r.d..r.d + n]), Val(base, src[..n]), b, r.c)
  {
    hide Val, Pow, Balance, Lo, Hi, Sum;
    if n == 0 {
      FeedNothing(base, b, r, src);
      BalanceNothing(base, b, r, src);
    } else {
      var k := n - 1;
      var q, q' := Feed(base, b, r, src, k), Feed(base, b, r, src, n);
      FeedBalances(base, b, r, src, k);
      SumCut(base, src[k], b, r.mem[r.d + k], q.c);
      PowNext(base, k);
      assert q'.mem[r.d..r.d + k] == q.mem[r.d..r.d + k];
      ValLast(base, r.mem, r.d, k);
      ValLast(base, q'.mem, r.d, k);
      assert src[..n] == src[..k] + [src[k]];
      ValAppend(base, src[..k], src[k]);
      LastLimb(base, Pow(base, k), src[k], b, r.mem[r.d + k], q.c, q'.mem[r.d + k], q'.c,
               Val(base, src[..k]), Val(base, r.mem[r.d..r.d + k]), r.c, Val(base, q.mem[r.d..r.d + k]));
    }
  }

  lemma BlockEquation(base: nat, b: int, r: State)
    requires base >= 2 && Room(r, 8) && r.s < r.d <= r.s + 3
    ensures RowEquation(base, b, r, 8, Block(base, b, r))
  {
    hide Loads, Feed, Val, Pow, Balance;
    LoadsEarly(base, b, r);
    FeedBalances(base, b, r, Loads(base, b, r), 8);
    assert r.mem[r.s..r.s + 8] == Loads(base, b, r)[..8];
  }

  /** Where a plan multiplies the source as it was: disjoint enough for limbs one by one, or one block just behind. */
  predicate ReadsIntact(s: int, d: int, plan: seq<Piece>) {
    d <= s || s + Total(plan) <= d || (d <= s + 3 && Huit in plan && Total(plan) == 8)
  }

  lemma OnePieceIsBlock(base: nat, b: int, q: State)
    requires base >= 2 && Room(q, 8)
    ensures AfterPiece(base, b, q, Huit) == Block(base, b, q) && Steps(base, b, q, 0) == q
  {
  }

  lemma BlockInPlan(plan: seq<Piece>)
    requires Huit in plan
    ensures Total(plan) >= 8
  {
    var i := FirstHuit(plan);
    TotalGrows(plan, i);
  }

  lemma RunEquation(base: nat, b: int, r: State, plan: seq<Piece>)
    requires base >= 2 && Room(r, Total(plan)) && ReadsIntact(r.s, r.d, plan)
    ensures RowEquation(base, b, r, Total(plan), Run(base, b, r, plan))
  {
    hide Step, AfterPiece, RowEquation;
    if Huit in plan {
      BlockInPlan(plan);
    }
    if r.d <= r.s || r.s + Total(plan) <= r.d {
      RunFollows(base, b, r, plan);
      RowValue(base, b, r, Total(plan));
    } else {
      var i := FirstHuit(plan);
      TotalGrows(plan, i);
      RunFollows(base, b, r, plan[..i]);
      RunNext(base, b, r, plan, i);
      RunIdle(base, b, r, plan, i + 1);
      OnePieceIsBlock(base, b, r);
      BlockEquation(base, b, r);
    }
  }

  /** The limb that a block reads back, where some single limbs come before it. */
  lemma BlockAfterCores(base: nat, len: nat, s: int, d: int, k: nat)
    requires base >= 2 && 0 <= s < d && 0 < k <= d - s <= k + 7 && d + k + 8 <= len
    ensures var r := State(Spike(len, s), s, d, 0);
            Room(r, k) && Block(base, 1, Steps(base, 1, r, k)).mem[d + (d - s)] == 1
  {
    hide Step, Block, Loads;
    var r, off := State(Spike(len, s), s, d, 0), d - s;
    SpikeCopies(base, len, s, d, k);
    var q := Steps(base, 1, r, k);
    BlockCopies(base, q, off - k);
    LoadMisses(base, 1, q, off - k, d);
  }

  /** The limb that a block reads back when it comes first. */
  lemma BlockAtOnce(base: nat, len: nat, s: int, d: int)
    requires base >= 2 && 0 <= s && s + 4 <= d <= s + 5 && d + 8 <= len
    ensures Block(base, 1, State(Spike(len, s), s, d, 0)).mem[d + (d - s)] == 1
  {
    hide Block, Loads, Feed;
    var r, off := State(Spike(len, s), s, d, 0), d - s;
    BlockCopies(base, r, off);
    LoadMisses(base, 1, r, 0, s);
    LoadSees(base, 1, r, off);
    FeedAdds(base, r, Loads(base, 1, r), 1);
  }

  /** What a block that comes first, just behind the source, leaves for the limb after it to read back. */
  lemma BlockJustBehind(base: nat, len: nat, s: int, d: int)
    requires base >= 2 && 0 <= s < d <= s + 3 && d + 9 <= len
    ensures var q := Block(base, 1, State(Spike(len, d + (8 - 2 * (d - s))), s, d, 0));
            q.mem[s + 8] == 1 && q.mem[d + 8] == 0 && q.c == 0
  {
    hide Loads, Feed;
    var r := State(Spike(len, d + (8 - 2 * (d - s))), s, d, 0);
    LoadsEarly(base, 1, r);
    FeedAdds(base, r, Loads(base, 1, r), 8);
    var k := 8 - (d - s);
    assert Loads(base, 1, r)[k] == r.mem[s..s + 8][k] == r.mem[s + k];
    assert s + k == d + (8 - 2 * (d - s));
  }

  lemma RunNone(base: nat, b: int, r: State)
    requires base >= 2 && Room(r, 0)
    ensures Run(base, b, r, []) == r
  {
  }

  /** Where the source is not read intact: a memory on which the row equation fails, if single limbs come first. */
  lemma EquationBreaksAfterCores(base: nat, len: nat, s: int, d: int, plan: seq<Piece>, i: nat)
    requires base >= 2 && 0 <= s < d && d + Total(plan) <= len && i < |plan| && plan[i].Huit? && Huit !in plan[..i]
    requires Total(plan[..i + 1]) <= Total(plan) && 0 < Total(plan[..i]) && d - s <= 5
    ensures var r := State(Spike(len, s), s, d, 0);
            !RowEquation(base, 1, r, Total(plan), Run(base, 1, r, plan))
  {
    hide Step, Block, Run, AfterPiece, RowEquation;
    var r, off, k := State(Spike(len, s), s, d, 0), d - s, Total(plan[..i]);
    TotalGrows(plan, i);
    RunFollows(base, 1, r, plan[..i]);
    RunNext(base, 1, r, plan, i);
    if k > off {
      SpikeReadBack(base, len, s, d, k);
      RunKeeps(base, 1, r, plan, i, d + off);
    } else {
      BlockAfterCores(base, len, s, d, k);
      OnePieceIsBlock(base, 1, Steps(base, 1, r, k));
      RunKeeps(base, 1, r, plan, i + 1, d + off);
    }
    RunFits(base, 1, r, plan);
    SpikeTooMuch(base, len, s, d, Total(plan), Run(base, 1, r, plan), off);
  }

  /** The same, if a block comes first. */
  lemma EquationBreaksAtOnce(base: nat, len: nat, s: int, d: int, plan: seq<Piece>, i: nat)
    requires base >= 2 && 0 <= s && s + 4 <= d <= s + 5 && d + Total(plan) <= len && i < |plan| && plan[i].Huit?
    requires Total(plan[..i]) == 0 && Huit !in plan[..i]
    ensures var r := State(Spike(len, s), s, d, 0);
            !RowEquation(base, 1, r, Total(plan), Run(base, 1, r, plan))
  {
    hide Step, Block, Run, AfterPiece, RowEquation;
    var r, off := State(Spike(len, s), s, d, 0), d - s;
    TotalGrows(plan, i);
    RunFollows(base, 1, r, plan[..i]);
    RunNext(base, 1, r, plan, i);
    OnePieceIsBlock(base, 1, r);
    BlockAtOnce(base, len, s, d);
    RunKeeps(base, 1, r, plan, i + 1, d + off);
    RunFits(base, 1, r, plan);
    SpikeTooMuch(base, len, s, d, Total(plan), Run(base, 1, r, plan), off);
  }

  lemma Doubles(base: nat, p: nat)
    requires base >= 2
    ensures base * p >= 2 * p
  {
    ProductMonotone(2, base, p);
  }

  lemma TwoOnes(base: nat, len: nat, s: int, d: int, n: nat)
    requires base >= 2 && 0 <= s < d <= s + 3 && n > 8 && d + n <= len
    ensures var mem := Spike(len, d + (8 - 2 * (d - s)));
            Val(base, mem[d..d + n]) + Val(base, mem[s..s + n]) * 1 + 0 < Pow(base, 8)
  {
    hide Val, Pow;
    var mem, off := Spike(len, d + (8 - 2 * (d - s))), d - s;
    ValSpike(base, mem[d..d + n], 8 - 2 * off);
    ValSpike(base, mem[s..s + n], 8 - off);
    PowGrows(base, 8 - 2 * off, 7 - off);
    PowGrows(base, 8 - off, 7);
    PowGrows(base, 7 - off, 6);
    PowNext(base, 6);
    PowNext(base, 7);
    PowPositive(base, 6);
    Doubles(base, Pow(base, 6));
    Doubles(base, Pow(base, 7));
  }

  /** A block that comes first, one to three limbs behind the source, is read back by the piece after it. */
  lemma BehindReadsBack(base: nat, len: nat, s: int, d: int, plan: seq<Piece>, i: nat)
    requires base >= 2 && 0 <= s < d <= s + 3 && d + Total(plan) <= len && i < |plan| && plan[i].Huit?
    requires Total(plan[..i]) == 0 && Huit !in plan[..i] && Total(plan) > 8
    ensures var r := State(Spike(len, d + (8 - 2 * (d - s))), s, d, 0);
            Run(base, 1, r, plan).mem[d + 8] == 1
  {
    hide Step, Block, Run, AfterPiece, Lo, Hi, Sum, Spike;
    var r := State(Spike(len, d + (8 - 2 * (d - s))), s, d, 0);
    TotalGrows(plan, i);
    RunFollows(base, 1, r, plan[..i]);
    RunNext(base, 1, r, plan, i);
    OnePieceIsBlock(base, 1, r);
    BlockJustBehind(base, len, s, d);
    var j := NextPiece(plan, i + 1);
    assert plan[..j][..i + 1] == plan[..i + 1];
    TotalGrows(plan, j);
    RunIdle(base, 1, r, plan[..j], i + 1);
    RunNext(base, 1, r, plan, j);
    PieceFirst(base, 1, Run(base, 1, r, plan[..j]), plan[j]);
    AddOne(base, 1, 0);
    RunKeeps(base, 1, r, plan, j + 1, d + 8);
  }

  lemma EquationBreaksBehind(base: nat, len: nat, s: int, d: int, plan: seq<Piece>, i: nat)
    requires base >= 2 && 0 <= s < d <= s + 3 && d + Total(plan) <= len && i < |plan| && plan[i].Huit?
    requires Total(plan[..i]) == 0 && Huit !in plan[..i] && Total(plan) > 8
    ensures var r := State(Spike(len, d + (8 - 2 * (d - s))), s, d, 0);
            !RowEquation(base, 1, r, Total(plan), Run(base, 1, r, plan))
  {
    hide Run, RowEquation, Val, Pow;
    var r := State(Spike(len, d + (8 - 2 * (d - s))), s, d, 0);
    BehindReadsBack(base, len, s, d, plan, i);
    RunFits(base, 1, r, plan);
    TwoOnes(base, len, s, d, Total(plan));
    TooMuch(base, 1, r, Total(plan), Run(base, 1, r, plan), 8);
  }

  lemma EquationBreaks(base: nat, len: nat, s: int, d: int, plan: seq<Piece>) returns (r: State)
    requires base >= 2 && 0 <= s && s + Total(plan) <= len && 0 <= d && d + Total(plan) <= len
    requires !ReadsIntact(s, d, plan)
    ensures |r.mem| == len && r.s == s && r.d == d && Fits(base, 1, r)
    ensures !RowEquation(base, 1, r, Total(plan), Run(base, 1, r, plan))
  {
    hide Step, Block, Run, AfterPiece, RowEquation;
    r := State(Spike(len, s), s, d, 0);
    if Huit !in plan || s + 6 <= d {
      RunFollows(base, 1, r, plan);
      OverlapBreaksRow(base, len, s, d, Total(plan));
    } else {
      var i := FirstHuit(plan);
      TotalGrows(plan, i);
      if Total(plan[..i]) > 0 {
        EquationBreaksAfterCores(base, len, s, d, plan, i);
      } else if d - s >= 4 {
        EquationBreaksAtOnce(base, len, s, d, plan, i);
      } else {
        r := State(Spike(len, d + (8 - 2 * (d - s))), s, d, 0);
        EquationBreaksBehind(base, len, s, d, plan, i);
      }
    }
  }

  /**
   * The program of a plan satisfies the row equation, for all memories, exactly when the destination does not
   * start inside the source, or starts one to three limbs behind it and the plan is one block.
   */
  lemma RunEquationIff(base: nat, len: nat, s: int, d: int, plan: seq<Piece>)
    requires base >= 2 && 0 <= s && s + Total(plan) <= len && 0 <= d && d + Total(plan) <= len
    ensures ReadsIntact(s, d, plan)
       <==> forall mem: seq<int>, b, c | |mem| == len && Fits(base, b, State(mem, s, d, c)) ::
              RowEquation(base, b, State(mem, s, d, c), Total(plan), Run(base, b, State(mem, s, d, c), plan))
  {
    hide Run, RowEquation;
    if ReadsIntact(s, d, plan) {
      forall mem: seq<int>, b, c | |mem| == len && Fits(base, b, State(mem, s, d, c))
        ensures RowEquation(base, b, State(mem, s, d, c), Total(plan), Run(base, b, State(mem, s, d, c), plan))
      {
        RunEquation(base, b, State(mem, s, d, c), plan);
      }
    } else {
      var r := EquationBreaks(base, len, s, d, plan);
      assert r == State(r.mem, s, d, r.c);
    }
  }

  /** A whole program of blocks, single limbs and interruptions. */
  method MulAddC(base: nat, mem: array<int>, s0: int, d0: int, c0: int, b: int, plan: seq<Piece>)
      returns (c: int, d: int, s: int)
    requires Fits(base, b, State(mem[..], s0, d0, c0)) && Room(State(mem[..], s0, d0, c0), Total(plan))
    modifies mem
    ensures State(mem[..], s, d, c) == Run(base, b, State(old(mem[..]), s0, d0, c0), plan)
    ensures (Huit in plan ==> d0 <= s0 || s0 + 6 <= d0) ==>
      State(mem[..], s, d, c) == Steps(base, b, State(old(mem[..]), s0, d0, c0), Total(plan))
    ensures ReadsIntact(s0, d0, plan) ==>
      RowEquation(base, b, State(old(mem[..]), s0, d0, c0), Total(plan), State(mem[..], s, d, c))
  {
    hide Step, Block, Run, RowEquation;
    ghost var r := State(mem[..], s0, d0, c0);
    RunNone(base, b, r);
    var m := new Machine.Init(base, mem, s0, d0, c0, b);
    for i := 0 to |plan|
      invariant m.Valid() && m.base == base && m.mem == mem && m.ebx == b && fresh(m)
      invariant Total(plan[..i]) <= Total(plan)
      invariant m.View() == Run(base, b, r, plan[..i])
    {
      RunNext(base, b, r, plan, i);
      if plan[i].Core? {
        m.Core();
      } else if plan[i].Huit? {
        m.Huit();
      } else {
        var c1, d1, s1 := m.Stop();
        m := new Machine.Init(base, mem, s1, d1, c1, b);
      }
    }
    assert plan[..|plan|] == plan;
    if Huit in plan ==> d0 <= s0 || s0 + 6 <= d0 {
      RunFollows(base, b, r, plan);
    }
    if ReadsIntact(s0, d0, plan) {
      RunEquation(base, b, r, plan);
    }
    c, d, s := m.Stop();
  }
}
