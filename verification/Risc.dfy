/** The MIPS and Alpha programs: no flags, every carry is recovered by a comparison. */
module Risc {
  import opened Row
  import opened Words

  class Mips {
    const base: nat
    const mem: array<int>
    var r10: int
    var r11: int
    var r12: int
    var r13: int

    ghost function View(): State
      reads this, mem
    {
      State(mem[..], r10, r11, r12)
    }

    ghost predicate Valid()
      reads this, mem
    {
      Fits(base, r13, View())
    }

    constructor Init(base: nat, mem: array<int>, s: int, d: int, c: int, b: int)
      requires Fits(base, b, State(mem[..], s, d, c))
      ensures Valid() && this.base == base && this.mem == mem && r13 == b && View() == State(mem[..], s, d, c)
    {
      this.base, this.mem := base, mem;
      r10, r11, r12, r13 := s, d, c, b;
    }

    method Core()
      requires Valid() && Room(View(), 1)
      modifies this, mem
      ensures Valid() && r13 == old(r13) && View() == Step(base, r13, old(View()))
    {
      hide Step, MulLo, MulHi, Product;
      var r14 := mem[r10];
      ProductSplit(base, r14, r13);
      var lo, hi := MulLo(base, r14, r13), MulHi(base, r14, r13);
      r10 := r10 + 1;
      r14 := lo;
      var r9 := hi;
      r14 := Add(base, r12, r14);
      var r15 := mem[r11];
      r12 := Less(r14, r12);
      r15 := Add(base, r14, r15);
      r14 := Less(r15, r14);
      StepIs(base, r13, old(View()), lo, hi, r12 + r14, r15);
      r12 := Add(base, r12, r9);
      mem[r11] := r15;
      r12 := Add(base, r12, r14);
      r11 := r11 + 1;
    }

    method Stop() returns (c: int, d: int, s: int)
      ensures State(mem[..], s, d, c) == View()
    {
      c, d, s := r12, r11, r10;
    }
  }

  class Alpha {
    const base: nat
    const mem: array<int>
    var r1: int
    var r2: int
    var r3: int
    var r4: int

    ghost function View(): State
      reads this, mem
    {
      State(mem[..], r1, r2, r3)
    }

    ghost predicate Valid()
      reads this, mem
    {
      Fits(base, r4, View())
    }

    constructor Init(base: nat, mem: array<int>, s: int, d: int, c: int, b: int)
      requires Fits(base, b, State(mem[..], s, d, c))
      ensures Valid() && this.base == base && this.mem == mem && r4 == b && View() == State(mem[..], s, d, c)
    {
      this.base, this.mem := base, mem;
      r1, r2, r3, r4 := s, d, c, b;
    }

    method Core()
      requires Valid() && Room(View(), 1)
      modifies this, mem
      ensures Valid() && r4 == old(r4) && View() == Step(base, r4, old(View()))
    {
      hide Step, MulLo, MulHi, Product;
      var r6 := mem[r1];
      ProductSplit(base, r6, r4);
      r1 := r1 + 1;
      var r7 := MulLo(base, r6, r4);
      r6 := MulHi(base, r6, r4);
      ghost var lo := r7;
      r7 := Add(base, r7, r3);
      r3 := Less(r7, r3);
      var r5 := mem[r2];
      r7 := Add(base, r7, r5);
      r5 := Less(r7, r5);
      StepIs(base, r4, old(View()), lo, r6, r3 + r5, r7);
      mem[r2] := r7;
      r2 := r2 + 1;
      r3 := Add(base, r6, r3);
      r3 := Add(base, r5, r3);
    }

    method Stop() returns (c: int, d: int, s: int)
      ensures State(mem[..], s, d, c) == View()
    {
      c, d, s := r3, r2, r1;
    }
  }

  /** A whole row of the MIPS program: INIT, `n` times CORE, STOP. */
  method MipsMulAddC(base: nat, mem: array<int>, s0: int, d0: int, c0: int, b: int, n: nat)
      returns (c: int, d: int, s: int)
    requires Fits(base, b, State(mem[..], s0, d0, c0)) && Room(State(mem[..], s0, d0, c0), n)
    modifies mem
    ensures State(mem[..], s, d, c) == Steps(base, b, State(old(mem[..]), s0, d0, c0), n)
    ensures d0 <= s0 || s0 + n <= d0 ==>
      RowEquation(base, b, State(old(mem[..]), s0, d0, c0), n, State(mem[..], s, d, c))
  {
    hide Step, RowEquation;
    ghost var r := State(mem[..], s0, d0, c0);
    var m := new Mips.Init(base, mem, s0, d0, c0, b);
    for i := 0 to n
      invariant m.Valid() && m.base == base && m.mem == mem && m.r13 == b
      invariant m.View() == Steps(base, b, r, i)
    {
      m.Core();
    }
    if d0 <= s0 || s0 + n <= d0 {
      RowValue(base, b, r, n);
    }
    c, d, s := m.Stop();
  }

  /** A whole row of the Alpha program. */
  method AlphaMulAddC(base: nat, mem: array<int>, s0: int, d0: int, c0: int, b: int, n: nat)
      returns (c: int, d: int, s: int)
    requires Fits(base, b, State(mem[..], s0, d0, c0)) && Room(State(mem[..], s0, d0, c0), n)
    modifies mem
    ensures State(mem[..], s, d, c) == Steps(base, b, State(old(mem[..]), s0, d0, c0), n)
    ensures d0 <= s0 || s0 + n <= d0 ==>
      RowEquation(base, b, State(old(mem[..]), s0, d0, c0), n, State(mem[..], s, d, c))
  {
    hide Step, RowEquation;
    ghost var r := State(mem[..], s0, d0, c0);
    var m := new Alpha.Init(base, mem, s0, d0, c0, b);
    for i := 0 to n
      invariant m.Valid() && m.base == base && m.mem == mem && m.r4 == b
      invariant m.View() == Steps(base, b, r, i)
    {
      m.Core();
    }
    if d0 <= s0 || s0 + n <= d0 {
      RowValue(base, b, r, n);
    }
    c, d, s := m.Stop();
  }
}
