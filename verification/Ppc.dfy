/** The PowerPC programs, which leave a carry pending in the flag CA from one limb to the next. */
module Ppc {
  import opened Row
  import opened Words

  class Machine {
    const base: nat
    const mem: array<int>
    var r3: int
    var r4: int
    var r5: int
    var r6: int
    var ca: int

    /** The pointers are kept one limb back, for the loads and stores with update. */
    ghost function View(): State
      reads this, mem
    {
      State(mem[..], r3 + 1, r4 + 1, r5 + ca)
    }

    /** The logical carry is `r5 + ca`; it always fits one limb. */
    ghost predicate Valid()
      reads this, mem
    {
      0 <= r5 && 0 <= ca <= 1 && Fits(base, r6, View())
    }

    constructor Init(base: nat, mem: array<int>, s: int, d: int, c: int, b: int)
      requires Fits(base, b, State(mem[..], s, d, c))
      ensures Valid() && this.base == base && this.mem == mem && r6 == b && View() == State(mem[..], s, d, c)
    {
      this.base, this.mem := base, mem;
      r3, r4, r6 := s - 1, d - 1, b;
      r5, ca := Add(base, c, 0), Carry(base, c, 0);
    }

    method Core()
      requires Valid() && Room(View(), 1)
      modifies this, mem
      ensures Valid() && r6 == old(r6) && View() == Step(base, r6, old(View()))
    {
      hide Step, MulLo, MulHi, Product;
      ghost var old5, oldCa := r5, ca;
      r3 := r3 + 1;
      var r7 := mem[r3];
      var r8, r9 := MulLo(base, r7, r6), MulHi(base, r7, r6);
      ProductSplit(base, r7, r6);
      ghost var lo, k1 := r8, Carry(base, r8, r5, ca);
      r8, ca := Add(base, r8, r5, ca), Carry(base, r8, r5, ca);
      r7 := mem[r4 + 1];
      r5, ca := Add(base, r9, 0, ca), Carry(base, r9, 0, ca);
      r8, ca := Add(base, r8, r7), Carry(base, r8, r7);
      r4 := r4 + 1;
      StepIs(base, r6, old(View()), lo, r9, k1 + ca, r8);
      mem[r4] := r8;
    }

    method Stop() returns (c: int, d: int, s: int)
      requires Valid()
      modifies this
      ensures State(mem[..], s, d, c) == old(View())
    {
      r5, ca := Add(base, r5, 0, ca), Carry(base, r5, 0, ca);
      r4 := r4 + 1;
      r3 := r3 + 1;
      c, d, s := r5, r4, r3;
    }
  }

  /** A whole row: INIT, `n` times CORE, STOP. */
  method MulAddC(base: nat, mem: array<int>, s0: int, d0: int, c0: int, b: int, n: nat) returns (c: int, d: int, s: int)
    requires Fits(base, b, State(mem[..], s0, d0, c0)) && Room(State(mem[..], s0, d0, c0), n)
    modifies mem
    ensures State(mem[..], s, d, c) == Steps(base, b, State(old(mem[..]), s0, d0, c0), n)
    ensures d0 <= s0 || s0 + n <= d0 ==>
      RowEquation(base, b, State(old(mem[..]), s0, d0, c0), n, State(mem[..], s, d, c))
  {
    hide Step, RowEquation;
    ghost var r := State(mem[..], s0, d0, c0);
    var m := new Machine.Init(base, mem, s0, d0, c0, b);
    for i := 0 to n
      invariant m.Valid() && m.base == base && m.mem == mem && m.r6 == b
      invariant m.View() == Steps(base, b, r, i)
    {
      m.Core();
    }
    if d0 <= s0 || s0 + n <= d0 {
      RowValue(base, b, r, n);
    }
    c, d, s := m.Stop();
  }
}
