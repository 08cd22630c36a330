/** The ARM program, which the board's configuration selects, and the Thumb-1 program. */
module Arm {
  import opened Row
  import opened Words

  class Machine {
    const base: nat
    const mem: array<int>
    var r0: int
    var r1: int
    var r2: int
    var r3: int

    ghost function View(): State
      reads this, mem
    {
      State(mem[..], r0, r1, r2)
    }

    ghost predicate Valid()
      reads this, mem
    {
      Fits(base, r3, View())
    }

    constructor Init(base: nat, mem: array<int>, s: int, d: int, c: int, b: int)
      requires Fits(base, b, State(mem[..], s, d, c))
      ensures Valid() && this.base == base && this.mem == mem && r3 == b && View() == State(mem[..], s, d, c)
    {
      this.base, this.mem := base, mem;
      r0, r1, r2, r3 := s, d, c, b;
    }

    method Core()
      requires Valid() && Room(View(), 1)
      modifies this, mem
      ensures Valid() && r3 == old(r3) && View() == Step(base, r3, old(View()))
    {
      hide Step, MulLo, MulHi, Product;
      var r4 := mem[r0];
      r0 := r0 + 1;
      var r5 := 0;
      var r6 := mem[r1];
      ProductAddSplit(base, r4, r3, r2);
      ghost var lo := MulLo(base, r4, r3, r2) - r2;
      // umlal adds the product to the double word r5:r2
      r2, r5 := MulLo(base, r4, r3, r2), Add(base, r5, MulHi(base, r4, r3, r2));
      var r7, cf := Add(base, r6, r2), Carry(base, r6, r2);
      StepIs(base, r3, old(View()), lo, r5, cf, r7);
      r2 := Add(base, r5, 0, cf);
      mem[r1] := r7;
      r1 := r1 + 1;
    }

    method Stop() returns (c: int, d: int, s: int)
      ensures State(mem[..], s, d, c) == View()
    {
      c, d, s := r2, r1, r0;
    }
  }

  /** A whole row: INIT, `n` times CORE, STOP. */
  method MulAddC(base: nat, mem: array<int>, s0: int, d0: int, c0: int, b: int, n: nat) returns (c: int, d: int, s: int)
    requires Fits(base, b, State(mem[..], s0, d0, c0)) && Room(State(mem[..], s0, d0, c0), n)
    modifies mem
    ensures State(mem[..], s, d, c) == Steps(base, b, State(old(mem[..]), s0, d0, c0), n)
    ensures d0 <= s0 || s0 + n <= d0 ==>
      RowEquation(base, b, State(old(mem[..]), s0, d0, c0), n, State(mem[..], s, d, c))
  {
    hide Step, RowEquation;
    ghost var r := State(mem[..], s0, d0, c0);
    var m := new Machine.Init(base, mem, s0, d0, c0, b);
    for i := 0 to n
      invariant m.Valid() && m.base == base && m.mem == mem && m.r3 == b
      invariant m.View() == Steps(base, b, r, i)
    {
      m.Core();
    }
    if d0 <= s0 || s0 + n <= d0 {
      RowValue(base, b, r, n);
    }
    c, d, s := m.Stop();
  }

  /**
   * Thumb-1 has no long multiplication, and its shifts and multiplications touch the carry. Moving a constant
   * leaves the carry alone, and the program relies on that between an addition and the next.
   */
  class Thumb {
    const h: nat
    const mem: array<int>
    ghost const b: int
    var r0: int
    var r1: int
    var r2: int
    var r8: int
    var r9: int

    ghost function View(): State
      reads this, mem
    {
      State(mem[..], r0, r1, r2)
    }

    ghost predicate Valid()
      reads this, mem
    {
      h >= 2 && Fits(Word(h), b, View()) && r8 == Shr(h, Shl(h, b)) && r9 == Shr(h, b)
    }

    constructor Init(h: nat, mem: array<int>, s: int, d: int, c: int, b: int)
      requires h >= 2 && Fits(Word(h), b, State(mem[..], s, d, c))
      ensures Valid() && this.h == h && this.mem == mem && this.b == b && View() == State(mem[..], s, d, c)
    {
      this.h, this.mem, this.b := h, mem, b;
      r0, r1, r2 := s, d, c;
      var r3 := b;
      var r7 := Shr(h, r3);
      r9 := r7;
      r7 := Shl(h, r3);
      r7 := Shr(h, r7);
      r8 := r7;
    }

    method Core()
      requires Valid() && Room(View(), 1)
      modifies this, mem
      ensures Valid() && View() == Step(Word(h), b, old(View()))
    {
      hide Step, Word, Shl, Shr, Mul, Product;
      var base := Word(h);
      HalfWordProduct(h, mem[r0], b);
      var cf: int;
      var r6 := mem[r0];
      r0 := r0 + 1;
      var r7 := Shr(h, r6);
      r6 := Shl(h, r6);
      r6 := Shr(h, r6);
      var r4 := r8;
      r4 := Mul(base, r4, r6);
      var r3 := r9;
      r6 := Mul(base, r6, r3);
      var r5 := r9;
      r5 := Mul(base, r5, r7);
      r3 := r8;
      r7 := Mul(base, r7, r3);
      cf := *;
      MulCommutes(base, r8, Shr(h, Shl(h, old(mem[r0]))));
      MulCommutes(base, r9, Shr(h, old(mem[r0])));
      ghost var lo, hi := r4 + Shl(h, r6) + Shl(h, r7), r5 + Shr(h, r6) + Shr(h, r7);
      r3 := Shr(h, r6);
      cf := *;
      r5, cf := Add(base, r5, r3), Carry(base, r5, r3);
      r3 := Shr(h, r7);
      cf := *;
      r5, cf := Add(base, r5, r3), Carry(base, r5, r3);
      r4, cf := Add(base, r4, r2), Carry(base, r4, r2);
      ghost var w1 := cf;
      r2 := 0; // leaves the carry alone
      r5, cf := Add(base, r5, r2, cf), Carry(base, r5, r2, cf);
      r3 := Shl(h, r6);
      cf := *;
      r4, cf := Add(base, r4, r3), Carry(base, r4, r3);
      ghost var w2 := cf;
      r5, cf := Add(base, r5, r2, cf), Carry(base, r5, r2, cf);
      r3 := Shl(h, r7);
      cf := *;
      r4, cf := Add(base, r4, r3), Carry(base, r4, r3);
      ghost var w3 := cf;
      r5, cf := Add(base, r5, r2, cf), Carry(base, r5, r2, cf);
      r3 := mem[r1];
      r4, cf := Add(base, r4, r3), Carry(base, r4, r3);
      StepIs(base, b, old(View()), lo, hi, w1 + w2 + w3 + cf, r4);
      r2, cf := Add(base, r2, r5, cf), Carry(base, r2, r5, cf);
      mem[r1] := r4;
      r1 := r1 + 1;
    }

    method Stop() returns (c: int, d: int, s: int)
      ensures State(mem[..], s, d, c) == View()
    {
      c, d, s := r2, r1, r0;
    }
  }

  /** A whole row of the Thumb-1 program. */
  method ThumbMulAddC(h: nat, mem: array<int>, s0: int, d0: int, c0: int, b: int, n: nat)
      returns (c: int, d: int, s: int)
    requires h >= 2 && Fits(Word(h), b, State(mem[..], s0, d0, c0)) && Room(State(mem[..], s0, d0, c0), n)
    modifies mem
    ensures State(mem[..], s, d, c) == Steps(Word(h), b, State(old(mem[..]), s0, d0, c0), n)
    ensures d0 <= s0 || s0 + n <= d0 ==>
      RowEquation(Word(h), b, State(old(mem[..]), s0, d0, c0), n, State(mem[..], s, d, c))
  {
    hide Step, RowEquation, Word;
    ghost var r := State(mem[..], s0, d0, c0);
    var m := new Thumb.Init(h, mem, s0, d0, c0, b);
    for i := 0 to n
      invariant m.Valid() && m.h == h && m.mem == mem && m.b == b
      invariant m.View() == Steps(Word(h), b, r, i)
    {
      m.Core();
    }
    if d0 <= s0 || s0 + n <= d0 {
      RowValue(Word(h), b, r, n);
    }
    c, d, s := m.Stop();
  }
}
