/** The MicroBlaze program: it loads the source in half words, and the machine is big-endian. */
module MicroBlaze {
  import opened Row
  import opened Words

  class Machine {
    const h: nat
    const mem: array<int>
    ghost const b: int
    /** The source pointer, counted in half words; `s` is the limb it points to. */
    var r3: int
    ghost var s: int
    var r4: int
    var r5: int
    var r6: int
    var r7: int

    ghost function View(): State
      reads this, mem
    {
      State(mem[..], s, r4, r5)
    }

    ghost predicate Valid()
      reads this, mem
    {
      h >= 2 && Fits(Word(h), b, View()) && r3 == 2 * s && r6 == Shr(h, b) && r7 == Low(h, b)
    }

    constructor Init(h: nat, mem: array<int>, s: int, d: int, c: int, b: int)
      requires h >= 2 && Fits(Word(h), b, State(mem[..], s, d, c))
      ensures Valid() && this.h == h && this.mem == mem && this.b == b && View() == State(mem[..], s, d, c)
    {
      this.h, this.mem, this.b := h, mem, b;
      r3, r4, r5 := 2 * s, d, c;
      this.s := s;
      r7 := Low(h, b);
      r6 := Shr(h, b);
    }

    /** The upper half of a word comes first. */
    function LoadHalf(address: int): int
      requires h > 0 && 0 <= address / 2 < mem.Length
      reads mem
    {
      if address % 2 == 0 then Shr(h, mem[address / 2]) else Low(h, mem[address / 2])
    }

    lemma LoadHalves(s: int)
      requires h > 0 && 0 <= s < mem.Length
      ensures LoadHalf(2 * s) == Shr(h, mem[s]) && LoadHalf(2 * s + 1) == Low(h, mem[s])
    {
    }

    method Core()
      requires Valid() && Room(View(), 1)
      modifies this, mem
      ensures Valid() && View() == Step(Word(h), b, old(View()))
    {
      hide Step, Word, Shl, Shr, Mul, Low, Product, LoadHalf;
      var base := Word(h);
      ghost var x := mem[s];
      Halves(h, x);
      Halves(h, b);
      HalfWordProduct(h, x, b);
      LoadHalves(s);
      var r8 := LoadHalf(r3);
      r3 := r3 + 1;
      var r9 := LoadHalf(r3);
      r3 := r3 + 1;
      s := s + 1;
      var r10 := Mul(base, r9, r6);
      var r11 := Mul(base, r8, r7);
      var r12 := Mul(base, r9, r7);
      var r13 := Mul(base, r8, r6);
      ghost var lo, hi := r12 + Shl(h, r10) + Shl(h, r11), r13 + Shr(h, r10) + Shr(h, r11);
      r8 := Shr(h, r10);
      r9 := Shr(h, r11);
      var cf: int;
      r13, cf := Add(base, r13, r8), Carry(base, r13, r8);
      r13, cf := Add(base, r13, r9), Carry(base, r13, r9);
      r10 := Shl(h, r10);
      r11 := Shl(h, r11);
      r12, cf := Add(base, r12, r10), Carry(base, r12, r10);
      ghost var w1 := cf;
      r13, cf := Add(base, r13, 0, cf), Carry(base, r13, 0, cf);
      r12, cf := Add(base, r12, r11), Carry(base, r12, r11);
      ghost var w2 := cf;
      r13, cf := Add(base, r13, 0, cf), Carry(base, r13, 0, cf);
      r10 := mem[r4];
      r12, cf := Add(base, r12, r10), Carry(base, r12, r10);
      ghost var w3 := cf;
      r13, cf := Add(base, r13, 0, cf), Carry(base, r13, 0, cf);
      r12, cf := Add(base, r12, r5), Carry(base, r12, r5);
      StepIs(base, b, old(View()), lo, hi, w1 + w2 + w3 + cf, r12);
      r5, cf := Add(base, r13, 0, cf), Carry(base, r13, 0, cf);
      mem[r4] := r12;
      r4 := r4 + 1;
    }

    method Stop() returns (c: int, d: int, s: int)
      requires Valid()
      ensures State(mem[..], s, d, c) == View()
    {
      c, d, s := r5, r4, r3 / 2;
    }
  }

  /** A whole row: INIT, `n` times CORE, STOP. */
  method MulAddC(h: nat, mem: array<int>, s0: int, d0: int, c0: int, b: int, n: nat)
      returns (c: int, d: int, s: int)
    requires h >= 2 && Fits(Word(h), b, State(mem[..], s0, d0, c0)) && Room(State(mem[..], s0, d0, c0), n)
    modifies mem
    ensures State(mem[..], s, d, c) == Steps(Word(h), b, State(old(mem[..]), s0, d0, c0), n)
    ensures d0 <= s0 || s0 + n <= d0 ==>
      RowEquation(Word(h), b, State(old(mem[..]), s0, d0, c0), n, State(mem[..], s, d, c))
  {
    hide Step, RowEquation, Word;
    ghost var r := State(mem[..], s0, d0, c0);
    var m := new Machine.Init(h, mem, s0, d0, c0, b);
    for i := 0 to n
      invariant m.Valid() && m.h == h && m.mem == mem && m.b == b
      invariant m.View() == Steps(Word(h), b, r, i)
    {
      m.Core();
    }
    if d0 <= s0 || s0 + n <= d0 {
      RowValue(Word(h), b, r, n);
    }
    c, d, s := m.Stop();
  }
}
