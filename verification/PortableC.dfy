/** The two C programs: one multiplies into a double-width integer, the other only has single words. */
module PortableC {
  import opened Row
  import opened Words

  /** The program for compilers with a double-width type. */
  class DoubleWord {
    const base: nat
    const b: int
    const mem: array<int>
    var s: int
    var d: int
    var c: int

    ghost function View(): State
      reads this, mem
    {
      State(mem[..], s, d, c)
    }

    ghost predicate Valid()
      reads this, mem
    {
      Fits(base, b, View())
    }

    constructor Init(base: nat, mem: array<int>, s: int, d: int, c: int, b: int)
      requires Fits(base, b, State(mem[..], s, d, c))
      ensures Valid() && this.base == base && this.mem == mem && this.b == b && View() == State(mem[..], s, d, c)
    {
      this.base, this.mem, this.b := base, mem, b;
      this.s, this.d, this.c := s, d, c;
    }

    method Core()
      requires Valid() && Room(View(), 1)
      modifies this, mem
      ensures Valid() && View() == Step(base, b, old(View()))
    {
      hide Step, MulLo, MulHi, Product;
      var r0, r1 := MulLo(base, mem[s], b), MulHi(base, mem[s], b);
      ProductSplit(base, mem[s], b);
      ghost var lo, hi := r0, r1;
      s := s + 1;
      r0 := Add(base, r0, c);
      r1 := Add(base, r1, Less(r0, c));
      r0 := Add(base, r0, mem[d]);
      StepIs(base, b, old(View()), lo, hi, Less(r0, mem[d]) + (r1 - hi), r0);
      r1 := Add(base, r1, Less(r0, mem[d]));
      c := r1;
      mem[d] := r0;
      d := d + 1;
    }
  }

  /** The generic program: it rebuilds the product from the four products of half words. */
  class HalfWord {
    const h: nat
    const b: int
    const b0: int
    const b1: int
    const mem: array<int>
    var s: int
    var d: int
    var c: int

    ghost function View(): State
      reads this, mem
    {
      State(mem[..], s, d, c)
    }

    ghost predicate Valid()
      reads this, mem
    {
      h >= 2 && Fits(Word(h), b, View()) && b0 == Shr(h, Shl(h, b)) && b1 == Shr(h, b)
    }

    constructor Init(h: nat, mem: array<int>, s: int, d: int, c: int, b: int)
      requires h >= 2 && Fits(Word(h), b, State(mem[..], s, d, c))
      ensures Valid() && this.h == h && this.mem == mem && this.b == b && View() == State(mem[..], s, d, c)
    {
      this.h, this.mem, this.b := h, mem, b;
      this.s, this.d, this.c := s, d, c;
      b0 := Shr(h, Shl(h, b));
      b1 := Shr(h, b);
    }

    method Core()
      requires Valid() && Room(View(), 1)
      modifies this, mem
      ensures Valid() && View() == Step(Word(h), b, old(View()))
    {
      hide Step, Word, Shl, Shr, Mul, Product;
      var base := Word(h);
      HalfWordProduct(h, mem[s], b);
      var s0 := Shr(h, Shl(h, mem[s]));
      var s1 := Shr(h, mem[s]);
      s := s + 1;
      var rx, r0 := Mul(base, s0, b1), Mul(base, s0, b0);
      var ry, r1 := Mul(base, s1, b0), Mul(base, s1, b1);
      ghost var hi := r1 + Shr(h, rx) + Shr(h, ry);
      r1 := Add(base, r1, Shr(h, rx));
      r1 := Add(base, r1, Shr(h, ry));
      rx, ry := Shl(h, rx), Shl(h, ry);
      ghost var lo := r0 + rx + ry;
      r0 := Add(base, r0, rx);
      var w1 := Less(r0, rx);
      r1 := Add(base, r1, w1);
      r0 := Add(base, r0, ry);
      var w2 := Less(r0, ry);
      r1 := Add(base, r1, w2);
      r0 := Add(base, r0, c);
      var w3 := Less(r0, c);
      r1 := Add(base, r1, w3);
      r0 := Add(base, r0, mem[d]);
      var w4 := Less(r0, mem[d]);
      r1 := Add(base, r1, w4);
      StepIs(base, b, old(View()), lo, hi, w1 + w2 + w3 + w4, r0);
      c := r1;
      mem[d] := r0;
      d := d + 1;
    }
  }

  lemma WordIsWide(h: nat)
    requires h >= 2
    ensures Word(h) >= 2
  {
  }

  /** However often the lower word wraps, the upper word has room for every carry it is given. */
  lemma UpperWordFits(h: nat, x: int, b: int, y: int, c: int, wraps: int, out: int)
    requires h >= 2 && 0 <= x < Word(h) && 0 <= b < Word(h) && 0 <= y < Word(h) && 0 <= c < Word(h)
    requires var rx, ry := Shr(h, Shl(h, x)) * Shr(h, b), Shr(h, x) * Shr(h, Shl(h, b));
             Shr(h, Shl(h, x)) * Shr(h, Shl(h, b)) + Shl(h, rx) + Shl(h, ry) + c + y == out + Multiple(wraps, Word(h))
    requires 0 <= out < Word(h) && 0 <= wraps <= 4
    ensures var rx, ry := Shr(h, Shl(h, x)) * Shr(h, b), Shr(h, x) * Shr(h, Shl(h, b));
            && 0 <= rx < Word(h) && 0 <= ry < Word(h)
            && Shr(h, x) * Shr(h, b) + Shr(h, rx) + Shr(h, ry) + wraps < Word(h)
  {
    Halves(h, x);
    Halves(h, b);
    HalfProductFits(h, Shr(h, Shl(h, x)), Shr(h, b));
    HalfProductFits(h, Shr(h, x), Shr(h, Shl(h, b)));
    HalfProductFits(h, Shr(h, Shl(h, x)), Shr(h, Shl(h, b)));
    HalfProductFits(h, Shr(h, x), Shr(h, b));
    HalfWordProduct(h, x, b);
    WordIsWide(h);
    hide Shl, Shr, Mul, Product, Word;
    var rx, ry := Shr(h, Shl(h, x)) * Shr(h, b), Shr(h, x) * Shr(h, Shl(h, b));
    SumIs(Word(h), x, b, y, c, Shr(h, Shl(h, x)) * Shr(h, Shl(h, b)) + Shl(h, rx) + Shl(h, ry),
          Shr(h, x) * Shr(h, b) + Shr(h, rx) + Shr(h, ry), wraps, out);
    SumFits(Word(h), x, b, y, c);
  }

  /** Run side by side on equal memories, the two programs stay equal, limb for limb. */
  method SameRow(h: nat, mem: array<int>, mem': array<int>, s: int, d: int, c: int, b: int, n: nat)
      returns (fast: DoubleWord, portable: HalfWord)
    requires h >= 2 && Fits(Word(h), b, State(mem[..], s, d, c)) && Room(State(mem[..], s, d, c), n)
    requires mem != mem' && mem[..] == mem'[..]
    modifies mem, mem'
    ensures fast.mem == mem && portable.mem == mem'
    ensures fast.View() == portable.View() == Steps(Word(h), b, State(old(mem[..]), s, d, c), n)
  {
    hide Step, Word;
    ghost var r := State(mem[..], s, d, c);
    fast := new DoubleWord.Init(Word(h), mem, s, d, c, b);
    portable := new HalfWord.Init(h, mem', s, d, c, b);
    for i := 0 to n
      invariant fast.Valid() && fast.base == Word(h) && fast.b == b && fast.mem == mem
      invariant portable.Valid() && portable.h == h && portable.b == b && portable.mem == mem'
      invariant fast.View() == portable.View() == Steps(Word(h), b, r, i)
    {
      fast.Core();
      portable.Core();
    }
  }
}
