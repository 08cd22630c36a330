/** Machine words below an arbitrary base: the instructions the programs are made of. */
module Words {
  import opened Arithmetic
  import opened Row

  /** Addition that wraps around. */
  function Add(base: nat, x: int, y: int, carry: int := 0): int {
    if x + y + carry < base then x + y + carry else x + y + carry - base
  }

  /** The carry out of that addition. */
  function Carry(base: nat, x: int, y: int, carry: int := 0): int {
    if x + y + carry < base then 0 else 1
  }

  /** The result of a comparison, as C and the set-if-less-than instructions deliver it. */
  function Less(x: int, y: int): int {
    if x < y then 1 else 0
  }

  lemma AddIsModular(base: nat, x: int, y: int, carry: int)
    requires 0 <= x < base && 0 <= y < base && 0 <= carry <= 1
    ensures Add(base, x, y, carry) == (x + y + carry) % base && Carry(base, x, y, carry) == (x + y + carry) / base
  {
    DivModIs(x + y + carry, base, Carry(base, x, y, carry), Add(base, x, y, carry));
  }

  /** An addition keeps the sum modulo the base, and wrapped exactly when its result is below either operand. */
  lemma WrapCaught(base: nat, x: int, y: int)
    requires 0 <= x < base && 0 <= y < base
    ensures Add(base, x, y) == (x + y) % base
    ensures Less(Add(base, x, y), y) == Less(Add(base, x, y), x) == (x + y) / base
  {
    AddIsModular(base, x, y, 0);
  }

  /** The two halves of a product, possibly with an addend. */
  function MulLo(base: nat, x: int, y: int, a: int := 0): int
    requires base > 0
  {
    (x * y + a) % base
  }

  function MulHi(base: nat, x: int, y: int, a: int := 0): int
    requires base > 0
  {
    (x * y + a) / base
  }

  /** `x * y` is cut into `lo` and `hi`. */
  ghost predicate Product(base: nat, x: int, y: int, lo: int, hi: int) {
    x * y == lo + base * hi
  }

  lemma ProductSmall(base: int, x: int, y: int)
    requires base >= 2 && 0 <= x < base && 0 <= y < base
    ensures 0 <= x * y < base * (base - 1)
  {
    ProductMonotone(0, x, y);
    ProductMonotone(x, base - 1, y);
    ProductMonotone(y, base - 1, base - 1);
    Distributes(base, -1, base - 1);
  }

  /** The upper half of a product is at most `base - 2`, so that it takes a carry without wrapping. */
  lemma ProductSplit(base: nat, x: int, y: int)
    requires base >= 2 && 0 <= x < base && 0 <= y < base
    ensures Product(base, x, y, MulLo(base, x, y), MulHi(base, x, y))
    ensures 0 <= MulLo(base, x, y) < base && 0 <= MulHi(base, x, y) <= base - 2
  {
    ProductSmall(base, x, y);
    QuotientBelow(base, base - 1, x * y);
  }

  /** An addend below the base still leaves a product two limbs wide. */
  lemma ProductAddSplit(base: nat, x: int, y: int, a: int)
    requires base >= 2 && 0 <= x < base && 0 <= y < base && 0 <= a < base
    ensures Product(base, x, y, MulLo(base, x, y, a) - a, MulHi(base, x, y, a))
    ensures 0 <= MulLo(base, x, y, a) < base && 0 <= MulHi(base, x, y, a) < base
  {
    SumFits(base, x, y, a, 0);
  }

  function Multiple(k: int, base: int): int {
    if k == 0 then 0 else if k == 1 then base else if k == 2 then 2 * base else if k == 3 then 3 * base else 4 * base
  }

  lemma SumIs(base: nat, x: int, b: int, y: int, c: int, lo: int, hi: int, k: int, out: int)
    requires base > 0 && Product(base, x, b, lo, hi) && 0 <= k <= 4
    requires lo + y + c == out + Multiple(k, base) && 0 <= out < base
    ensures Lo(base, Sum(x, b, y, c)) == out && Hi(base, Sum(x, b, y, c)) == hi + k
  {
    Distributes(hi, k, base);
    assert Multiple(k, base) == base * k;
    DivModIs(Sum(x, b, y, c), base, hi + k, out);
  }

  /** A limb and a carry that make up the sum of a step, after `k` wraps, are what the step computes. */
  lemma StepIs(base: nat, b: int, r: State, lo: int, hi: int, k: int, out: int)
    requires Fits(base, b, r) && Room(r, 1)
    requires Product(base, r.mem[r.s], b, lo, hi) && 0 <= k <= 4
    requires lo + r.mem[r.d] + r.c == out + Multiple(k, base) && 0 <= out < base
    ensures hi + k < base
    ensures Step(base, b, r) == State(r.mem[r.d := out], r.s + 1, r.d + 1, hi + k)
  {
    hide Lo, Hi, Sum, Product;
    SumIs(base, r.mem[r.s], b, r.mem[r.d], r.c, lo, hi, k, out);
    SumFits(base, r.mem[r.s], b, r.mem[r.d], r.c);
  }

  // Half words: the base is the square of `h`.

  /** The base of words with halves below `h`. */
  function Word(h: nat): nat {
    h * h
  }

  /** Shift left by half a word. */
  function Shl(h: nat, x: int): int
    requires h > 0
  {
    (x * h) % (h * h)
  }

  /** Shift right by half a word. */
  function Shr(h: nat, x: int): int
    requires h > 0
  {
    x / h
  }

  /** The lower half of a word, cut out with a mask. */
  function Low(h: nat, x: int): int
    requires h > 0
  {
    x % h
  }

  /** Multiplication that keeps one word. */
  function Mul(base: nat, x: int, y: int): int
    requires base > 0
  {
    (x * y) % base
  }

  lemma MulCommutes(base: nat, x: int, y: int)
    requires base > 0
    ensures Mul(base, x, y) == Mul(base, y, x)
  {
  }

  lemma HalvesUnshifted(h: nat, x: int) returns (lo: int, hi: int)
    requires h >= 2 && 0 <= x < h * h
    ensures 0 <= lo < h && 0 <= hi < h && x == lo + h * hi && Low(h, x) == lo && Shr(h, x) == hi
  {
    lo, hi := x % h, x / h;
    QuotientBelow(h, h, x);
  }

  lemma HalvesShifted(h: nat, x: int, lo: int, hi: int)
    requires h >= 2 && 0 <= lo < h && x == lo + h * hi
    ensures Shl(h, x) == h * lo < h * h && Shr(h, Shl(h, x)) == lo
  {
    ProductMonotone(lo, h - 1, h);
    ProductMonotone(0, lo, h);
    Distributes(h, -1, h);
    Distributes(h * hi, lo, h);
    Associates(h, hi, h);
    Associates(h, h, hi);
    DivModIs((lo + h * hi) * h, h * h, hi, h * lo);
    DivModIs(h * lo, h, lo, 0);
  }

  /** Shifting right takes the upper half; shifting left and back takes the lower half. */
  lemma Halves(h: nat, x: int)
    requires h >= 2 && 0 <= x < Word(h)
    ensures 0 <= Shr(h, x) < h && 0 <= Shr(h, Shl(h, x)) == Low(h, x) < h
    ensures x == Shr(h, Shl(h, x)) + h * Shr(h, x)
    ensures Shl(h, x) == h * Shr(h, Shl(h, x)) < Word(h)
  {
    hide Shl, Shr, Low;
    var lo, hi := HalvesUnshifted(h, x);
    HalvesShifted(h, x, lo, hi);
  }

  /** The product of two half words fits a word. */
  lemma HalfProductFits(h: nat, x: int, y: int)
    requires h >= 2 && 0 <= x < h && 0 <= y < h
    ensures 0 <= Mul(h * h, x, y) == x * y < h * h
  {
    ProductMonotone(0, x, y);
    ProductMonotone(x, h, y);
    ProductMonotone(y, h - 1, h);
    Distributes(h, -1, h);
    DivModIs(x * y, h * h, 0, x * y);
  }

  /** A product rebuilt from four products of halves, the middle two split over both words. */
  lemma ProductOfHalves(h: nat, x0: int, x1: int, y0: int, y1: int, mx: int, nx: int, my: int, ny: int)
    requires x0 * y1 == mx + h * nx && x1 * y0 == my + h * ny
    ensures Product(h * h, x0 + h * x1, y0 + h * y1, x0 * y0 + h * mx + h * my, x1 * y1 + nx + ny)
  {
    Distributes(x0, h * x1, y0 + h * y1);
    Distributes(y0, h * y1, x0);
    Distributes(y0, h * y1, h * x1);
    Associates(x0, h, y1);
    Associates(h, x1, y0);
    Distributes(mx, h * nx, h);
    Distributes(my, h * ny, h);
    Associates(h, h, nx);
    Associates(h, h, ny);
    Associates(h, x1, h * y1);
    Associates(x1, h, y1);
    Associates(h, h, x1 * y1);
    Distributes(x1 * y1 + nx, ny, h * h);
    Distributes(x1 * y1, nx, h * h);
  }

  /** What a half-word program has at hand once it has its four products. */
  lemma HalfWordProduct(h: nat, x: int, y: int)
    requires h >= 2 && 0 <= x < Word(h) && 0 <= y < Word(h)
    ensures
      var base := Word(h);
      var x0, x1, y0, y1 := Shr(h, Shl(h, x)), Shr(h, x), Shr(h, Shl(h, y)), Shr(h, y);
      var rx, ry := Mul(base, x0, y1), Mul(base, x1, y0);
      && 0 <= Mul(base, x0, y0) < base && 0 <= Mul(base, x1, y1) < base
      && 0 <= Shl(h, rx) < base && 0 <= Shl(h, ry) < base && 0 <= Shr(h, rx) < h && 0 <= Shr(h, ry) < h
      && Product(base, x, y, Mul(base, x0, y0) + Shl(h, rx) + Shl(h, ry), Mul(base, x1, y1) + Shr(h, rx) + Shr(h, ry))
      && 0 <= rx < base && 0 <= ry < base
  {
    hide Shl, Shr, Mul, Product;
    Halves(h, x);
    Halves(h, y);
    var base := Word(h);
    var x0, x1, y0, y1 := Shr(h, Shl(h, x)), Shr(h, x), Shr(h, Shl(h, y)), Shr(h, y);
    HalfProductFits(h, x0, y0);
    HalfProductFits(h, x0, y1);
    HalfProductFits(h, x1, y0);
    HalfProductFits(h, x1, y1);
    var rx, ry := Mul(base, x0, y1), Mul(base, x1, y0);
    Halves(h, rx);
    Halves(h, ry);
    ProductOfHalves(h, x0, x1, y0, y1, Shr(h, Shl(h, rx)), Shr(h, rx), Shr(h, Shl(h, ry)), Shr(h, ry));
  }
}
