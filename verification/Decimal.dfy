/** Numbers as digits, and the space they take in text buffers. */
module Decimal {
  import opened Arithmetic
  import opened Numerals

  /** The digits of `x`, least significant first; zero has one digit. */
  function Digits(x: nat, radix: nat): seq<int>
    requires radix >= 2
  {
    if x < radix then [x] else [x % radix] + Digits(x / radix, radix)
  }

  /** The last digit and the rest of a number that has more than one. */
  lemma DigitsCut(x: nat, radix: nat) returns (rest: nat, last: nat)
    requires radix >= 2 && x >= radix
    ensures x == last + radix * rest && last < radix && 1 <= rest < x
    ensures Digits(x, radix) == [last] + Digits(rest, radix)
  {
    rest, last := x / radix, x % radix;
  }

  /** The digits denote the number. */
  lemma {:induction false} DigitsVal(x: nat, radix: nat)
    requires radix >= 2
    ensures Limbs(radix, Digits(x, radix)) && Val(radix, Digits(x, radix)) == x
  {
    if x < radix {
      ValCons(radix, x, []);
      assert [x] + [] == [x];
    } else {
      hide Digits, Val;
      var rest, last := DigitsCut(x, radix);
      DigitsVal(rest, radix);
      ValCons(radix, last, Digits(rest, radix));
    }
  }

  lemma SomeDigit(x: nat, radix: nat)
    requires radix >= 2
    ensures |Digits(x, radix)| >= 1
  {
  }

  lemma PrefixBelow(radix: nat, rest: nat, last: nat, p: nat)
    requires last < radix
    ensures rest < p <==> last + radix * rest < radix * p
  {
    if rest < p {
      ProductMonotone(rest, p - 1, radix);
      Distributes(p, -1, radix);
    } else {
      ProductMonotone(p, rest, radix);
    }
  }

  /** A number has at most `k` digits exactly if it is below the `k`-th power of the radix. */
  lemma {:induction false} DigitsFit(x: nat, radix: nat, k: nat)
    requires radix >= 2 && k >= 1
    ensures |Digits(x, radix)| <= k <==> x < Pow(radix, k)
  {
    PowPositive(radix, k - 1);
    PowNext(radix, k - 1);
    if x < radix {
      ProductMonotone(1, Pow(radix, k - 1), radix);
    } else if k == 1 {
      hide Digits;
      var rest, last := DigitsCut(x, radix);
      SomeDigit(rest, radix);
      PowZero(radix);
    } else {
      hide Digits, Pow;
      var rest, last := DigitsCut(x, radix);
      DigitsFit(rest, radix, k - 1);
      PrefixBelow(radix, rest, last, Pow(radix, k - 1));
    }
  }

  lemma PowNonNegative(a: nat, n: nat)
    ensures Pow(a, n) >= 0
  {
  }

  lemma ProductsCompare(a: nat, b: nat, p: nat, q: nat)
    ensures a <= b && p <= q ==> a * p <= b * q
    ensures a < b && p <= q && q > 0 ==> a * p < b * q
  {
    if p <= q {
      ProductMonotone(p, q, a);
    }
    if a <= b {
      ProductMonotone(a, b, q);
    }
    if a < b {
      ProductMonotone(a + 1, b, q);
      Distributes(a, 1, q);
    }
  }

  // The buffer for reading and writing numbers as text.

  lemma {:induction false} PowMonotone(a: nat, b: nat, n: nat)
    ensures a <= b ==> Pow(a, n) <= Pow(b, n)
    ensures a < b && n > 0 ==> Pow(a, n) < Pow(b, n)
  {
    if n == 0 {
    } else {
      PowMonotone(a, b, n - 1);
      PowNonNegative(a, n - 1);
      PowNext(a, n - 1);
      PowNext(b, n - 1);
      hide Pow;
      ProductsCompare(a, b, Pow(a, n - 1), Pow(b, n - 1));
      if a < b {
        PowPositive(b, n - 1);
      }
    }
  }

  lemma {:induction false} PowMultiplies(a: nat, m: nat, n: nat)
    ensures 0 <= m * n && Pow(Pow(a, m), n) == Pow(a, m * n)
  {
    ProductMonotone(0, m, n);
    if n == 0 {
      PowZero(Pow(a, m));
      PowZero(a);
    } else {
      PowMultiplies(a, m, n - 1);
      Distributes(n, -1, m);
      PowAdds(a, m, m * (n - 1));
      PowNext(Pow(a, m), n - 1);
    }
  }

  lemma Pow2To20()
    ensures Pow(2, 20) == 1048576 && Pow(2, 3) == 8
  {
    PowAdds(2, 5, 5);
    PowAdds(2, 10, 10);
    assert Pow(2, 5) == 32 by {
      assert Pow(2, 3) == 8;
    }
  }

  lemma Pow10To10()
    ensures Pow(10, 10) == 10000000000 && Pow(10, 5) == 100000
  {
    PowAdds(10, 5, 5);
    assert Pow(10, 5) == 100000 by {
      assert Pow(10, 3) == 1000;
    }
  }

  /** The constant 332 / 100 stands for the bits of a decimal digit: 2^83 is just below 10^25. */
  lemma BitsOfDigits()
    ensures Pow(2, 83) < Pow(10, 25)
  {
    PowAdds(2, 20, 20);
    PowAdds(2, 40, 40);
    PowAdds(2, 80, 3);
    PowAdds(10, 10, 10);
    PowAdds(10, 20, 5);
    Pow2To20();
    Pow10To10();
  }

  /** Decimal digits that suffice for a number of `bits` bits, as the buffer size reckons them. */
  function DigitsReckoned(bits: nat): nat {
    (100 * bits + 332 - 1) / 332
  }

  lemma PowersCompare(bits: nat)
    ensures Pow(2, bits) <= Pow(10, DigitsReckoned(bits))
  {
    var k := DigitsReckoned(bits);
    if Pow(2, bits) > Pow(10, k) {
      PowMonotone(Pow(10, k), Pow(2, bits), 83);
      PowMultiplies(10, k, 83);
      PowMultiplies(2, bits, 83);
      PowMultiplies(2, 83, bits);
      PowMultiplies(10, 25, bits);
      BitsOfDigits();
      PowMonotone(Pow(2, 83), Pow(10, 25), bits);
      assert 25 * bits <= k * 83;
      PowGrows(10, 25 * bits, k * 83);
    }
  }

  /** On the other side, 2^103 is just above 10^31. */
  lemma DigitsOfBits()
    ensures Pow(10, 31) < Pow(2, 103)
  {
    hide Pow;
    PowAdds(2, 20, 20);
    PowAdds(2, 20, 40);
    PowAdds(2, 20, 60);
    PowAdds(2, 20, 80);
    PowAdds(2, 3, 100);
    PowAdds(10, 10, 10);
    PowAdds(10, 10, 20);
    PowNext(10, 30);
    Pow2To20();
    Pow10To10();
  }

  /** So the digits that are needed for some bits are not many fewer than the bits times 31 / 103. */
  lemma DigitsNeeded(bits: nat, k: nat)
    requires Pow(2, bits) <= Pow(10, k)
    ensures 31 * bits <= 103 * k
  {
    hide Pow;
    PowMonotone(Pow(2, bits), Pow(10, k), 31);
    PowMultiplies(2, bits, 31);
    PowMultiplies(10, k, 31);
    PowMultiplies(10, 31, k);
    PowMultiplies(2, 103, k);
    DigitsOfBits();
    PowMonotone(Pow(10, 31), Pow(2, 103), k);
    if 31 * bits > 103 * k {
      PowNext(2, 103 * k);
      PowPositive(2, 103 * k);
      PowGrows(2, 103 * k + 1, 31 * bits);
    }
  }

  /** The size of the buffer for numbers of up to `maxBits` bits. */
  function RwBufferSize(maxBits: nat): nat {
    DigitsReckoned(maxBits) + 10 + 6
  }

  /**
   * Numbers of at most `maxBits` bits, written in any radix from ten on, leave sixteen characters of the
   * buffer: ten for a label, the rest for line ends and the terminator. Only a size for no bits at all
   * misses that, since even zero is written with a digit.
   */
  lemma RwBufferSuffices(maxBits: nat)
    ensures maxBits >= 1
       <==> forall x: nat, radix: nat | x < Pow(2, maxBits) && radix >= 10 ::
              |Digits(x, radix)| + 16 <= RwBufferSize(maxBits)
  {
    if maxBits == 0 {
      PowZero(2);
      assert |Digits(0, 10)| + 16 > RwBufferSize(0);
    } else {
      hide Digits, Pow;
      var k := DigitsReckoned(maxBits);
      PowersCompare(maxBits);
      forall x: nat, radix: nat | x < Pow(2, maxBits) && radix >= 10
        ensures |Digits(x, radix)| + 16 <= RwBufferSize(maxBits)
      {
        PowMonotone(10, radix, k);
        DigitsFit(x, radix, k);
      }
    }
  }

  /**
   * The largest number of `maxBits` bits leaves little more than these sixteen characters: no more at all up to
   * twelve bits, and at most two more for the 8192 bits of the largest numbers.
   */
  lemma RwBufferTight(maxBits: nat, largest: nat)
    requires largest + 1 == Pow(2, maxBits)
    ensures RwBufferSize(maxBits) <= |Digits(largest, 10)| + 16 + (8 * maxBits + 34093) / 34196
    ensures maxBits <= 12 ==> RwBufferSize(maxBits) <= |Digits(largest, 10)| + 16
    ensures maxBits <= 8192 ==> RwBufferSize(maxBits) <= |Digits(largest, 10)| + 18
  {
    hide Digits, Pow;
    SomeDigit(largest, 10);
    DigitsFit(largest, 10, |Digits(largest, 10)|);
    DigitsNeeded(maxBits, |Digits(largest, 10)|);
  }
}
