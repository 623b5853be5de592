/** How far the double-precision numbers reach, in powers of ten. */
module BinaryRange {
  import opened Powers
  import opened DecimalStrings

  lemma {:induction false} Pow2Adds(a: nat, b: nat)
    ensures Pow2(a + b) == Pow2(a) * Pow2(b)
  {
    if b > 0 {
      Pow2Adds(a, b - 1);
      Double(Pow2(a), Pow2(b - 1));
    }
  }

  lemma Double(x: nat, y: nat)
    ensures 2 * (x * y) == x * (2 * y)
  {
  }

  lemma {:induction false} Pow10Adds(a: nat, b: nat)
    ensures Pow10(a + b) == Pow10(a) * Pow10(b)
  {
    if b > 0 {
      Pow10Adds(a, b - 1);
      Tenfold(Pow10(a), Pow10(b - 1));
    }
  }

  lemma Tenfold(x: real, y: real)
    ensures 10.0 * (x * y) == x * (10.0 * y)
  {
  }

  lemma ProductsOrdered(a: nat, b: nat, c: real, d: real)
    requires a as real <= c && b as real <= d
    ensures (a * b) as real <= c * d
  {
    var x, y := a as real, b as real;
    assert (a * b) as real == x * y;
    assert x * y <= x * d <= c * d;
  }

  lemma TwoTo31()
    ensures Pow2(31) == 2147483648
  {
    assert Pow2(8) == 256;
    Pow2Adds(8, 8);
    Pow2Adds(16, 8);
    Pow2Adds(24, 7);
  }

  lemma TenTo14()
    ensures Pow10(14) == 100000000000000.0
  {
    assert Pow10(7) == 10000000.0;
    Pow10Adds(7, 7);
  }

  lemma TwoTo93()
    ensures Pow2(93) as real <= Pow10(28)
  {
    hide Pow2, Pow10;
    TwoTo31();
    Pow2Adds(31, 31);
    Pow2Adds(62, 31);
    TenTo14();
    Pow10Adds(14, 14);
  }

  lemma NextPowers(a: nat, b: nat)
    requires Pow2(a) as real <= Pow10(b)
    ensures Pow2(a + 93) as real <= Pow10(b + 28)
  {
    hide Pow2, Pow10;
    TwoTo93();
    Pow2Adds(a, 93);
    Pow10Adds(b, 28);
    ProductsOrdered(Pow2(a), Pow2(93), Pow10(b), Pow10(28));
  }

  /** 2^(93k) is at most 10^(28k). */
  lemma {:induction false} TwoAgainstTen(k: nat)
    ensures Pow2(93 * k) as real <= Pow10(28 * k)
  {
    if k == 0 {
      assert Pow2(0) == 1 && Pow10(0) == 1.0;
    } else {
      hide Pow2, Pow10;
      TwoAgainstTen(k - 1);
      NextPowers(93 * (k - 1), 28 * (k - 1));
    }
  }

  /** 2^1024 bounds all binary64 numbers. */
  lemma DoublesAreSmall()
    ensures Pow2(1024) as real <= 2.0 * Pow10(308)
  {
    hide Pow10;
    TwoAgainstTen(11);
    assert Pow2(1024) == 2 * Pow2(1023);
  }
}
