/** What the word operations of the machine do, bit by bit. */
module Bits {
  import opened Types
  import opened Retarget
  import opened Words

  /** Bit `i` of `x`. */
  function Bit(x: nat, i: nat): (b: nat)
    ensures b < 2
  {
    x / Pow2(i) % 2
  }

  lemma {:induction false} DivPow(x: nat, i: nat)
    ensures x / Pow2(i + 1) == x / 2 / Pow2(i)
  {
    var p := Pow2(i);
    assert Pow2(i + 1) == 2 * p;
    hide Pow2;
    HalfFirst(x, p);
  }

  lemma {:induction false} HalfFirst(x: nat, p: nat)
    requires p > 0
    ensures x / (2 * p) == x / 2 / p
  {
    var y := x / 2;
    var q := y / p;
    DivBounds(y, p);
    var lo, hi := q * p, (q + 1) * p;
    TwiceProduct(q, p);
    TwiceProduct(q + 1, p);
    assert 2 * lo <= x < 2 * hi;
    DivUnique(x, 2 * p, q);
  }

  lemma {:induction false} TwiceProduct(q: nat, p: nat)
    ensures q * (2 * p) == 2 * (q * p)
  {
  }

  /** Bit i + 1 is bit i of the half. */
  lemma {:induction false} BitUp(x: nat, i: nat)
    ensures Bit(x, i + 1) == Bit(x / 2, i)
  {
    DivPow(x, i);
    hide Pow2;
  }

  lemma {:induction false} BitZero(x: nat)
    ensures Bit(x, 0) == x % 2
  {
  }

  /** A number below 2^n has no bit from n on. */
  lemma {:induction false} NoHighBit(x: nat, n: nat, i: nat)
    requires x < Pow2(n) && n <= i
    ensures Bit(x, i) == 0
    decreases i
  {
    if n == 0 {
      ZeroBits(i);
    } else {
      BitUp(x, i - 1);
      NoHighBit(x / 2, n - 1, i - 1);
    }
  }

  lemma {:induction false} ZeroBits(i: nat)
    ensures Bit(0, i) == 0
  {
    if i > 0 {
      BitUp(0, i - 1);
      ZeroBits(i - 1);
    }
  }

  /** A word is its bits. */
  lemma {:induction false} SameBits(x: nat, y: nat, n: nat)
    requires x < Pow2(n) && y < Pow2(n) && forall i: nat :: i < n ==> Bit(x, i) == Bit(y, i)
    ensures x == y
  {
    if n > 0 {
      BitZero(x);
      BitZero(y);
      assert Bit(x, 0) == Bit(y, 0);
      forall i: nat | i < n - 1 ensures Bit(x / 2, i) == Bit(y / 2, i) {
        BitUp(x, i);
        BitUp(y, i);
        assert Bit(x, i + 1) == Bit(y, i + 1);
      }
      hide Bit;
      SameBits(x / 2, y / 2, n - 1);
    }
  }

  // --------------------------------------------------------------- exclusive or

  lemma {:induction false} XorBitsStep(a: nat, b: nat, n: nat)
    requires n > 0
    ensures XorBits(a, b, n) / 2 == XorBits(a / 2, b / 2, n - 1)
    ensures XorBits(a, b, n) % 2 == if a % 2 == b % 2 then 0 else 1
  {
    hide Pow2;
    var h := XorBits(a / 2, b / 2, n - 1);
    assert XorBits(a, b, n) == 2 * h + (a + b) % 2;
    hide XorBits;
    Parity(a, b, h);
  }

  lemma {:induction false} Parity(a: nat, b: nat, h: nat)
    ensures var x := 2 * h + (a + b) % 2; x / 2 == h && x % 2 == if a % 2 == b % 2 then 0 else 1
  {
  }

  lemma {:induction false} XorBitsBit(a: nat, b: nat, n: nat, i: nat)
    requires i < n
    ensures Bit(XorBits(a, b, n), i) == if Bit(a, i) == Bit(b, i) then 0 else 1
    decreases n
  {
    var x := XorBits(a, b, n);
    XorBitsStep(a, b, n);
    hide Bit, XorBits, Pow2;
    if i == 0 {
      BitZero(a);
      BitZero(b);
      BitZero(x);
    } else {
      XorBitsBit(a / 2, b / 2, n - 1, i - 1);
      BitUp(a, i - 1);
      BitUp(b, i - 1);
      BitUp(x, i - 1);
    }
  }

  /** Bit i of a xor b is set exactly when bit i of a and bit i of b differ. */
  lemma {:induction false} XorBit(a: Word, b: Word, i: nat)
    requires i < 64
    ensures Xor(a, b) / Pow2(i) % 2 == 1 <==> a / Pow2(i) % 2 != b / Pow2(i) % 2
  {
    Width();
    hide Pow2;
    XorBitsBit(a, b, 64, i);
    hide XorBits;
  }

  lemma {:induction false} XorBitIs(a: Word, b: Word, i: nat)
    requires i < 64
    ensures Bit(Xor(a, b), i) == if Bit(a, i) == Bit(b, i) then 0 else 1
  {
    XorBit(a, b, i);
    hide Pow2, Xor;
  }

  lemma {:induction false} WordsEqual(x: Word, y: Word)
    requires forall i: nat :: i < 64 ==> Bit(x, i) == Bit(y, i)
    ensures x == y
  {
    Width();
    hide Pow2, Bit;
    SameBits(x, y, 64);
  }

  /** Xoring the same word twice gives the first one back. */
  lemma {:induction false} XorTwice(a: Word, b: Word)
    ensures Xor(Xor(a, b), b) == a
  {
    hide Xor;
    forall i: nat | i < 64 ensures Bit(Xor(Xor(a, b), b), i) == Bit(a, i) {
      XorBitIs(a, b, i);
      XorBitIs(Xor(a, b), b, i);
    }
    hide Bit;
    WordsEqual(Xor(Xor(a, b), b), a);
  }

  lemma {:induction false} XorSwaps(a: Word, b: Word)
    ensures Xor(a, b) == Xor(b, a)
  {
    hide Xor;
    forall i: nat | i < 64 ensures Bit(Xor(a, b), i) == Bit(Xor(b, a), i) {
      XorBitIs(a, b, i);
      XorBitIs(b, a, i);
    }
    hide Bit;
    WordsEqual(Xor(a, b), Xor(b, a));
  }

  /** Different words stay different under the same xor. */
  lemma {:induction false} XorDiffers(a: Word, a': Word, b: Word)
    requires a != a'
    ensures Xor(a, b) != Xor(a', b) && Xor(b, a) != Xor(b, a')
  {
    XorTwice(a, b);
    XorTwice(a', b);
    XorSwaps(a, b);
    XorSwaps(a', b);
    hide Xor;
  }

  // --------------------------------------------------------- the other operations

  lemma {:induction false} BitOfSum(x: nat, y: nat, p: nat, i: nat)
    requires y < Pow2(p) && p <= i
    ensures Bit(x * Pow2(p) + y, i) == Bit(x, i - p)
    decreases p
  {
    if p > 0 {
      HalfOfSum(x, y, Pow2(p - 1));
      BitUp(x * Pow2(p) + y, i - 1);
      BitOfSum(x, y / 2, p - 1, i - 1);
    } else {
      Unit(x);
    }
  }

  lemma {:induction false} Unit(x: nat)
    ensures x * Pow2(0) == x
  {
  }

  lemma {:induction false} HalfOfSum(x: nat, y: nat, q: nat)
    ensures x * (2 * q) + y >= 0 && (x * (2 * q) + y) / 2 == x * q + y / 2 && (x * (2 * q) + y) % 2 == y % 2
  {
    Doubled(x, q);
    var h := x * q;
    assert x * (2 * q) == 2 * h;
  }

  lemma {:induction false} Doubled(x: nat, q: nat)
    ensures x * (2 * q) == 2 * (x * q) && x * q >= 0
  {
  }

  lemma {:induction false} HalfOfPower(x: nat, y: nat, p: nat)
    requires p > 0
    ensures var s := x * Pow2(p) + y; s >= 0 && s / 2 == x * Pow2(p - 1) + y / 2 && s % 2 == y % 2
  {
    HalfOfSum(x, y, Pow2(p - 1));
    assert Pow2(p) == 2 * Pow2(p - 1);
  }

  lemma {:induction false} LowBitOfSum(x: nat, y: nat, p: nat, i: nat)
    requires i < p
    ensures x * Pow2(p) + y >= 0 && Bit(x * Pow2(p) + y, i) == Bit(y, i)
    decreases p
  {
    hide Bit, Pow2;
    HalfOfPower(x, y, p);
    var s := x * Pow2(p) + y;
    if i == 0 {
      BitZero(s);
      BitZero(y);
    } else {
      BitUp(s, i - 1);
      BitUp(y, i - 1);
      LowBitOfSum(x, y / 2, p - 1, i - 1);
    }
  }

  lemma {:induction false} BitOfQuotient(x: nat, p: nat, i: nat)
    ensures x / Pow2(p) >= 0 && Bit(x / Pow2(p), i) == Bit(x, i + p)
    decreases p
  {
    if p > 0 {
      DivPow(x, p - 1);
      BitOfQuotient(x / 2, p - 1, i);
      BitUp(x, i + p - 1);
    } else {
      assert Pow2(0) == 1;
    }
  }

  lemma {:induction false} BitOfRemainder(x: nat, p: nat, i: nat)
    ensures 0 <= x % Pow2(p) && Bit(x % Pow2(p), i) == if i < p then Bit(x, i) else 0
  {
    var q, r := x / Pow2(p), x % Pow2(p);
    Quotient(x, Pow2(p));
    if i < p {
      LowBitOfSum(q, r, p, i);
    } else {
      NoHighBit(r, p, i);
    }
  }

  lemma {:induction false} Quotient(x: nat, p: nat)
    requires p > 0
    ensures x / p >= 0 && 0 <= x % p < p && x / p * p + x % p == x
  {
    DivBounds(x, p);
  }

  lemma {:induction false} RotateParts(x: Word, n: nat)
    requires n < 64
    ensures 0 <= x % Pow2(n) && 0 <= x / Pow2(n) < Pow2(64 - n)
    ensures RotateRight(x, n) == x % Pow2(n) * Pow2(64 - n) + x / Pow2(n)
  {
    Width();
    Pow2Sum(n, 64 - n);
    Quotient(x, Pow2(n));
    DivBelow(x, Pow2(n), Pow2(64 - n));
    RotateBound(x, n);
    hide Pow2;
  }

  /** Rotating right by n moves bit i + n, around the end of the word, to bit i. */
  lemma {:induction false} RotateBit(x: Word, n: nat, i: nat)
    requires n < 64 && i < 64
    ensures Bit(RotateRight(x, n), i) == Bit(x, (i + n) % 64)
  {
    hide Bit, Pow2, RotateRight, Swapped;
    RotateParts(x, n);
    var hi, lo, m := x % Pow2(n), x / Pow2(n), 64 - n;
    if i < m {
      LowBitOfSum(hi, lo, m, i);
      BitOfQuotient(x, n, i);
    } else {
      BitOfSum(hi, lo, m, i);
      BitOfRemainder(x, n, i - m);
    }
  }

  /** The high and the low word of a product make up the product. */
  lemma {:induction false} ProductWords(a: Word, b: Word)
    ensures MulHigh(a, b) * TWO64 + Mul(a, b) == a * b
  {
    HighBound(a, b);
    Product(a, b);
    Quotient(a * b, TWO64);
  }

  lemma {:induction false} Product(a: nat, b: nat)
    ensures a * b >= 0
  {
  }

  lemma {:induction false} ComplementBit(x: nat, n: nat, i: nat)
    requires x < Pow2(n) && i < n
    ensures Bit(Pow2(n) - 1 - x, i) == 1 - Bit(x, i)
    decreases n
  {
    var c := Pow2(n) - 1 - x;
    if i == 0 {
      BitZero(c);
      BitZero(x);
    } else {
      assert c / 2 == Pow2(n - 1) - 1 - x / 2;
      ComplementBit(x / 2, n - 1, i - 1);
      BitUp(c, i - 1);
      BitUp(x, i - 1);
    }
  }

  /** A scratchpad index is bits 3 to 20 of the address: the byte address below 2 MiB, in words. */
  lemma {:induction false} ScratchIndexBit(x: Word, i: nat)
    ensures Bit(ScratchIndex(x), i) == if i < 18 then Bit(x, i + 3) else 0
  {
    Small();
    BitOfRemainder(x / 8, 18, i);
    BitOfQuotient(x, 3, i);
    hide Bit, Pow2;
  }

  /** A dataset index is bits 3 to 25 of the address: the byte address below 64 MiB, in words. */
  lemma {:induction false} DatasetIndexBit(x: Word, i: nat)
    ensures Bit(DatasetIndex(x), i) == if i < 23 then Bit(x, i + 3) else 0
  {
    Small();
    BitOfRemainder(x / 8, 23, i);
    BitOfQuotient(x, 3, i);
    hide Bit, Pow2;
  }

  lemma {:induction false} Small()
    ensures Pow2(3) == 8 && Pow2(4) == 16 && Pow2(17) == 0x2_0000 && Pow2(18) == SCRATCH_WORDS
    ensures Pow2(23) == DATASET_WORDS && Pow2(52) == 0x10_0000_0000_0000 && Pow2(10) == 1024
  {
    assert Pow2(4) == 16 && Pow2(5) == 32;
    Pow2Sum(4, 4);
    Pow2Sum(8, 8);
    Pow2Sum(5, 5);
    Pow2Sum(18, 5);
    Pow2Sum(16, 16);
    Pow2Sum(32, 10);
    Pow2Sum(42, 10);
  }

  /** A normalised float keeps its 52 mantissa bits and has the exponent of [1, 2): sign 0, then
      0, then ten ones. */
  lemma {:induction false} NormFloatBit(x: Word, i: nat)
    requires i < 64
    ensures Bit(NormFloat(x), i) == if i < 52 then Bit(x, i) else if i < 62 then 1 else 0
  {
    Small();
    var m := x % Pow2(52);
    assert NormFloat(x) == 1023 * Pow2(52) + m;
    Quotient(x, Pow2(52));
    hide Bit, Pow2, NormFloat;
    if i < 52 {
      LowBitOfSum(1023, m, 52, i);
      BitOfRemainder(x, 52, i);
    } else {
      BitOfSum(1023, m, 52, i);
      TenOnes(i - 52);
    }
  }

  lemma {:induction false} TenOnes(i: nat)
    ensures Bit(1023, i) == if i < 10 then 1 else 0
  {
    Small();
    if i < 10 {
      ZeroBits(i);
      ComplementBit(0, 10, i);
    } else {
      NoHighBit(1023, 10, i);
    }
  }
}
