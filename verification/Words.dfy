/** 64-bit words of the proof-of-work machine (neuromorph/neuromorph.go, unm/nm_fast.c). */
module Words {
  import opened Types

  type Word = u64

  function Pow2(n: nat): (p: nat)
    ensures p > 0
  {
    if n == 0 then 1 else 2 * Pow2(n - 1)
  }

  function Add(a: Word, b: Word): Word { (a + b) % TWO64 }

  function Mul(a: Word, b: Word): Word { (a * b) % TWO64 }

  lemma {:induction false} MulOrder(a: nat, b: nat, c: nat)
    requires a <= b
    ensures a * c <= b * c
  {
  }

  lemma {:induction false} HighWord(x: nat, a: Word)
    requires x <= TWO64 * a
    ensures x / TWO64 <= a
  {
  }

  lemma {:induction false} HighBound(a: Word, b: Word)
    ensures 0 <= a * b / TWO64 < TWO64
  {
    MulOrder(b, TWO64, a);
    HighWord(b * a, a);
  }

  /** The high word of the 128-bit product. */
  function MulHigh(a: Word, b: Word): Word {
    HighBound(a, b);
    a * b / TWO64
  }

  function Not(a: Word): Word { TWO64 - 1 - a }

  function SetLowBit(a: Word): Word { if a % 2 == 0 then a + 1 else a }

  /** Bitwise exclusive or. */
  function XorBits(a: nat, b: nat, n: nat): (x: nat)
    ensures x < Pow2(n)
  {
    if n == 0 then 0 else 2 * XorBits(a / 2, b / 2, n - 1) + (a + b) % 2
  }

  lemma {:induction false} Width()
    ensures Pow2(64) == TWO64
  {
    assert Pow2(8) == 256;
    Pow2Sum(8, 8);
    Pow2Sum(16, 16);
    Pow2Sum(32, 32);
  }

  lemma {:induction false} Pow2Sum(m: nat, n: nat)
    ensures Pow2(m + n) == Pow2(m) * Pow2(n)
  {
    if m > 0 {
      Pow2Sum(m - 1, n);
    }
  }

  function Xor(a: Word, b: Word): Word {
    Width();
    XorBits(a, b, 64)
  }

  /** The low part of `x` below `p` moved above its high part. */
  function Swapped(x: nat, p: nat, q: nat): int
    requires p > 0
  {
    x / p + x % p * q
  }

  lemma {:induction false} SwapBound(x: nat, p: nat, q: nat)
    requires p > 0 && x < p * q
    ensures 0 <= Swapped(x, p, q) < p * q
  {
    DivBelow(x, p, q);
    MulOrder(x % p, p - 1, q);
  }

  lemma {:induction false} RotateBound(x: Word, n: nat)
    requires n < 64
    ensures 0 <= Swapped(x, Pow2(n), Pow2(64 - n)) < TWO64
  {
    Width();
    Pow2Sum(n, 64 - n);
    hide *;
    SwapBound(x, Pow2(n), Pow2(64 - n));
  }

  lemma {:induction false} DivBelow(x: nat, p: nat, q: nat)
    requires p > 0 && x < p * q
    ensures x / p < q
  {
    if x / p >= q {
      MulOrder(q, x / p, p);
    }
  }

  /** bits.RotateLeft64(x, -n), and rotl64(x, -n) in C. */
  function RotateRight(x: Word, n: nat): Word
    requires n < 64
  {
    RotateBound(x, n);
    Swapped(x, Pow2(n), Pow2(64 - n))
  }

  /** normFloat: exponent 1023, so a value in [1, 2) that keeps the mantissa. */
  function NormFloat(x: Word): Word {
    1023 * 0x10_0000_0000_0000 + x % 0x10_0000_0000_0000
  }

  // ------------------------------------------------------------------ indexing

  const SCRATCH_WORDS: nat := 0x4_0000
  const DATASET_WORDS: nat := 0x80_0000

  /** (x & scratchMask) >> 3 */
  function ScratchIndex(x: Word): (i: nat)
    ensures i < SCRATCH_WORDS
  {
    x / 8 % SCRATCH_WORDS
  }

  /** (x & scratchMask & ^15) >> 3: the first word of a 16-byte pair. */
  function PairIndex(x: Word): (i: nat)
    ensures i + 1 < SCRATCH_WORDS
  {
    x / 16 % 0x2_0000 * 2
  }

  /** (x & datasetMask) >> 3 */
  function DatasetIndex(x: Word): (i: nat)
    ensures i < DATASET_WORDS
  {
    x / 8 % DATASET_WORDS
  }
}
