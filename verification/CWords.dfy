/** The word primitives of the C miner (unm/nm_fast.c rotl64 and mulhi64), built from shifts, a
    bitwise or and a 128-bit product, and their agreement with those of the Go node. */
module CWords {
  import opened Types
  import opened Words
  import opened Retarget

  /** Bitwise or. */
  function OrBits(a: nat, b: nat, n: nat): (x: nat)
    ensures x < Pow2(n)
  {
    if n == 0 then 0 else 2 * OrBits(a / 2, b / 2, n - 1) + if a % 2 == 1 || b % 2 == 1 then 1 else 0
  }

  /** x << s and x >> s on uint64. */
  function ShiftLeft(x: Word, s: nat): Word { x * Pow2(s) % TWO64 }

  function ShiftDown(x: Word, s: nat): Word {
    ShrinkBound(x, Pow2(s));
    x / Pow2(s)
  }

  lemma {:induction false} ShrinkBound(x: nat, p: nat)
    requires p > 0
    ensures 0 <= x / p <= x
  {
    MulMono(1, p, x + 1);
    assert p * (x + 1) == (x + 1) * p;
    DivGalois(x, p, x + 1);
    DivGalois(x, p, 0);
  }

  /** `unsigned` is 32 bits wide, so a negative count keeps its six low bits in two's complement. */
  function Rotl64(x: Word, k: int): Word {
    var s := k % 0x1_0000_0000 % 64;
    Width();
    if s == 0 then x else OrBits(ShiftLeft(x, s), ShiftDown(x, 64 - s), 64)
  }

  /** The high half of the unsigned 128-bit product. */
  function MulHi64(a: Word, b: Word): Word {
    a * b % (TWO64 * TWO64) / TWO64 % TWO64
  }

  /** An or of numbers without a common bit is their sum. */
  lemma {:induction false} OrDisjoint(hi: nat, b: nat, s: nat, n: nat)
    requires s <= n && b < Pow2(s) && hi * Pow2(s) + b < Pow2(n)
    ensures OrBits(hi * Pow2(s), b, n) == hi * Pow2(s) + b
    decreases n
  {
    if n > 0 && s == 0 {
      assert hi * Pow2(0) == hi;
      assert hi / 2 * Pow2(0) == hi / 2;
      OrDisjoint(hi / 2, 0, 0, n - 1);
    } else if n > 0 {
      var p, q := Pow2(s), Pow2(s - 1);
      EvenHalf(hi, q);
      assert hi * p == hi * (2 * q);
      OrDisjoint(hi, b / 2, s - 1, n - 1);
    }
  }

  lemma {:induction false} EvenHalf(hi: nat, q: nat)
    ensures hi * (2 * q) == 2 * (hi * q)
  {
  }

  /** Shifting left drops the high bits. */
  lemma {:induction false} LeftDrops(x: nat, p: nat, q: nat)
    requires p > 0 && q > 0
    ensures x * q % (p * q) == x % p * q
  {
    var d, m := x / p, x % p;
    assert x == d * p + m;
    LeftSplit(d, m, p, q);
    MulOrder(m + 1, p, q);
    NextMultiple(m, q);
    RemainderOf(d, p * q, m * q);
  }

  lemma {:induction false} LeftSplit(d: nat, m: nat, p: nat, q: nat)
    ensures (d * p + m) * q == d * (p * q) + m * q
  {
  }

  lemma {:induction false} NextMultiple(m: nat, q: nat)
    ensures (m + 1) * q == m * q + q
  {
  }

  lemma {:induction false} RemainderOf(d: nat, n: nat, r: nat)
    requires r < n
    ensures (d * n + r) % n == r
  {
    NextMultiple(d, n);
    DivUnique(d * n + r, n, d);
    assert n * d == d * n;
  }

  /** The C rotation by a negative count is the Go rotation to the right. */
  lemma {:induction false} RotlIsRotate(x: Word, n: nat)
    requires n < 64
    ensures Rotl64(x, -(n as int)) == RotateRight(x, n)
  {
    RotateBound(x, n);
    if n == 0 {
      hide OrBits, ShiftLeft, ShiftDown;
      Unrotated(x);
    } else {
      ShiftsRotate(x, n);
      Negated(x, n);
      hide OrBits, Pow2, ShiftLeft, ShiftDown, Rotl64, Swapped;
    }
  }

  lemma {:induction false} Negated(x: Word, n: nat)
    requires 0 < n < 64
    ensures Rotl64(x, -(n as int)) == OrBits(ShiftLeft(x, 64 - n), ShiftDown(x, n), 64)
  {
    NegatedCount(n);
    Width();
    hide OrBits, Pow2, ShiftLeft, ShiftDown;
  }

  lemma {:induction false} ShiftsRotate(x: Word, n: nat)
    requires 0 < n < 64
    ensures OrBits(ShiftLeft(x, 64 - n), ShiftDown(x, n), 64) == Swapped(x, Pow2(n), Pow2(64 - n))
  {
    RotateBound(x, n);
    Width();
    Pow2Sum(n, 64 - n);
    var p, q := Pow2(n), Pow2(64 - n);
    hide OrBits, Pow2;
    LeftDrops(x, p, q);
    DivBelow(x, p, q);
    ShrinkBound(x, p);
    OrDisjoint(x % p, x / p, 64 - n, 64);
  }

  lemma {:induction false} Unrotated(x: Word)
    ensures Swapped(x, Pow2(0), Pow2(64)) == x
  {
  }

  lemma {:induction false} NegatedCount(n: nat)
    requires 0 < n < 64
    ensures -(n as int) % 0x1_0000_0000 % 64 == 64 - n
  {
    assert -(n as int) % 0x1_0000_0000 == 0x1_0000_0000 - n;
  }

  /** Both languages take the same high word of the product. */
  lemma {:induction false} MulHiIsHigh(a: Word, b: Word)
    ensures MulHi64(a, b) == MulHigh(a, b)
  {
    HighBound(a, b);
    NonNegative(a, b);
    SmallProduct(a * b);
  }

  lemma {:induction false} NonNegative(a: nat, b: nat)
    ensures a * b >= 0
  {
  }

  lemma {:induction false} SmallProduct(x: nat)
    requires x / TWO64 < TWO64
    ensures x % (TWO64 * TWO64) / TWO64 % TWO64 == x / TWO64
  {
    DivBounds(x, TWO64);
    MulMono(x / TWO64 + 1, TWO64, TWO64);
    RemainderOf(0, TWO64 * TWO64, x);
  }
}
