/** What the parts of the hash do to memory and registers: every scratchpad word reaches the fold,
    every register reaches the scratchpad, every register takes in dataset words, and the integer
    instructions lose nothing of the register they change. */
module Mixing {
  import opened Types
  import opened Words
  import opened Bits
  import opened Vm
  import Retarget

  // ------------------------------------------------------------------- the fold

  /** How many of the first `rows` words of column `j` have bit `i` set. */
  function Ones(sc: seq<Word>, j: nat, rows: nat, i: nat): nat
    requires j < 8 && 8 * rows <= |sc|
  {
    if rows == 0 then 0 else Ones(sc, j, rows - 1, i) + Bit(sc[8 * (rows - 1) + j], i)
  }

  /** A fold bit is the parity of its column. */
  lemma {:induction false} ColumnParity(sc: seq<Word>, j: nat, rows: nat, i: nat)
    requires j < 8 && 8 * rows <= |sc| && i < 64
    ensures Bit(Column(sc, j, rows), i) == Ones(sc, j, rows, i) % 2
  {
    hide Xor, Bit;
    if rows == 0 {
      ZeroBits(i);
    } else {
      ColumnParity(sc, j, rows - 1, i);
      XorBitIs(Column(sc, j, rows - 1), sc[8 * (rows - 1) + j], i);
    }
  }

  lemma {:induction false} ColumnChanges(sc: seq<Word>, w: nat, v: Word, j: nat, rows: nat)
    requires j < 8 && 8 * rows <= |sc| && w < |sc| && v != sc[w]
    ensures Column(sc[w := v], j, rows) != Column(sc, j, rows) <==> w < 8 * rows && w % 8 == j
  {
    hide Xor;
    if rows > 0 {
      var k := 8 * (rows - 1) + j;
      ColumnChanges(sc, w, v, j, rows - 1);
      var before, after := Column(sc, j, rows - 1), Column(sc[w := v], j, rows - 1);
      if w == k {
        XorDiffers(v, sc[w], before);
      } else if before != after {
        XorDiffers(before, after, sc[k]);
      }
    }
  }

  /** Changing one scratchpad word changes exactly one word of the fold. */
  lemma {:induction false} FoldSensitive(sc: seq<Word>, w: nat, v: Word)
    requires |sc| % 8 == 0 && w < |sc| && v != sc[w]
    ensures var before, after := Columns(sc, |sc| / 8), Columns(sc[w := v], |sc| / 8);
      before != after && forall j :: 0 <= j < 8 ==> (after[j] != before[j] <==> j == w % 8)
  {
    var before, after := Columns(sc, |sc| / 8), Columns(sc[w := v], |sc| / 8);
    hide Column;
    forall j | 0 <= j < 8 ensures after[j] != before[j] <==> j == w % 8 {
      ColumnChanges(sc, w, v, j, |sc| / 8);
    }
    assert after[w % 8] != before[w % 8];
  }

  // ------------------------------------------------------- the end of an outer loop

  /** How far `w` lies behind `base` on the ring of scratchpad words. */
  function Distance(w: nat, base: nat): (d: nat)
    requires w < SCRATCH_WORDS && base < SCRATCH_WORDS
    ensures d < SCRATCH_WORDS
  {
    if base <= w then w - base else w + SCRATCH_WORDS - base
  }

  lemma {:induction false} RingPosition(w: nat, base: nat, k: nat)
    requires w < SCRATCH_WORDS && base < SCRATCH_WORDS && k < SCRATCH_WORDS
    ensures (base + k) % SCRATCH_WORDS == w <==> Distance(w, base) == k
  {
    assert (base + k) % SCRATCH_WORDS == if base + k < SCRATCH_WORDS then base + k else base + k - SCRATCH_WORDS;
  }

  /** Each register is xored into its own word, from the base on around the end; no other word
      changes. */
  lemma {:induction false} FoldInAt(sc: seq<Word>, base: nat, r: seq<Word>, n: nat, w: nat)
    requires |sc| == SCRATCH_WORDS && base < SCRATCH_WORDS && n <= |r| <= 16 && w < SCRATCH_WORDS
    ensures FoldIn(sc, base, r, n)[w] == var d := Distance(w, base); if d < n then Xor(sc[w], r[d]) else sc[w]
  {
    hide Xor, Distance;
    if n > 0 {
      FoldInAt(sc, base, r, n - 1, w);
      RingPosition(w, base, n - 1);
    }
  }

  lemma {:induction false} MixInAt(r: seq<Word>, f: seq<Word>, n: nat, i: nat)
    requires |r| == 16 && |f| == 8 && n <= 8 && i < 16
    ensures MixIn(r, f, n)[i] == if 8 <= i < n + 8 then Xor(r[i], f[i - 8]) else r[i]
  {
    hide Xor;
    if n > 0 {
      MixInAt(r, f, n - 1, i);
    }
  }

  /** An outer loop ends by xoring all sixteen registers into sixteen consecutive scratchpad words
      and the eight float registers into the upper integer registers. */
  lemma {:induction false} LoopFoldAt(loop: Word, m: Regs, w: nat, i: nat)
    requires m.Valid() && w < SCRATCH_WORDS && i < 16
    ensures var base := ScratchIndex(Xor(m.r[0], Mul(loop, 0x9E37_79B9_7F4A_7C15)));
      var d := Distance(w, base);
      && LoopFold(loop, m).sc[w] == (if d < 16 then Xor(m.sc[w], m.r[d]) else m.sc[w])
      && LoopFold(loop, m).r[i] == (if i < 8 then m.r[i] else Xor(m.r[i], m.f[i - 8]))
      && LoopFold(loop, m).f == m.f
  {
    var base := FoldBase(m.r, loop);
    hide Xor, Mul, ScratchIndex, FoldIn, MixIn, Distance;
    FoldInAt(m.sc, base, m.r, 16, w);
    MixInAt(m.r, m.f, 8, i);
  }

  /** No two register files leave the same scratchpad behind when they fold to the same place. */
  lemma {:induction false} RegistersRemain(loop: Word, m: Regs, m': Regs, i: nat)
    requires m.Valid() && m'.Valid() && m.sc == m'.sc && FoldBase(m.r, loop) == FoldBase(m'.r, loop)
    requires i < 16 && m.r[i] != m'.r[i]
    ensures LoopFold(loop, m).sc != LoopFold(loop, m').sc
  {
    var base := FoldBase(m.r, loop);
    var w := (base + i) % SCRATCH_WORDS;
    RingPosition(w, base, i);
    hide Xor, FoldBase, FoldIn, MixIn, Distance;
    FoldInAt(m.sc, base, m.r, 16, w);
    FoldInAt(m.sc, base, m'.r, 16, w);
    XorDiffers(m.r[i], m'.r[i], m.sc[w]);
  }

  // ------------------------------------------------------------------- the walk

  /** The dataset words that a walk reads, in order. */
  function Trace(e: Epoch, loop: Word, r: seq<Word>, addr: Word, k: nat): (vs: seq<Word>)
    requires e.Valid() && |r| == 16 && k <= READS_PER_LOOP
    ensures |vs| == READS_PER_LOOP - k
    decreases READS_PER_LOOP - k
  {
    if k == READS_PER_LOOP then []
    else
      var (next, a) := WalkStep(e, loop, r, addr, k);
      [e.dataset[DatasetIndex(addr)]] + Trace(e, loop, next, a, k + 1)
  }

  /** What register `i` becomes by xoring every sixteenth word of `vs`, `k` being the first turn. */
  function Absorb(x: Word, vs: seq<Word>, k: nat, i: nat): Word
    requires i < 16
    decreases |vs|
  {
    if |vs| == 0 then x else Absorb(if k % 16 == i then Xor(x, vs[0]) else x, vs[1..], k + 1, i)
  }

  lemma {:induction false} WalkAbsorbs(e: Epoch, loop: Word, r: seq<Word>, addr: Word, k: nat, i: nat)
    requires e.Valid() && |r| == 16 && k <= READS_PER_LOOP && i < 16
    ensures WalkFrom(e, loop, r, addr, k)[i] == Absorb(r[i], Trace(e, loop, r, addr, k), k, i)
    decreases READS_PER_LOOP - k
  {
    hide Xor, DatasetIndex, Add;
    if k < READS_PER_LOOP {
      var (next, a) := WalkStep(e, loop, r, addr, k);
      WalkAbsorbs(e, loop, next, a, k + 1, i);
      assert Trace(e, loop, r, addr, k)[1..] == Trace(e, loop, next, a, k + 1);
    }
  }

  lemma {:induction false} TurnIs(k: nat, n: nat)
    requires 0 < n <= 16 && (k + n) % 16 == 0
    ensures k % 16 == 16 - n
  {
  }

  lemma {:induction false} AbsorbRound(x: Word, vs: seq<Word>, k: nat, i: nat, n: nat)
    requires i < 16 && n <= 16 && |vs| >= n && (k + n) % 16 == 0
    ensures Absorb(x, vs, k, i) == Absorb(if i >= 16 - n then Xor(x, vs[i - (16 - n)]) else x, vs[n..], k + n, i)
    decreases n
  {
    hide Xor;
    if n > 0 {
      TurnIs(k, n);
      AbsorbRound(if i == 16 - n then Xor(x, vs[0]) else x, vs[1..], k + 1, i, n - 1);
      assert vs[1..][n - 1..] == vs[n..];
    } else {
      assert vs[0..] == vs;
    }
  }

  /** Per outer loop each register takes in exactly four of the 64 dataset words read. */
  lemma {:induction false} FourWordsEach(e: Epoch, loop: Word, r: seq<Word>, addr: Word, i: nat)
    requires e.Valid() && |r| == 16 && i < 16
    ensures var vs := Trace(e, loop, r, addr, 0);
      && |vs| == 64
      && WalkFrom(e, loop, r, addr, 0)[i] == Xor(Xor(Xor(Xor(r[i], vs[i]), vs[i + 16]), vs[i + 32]), vs[i + 48])
  {
    WalkAbsorbs(e, loop, r, addr, 0, i);
    hide Xor, Trace, WalkFrom;
    AbsorbAll(r[i], Trace(e, loop, r, addr, 0), i);
  }

  lemma {:induction false} AbsorbAll(x: Word, vs: seq<Word>, i: nat)
    requires i < 16 && |vs| == 64
    ensures Absorb(x, vs, 0, i) == Xor(Xor(Xor(Xor(x, vs[i]), vs[i + 16]), vs[i + 32]), vs[i + 48])
  {
    hide Xor, Absorb;
    NextRound(x, vs, vs, 0, i);
    NextRound(Xor(x, vs[i]), vs, vs[16..], 1, i);
    NextRound(Xor(Xor(x, vs[i]), vs[i + 16]), vs, vs[32..], 2, i);
    NextRound(Xor(Xor(Xor(x, vs[i]), vs[i + 16]), vs[i + 32]), vs, vs[48..], 3, i);
    NothingLeft(Xor(Xor(Xor(Xor(x, vs[i]), vs[i + 16]), vs[i + 32]), vs[i + 48]), vs[64..], i);
  }

  lemma {:induction false} NothingLeft(x: Word, vs: seq<Word>, i: nat)
    requires i < 16 && |vs| == 0
    ensures Absorb(x, vs, 64, i) == x
  {
  }

  lemma {:induction false} NextRound(x: Word, vs: seq<Word>, rest: seq<Word>, q: nat, i: nat)
    requires i < 16 && q < 4 && |vs| == 64 && rest == vs[16 * q..]
    ensures Absorb(x, rest, 16 * q, i) == Absorb(Xor(x, vs[16 * q + i]), vs[16 * q + 16..], 16 * q + 16, i)
  {
    hide Xor, Absorb;
    AbsorbRound(x, rest, 16 * q, i, 16);
    assert rest[16..] == vs[16 * q + 16..];
  }

  /** The walk is dependent: the next address is made of the word just read, the next register and
      the loop, so two different words lead on to different addresses. */
  lemma {:induction false} NextAddress(e: Epoch, e': Epoch, loop: Word, r: seq<Word>, addr: Word, k: nat)
    requires e.Valid() && e'.Valid() && |r| == 16
    requires e.dataset[DatasetIndex(addr)] != e'.dataset[DatasetIndex(addr)]
    ensures WalkStep(e, loop, r, addr, k).1 != WalkStep(e', loop, r, addr, k).1
    ensures WalkStep(e, loop, r, addr, k).0 != WalkStep(e', loop, r, addr, k).0
  {
    hide Xor, DatasetIndex, Add;
    NextTurn(k);
    WordRead(e.dataset[DatasetIndex(addr)], e'.dataset[DatasetIndex(addr)], r, k % 16, (k + 1) % 16, loop);
  }

  lemma {:induction false} NextTurn(k: nat)
    ensures (k + 1) % 16 != k % 16
  {
  }

  lemma {:induction false} WordRead(v: Word, v': Word, r: seq<Word>, i: nat, j: nat, loop: Word)
    requires v != v' && i < |r| && j < |r| && i != j
    ensures r[i := Xor(r[i], v)] != r[i := Xor(r[i], v')]
    ensures Add(Add(v, r[i := Xor(r[i], v)][j]), loop) != Add(Add(v', r[i := Xor(r[i], v')][j]), loop)
  {
    XorDiffers(v, v', r[i]);
    hide Xor;
    assert r[i := Xor(r[i], v)][i] != r[i := Xor(r[i], v')][i];
    AddDiffers(v, v', r[j]);
    AddDiffers(Add(v, r[j]), Add(v', r[j]), loop);
    hide Add;
  }

  // ------------------------------------------------------- reversible instructions

  lemma {:induction false} AddDiffers(x: Word, y: Word, v: Word)
    requires x != y
    ensures Add(x, v) != Add(y, v)
  {
  }

  lemma {:induction false} OddCancels(d: nat, o: nat, n: nat)
    requires o % 2 == 1 && d * o % Pow2(n) == 0
    ensures d % Pow2(n) == 0
  {
    if n > 0 {
      var p := Pow2(n - 1);
      assert Pow2(n) == 2 * p;
      hide Pow2;
      EvenFactor(d, o, p);
      OddCancels(d / 2, o, n - 1);
      Halved(d, p);
    }
  }

  lemma {:induction false} EvenFactor(d: nat, o: nat, p: nat)
    requires p > 0 && o % 2 == 1 && d * o % (2 * p) == 0
    ensures d % 2 == 0 && d / 2 * o % p == 0
  {
    var c := d * o / (2 * p);
    assert d * o == 2 * p * c;
    assert 2 * p * c == 2 * (p * c);
    OddProduct(d, o);
    assert d * o == 2 * (d / 2 * o) by {
      assert d == 2 * (d / 2);
      Twice(d / 2, o);
    }
    MultipleOf(p, c);
  }

  lemma {:induction false} OddProduct(d: nat, o: nat)
    requires o % 2 == 1
    ensures d * o % 2 == d % 2
  {
    var h := o / 2;
    assert d * o == 2 * (d * h) + d by {
      Twice(h, d);
      assert o == 2 * h + 1;
    }
  }

  lemma {:induction false} Twice(h: nat, d: nat)
    ensures 2 * h * d == 2 * (h * d)
  {
  }

  lemma {:induction false} MultipleOf(p: nat, c: nat)
    requires p > 0
    ensures p * c % p == 0
  {
    Retarget.DivUnique(p * c, p, c);
  }

  lemma {:induction false} Halved(d: nat, p: nat)
    requires p > 0 && d % 2 == 0 && d / 2 % p == 0
    ensures d % (2 * p) == 0
  {
    var c := d / 2 / p;
    assert d / 2 == p * c;
    assert d == 2 * p * c;
    MultipleOf(2 * p, c);
  }

  /** Multiplication by an odd number loses nothing. */
  lemma {:induction false} OddMulDiffers(x: Word, y: Word, o: Word)
    requires x < y && o % 2 == 1
    ensures Mul(x, o) != Mul(y, o)
  {
    Width();
    hide Pow2;
    if Mul(x, o) == Mul(y, o) {
      SameRemainder(x * o, y * o, TWO64);
      assert (y - x) * o == y * o - x * o;
      OddCancels(y - x, o, 64);
    }
  }

  lemma {:induction false} SameRemainder(a: nat, b: nat, n: nat)
    requires n > 0 && a <= b && a % n == b % n
    ensures (b - a) % n == 0
  {
    var p, q := a / n, b / n;
    Quotient(a, n);
    Quotient(b, n);
    Retarget.DivGalois(b, n, p);
    assert b - a == n * (q - p);
    MultipleOf(n, q - p);
  }

  lemma {:induction false} RotateDiffers(x: Word, y: Word, n: nat)
    requires x != y && n < 64
    ensures RotateRight(x, n) != RotateRight(y, n)
  {
    hide RotateRight, Bit;
    if RotateRight(x, n) == RotateRight(y, n) {
      forall i: nat | i < 64 ensures Bit(x, i) == Bit(y, i) {
        var k := if i >= n then i - n else i + 64 - n;
        RotateBit(x, n, k);
        RotateBit(y, n, k);
      }
      WordsEqual(x, y);
    }
  }

  predicate KeepsTarget(ins: Instr) {
    || ins.op == IADD || ins.op == IMUL || ins.op == IXOR || ins.op == IROTR || ins.op == INEG || ins.op == LOAD
    || ins.op == AESR || (ins.op == XDOM && ins.imm % 2 == 0)
  }

  /** An integer instruction whose source is another register maps different values of its target
      register to different values, everything else being equal. */
  lemma {:induction false} Reversible(e: Epoch, ins: Instr, loop: Word, m: Regs, v: Word)
    requires m.Valid() && KeepsTarget(ins) && ins.dst % 16 != ins.src % 16 && v != m.r[ins.dst % 16]
    ensures Body(e, ins, loop, m.(r := m.r[ins.dst % 16 := v])).r[ins.dst % 16] != Body(e, ins, loop, m).r[ins.dst % 16]
  {
    var d, s, x := ins.dst % 16, ins.src % 16, m.r[ins.dst % 16];
    hide Xor, RotateRight, MulHigh, NormFloat, ScratchIndex, PairIndex;
    var r := m.r;
    if ins.op == IADD {
      AddDiffers(x, v, Add(r[s], ins.imm));
    } else if ins.op == IMUL {
      OddMulDiffers(if x < v then x else v, if x < v then v else x, SetLowBit(r[s]));
    } else if ins.op == IXOR {
      XorDiffers(x, v, Add(r[s], e.rotSalt));
    } else if ins.op == IROTR {
      RotateDiffers(x, v, Xor(r[s], ins.imm) % 64);
    } else if ins.op == INEG {
      AddDiffers(Not(x), Not(v), ins.imm);
    } else if ins.op == LOAD {
      XorDiffers(x, v, m.sc[ScratchIndex(Add(r[s], ins.imm))]);
    } else if ins.op == AESR {
      var w := PairIndex(Add(r[s], ins.imm));
      XorDiffers(x, v, e.aes(m.sc[w], m.sc[w + 1]).0);
    } else {
      XorDiffers(x, v, m.f[s % 8]);
    }
  }

  /** STORE changes its word by a xor, so nothing stored before is lost either. */
  lemma {:induction false} StoreReversible(e: Epoch, ins: Instr, loop: Word, m: Regs, v: Word)
    requires m.Valid() && ins.op == STORE
    requires v != m.sc[ScratchIndex(Add(m.r[ins.dst % 16], ins.imm))]
    ensures var w := ScratchIndex(Add(m.r[ins.dst % 16], ins.imm));
      Body(e, ins, loop, m.(sc := m.sc[w := v])).sc[w] != Body(e, ins, loop, m).sc[w]
  {
    var w := ScratchIndex(Add(m.r[ins.dst % 16], ins.imm));
    hide Xor, ScratchIndex;
    XorDiffers(m.sc[w], v, Add(m.r[ins.src % 16], loop));
  }

  /** Bits `lo` to `lo` + `n` - 1 are clear. */
  ghost predicate Clear(x: nat, lo: nat, n: nat) {
    forall i :: lo <= i < lo + n ==> Bit(x, i) == 0
  }

  lemma {:induction false} ClearByte(x: nat, lo: nat)
    ensures 0 <= x / Pow2(lo) % 256 && (x / Pow2(lo) % 256 == 0 <==> Clear(x, lo, 8))
  {
    var y := x / Pow2(lo);
    Quotient(x, Pow2(lo));
    assert Pow2(8) == 256;
    Quotient(y, 256);
    var z := y % 256;
    forall i: nat | i < 8 ensures Bit(z, i) == Bit(x, lo + i) && Bit(0, i) == 0 {
      BitOfRemainder(y, 8, i);
      BitOfQuotient(x, lo, i);
      ZeroBits(i);
    }
    hide Bit, Pow2;
    if Clear(x, lo, 8) {
      SameBits(z, 0, 8);
    } else {
      var i :| lo <= i < lo + 8 && Bit(x, i) != 0;
      assert Bit(z, i - lo) == Bit(x, lo + (i - lo));
    }
  }

  /** A branch is taken exactly when the eight condition bits of the sum are all clear and it was
      taken fewer than eight times before. */
  lemma {:induction false} BranchBits(e: Epoch, ins: Instr, r: seq<Word>, taken: nat)
    requires |r| == 16
    ensures Branches(e, ins, r, taken) <==>
      ins.op == CBRANCH && taken < 8 && Clear(Add(r[ins.dst % 16], ins.imm), e.branchShift, 8)
  {
    ClearByte(Add(r[ins.dst % 16], ins.imm), e.branchShift);
    hide Add, Clear, Pow2;
  }
}
