/** What the instructions of the machine mean: by opcode number, in plain arithmetic and bit by bit,
    and what a run of them is, step by step. */
module Instructions {
  import opened Types
  import opened Words
  import opened Bits
  import opened Vm
  import Retarget

  // ---------------------------------------------------------------- word relations

  /** `x` is the exclusive or of `a` and `b`. */
  ghost predicate Xors(x: nat, a: nat, b: nat) {
    forall i: nat :: i < 64 ==> Bit(x, i) == if Bit(a, i) == Bit(b, i) then 0 else 1
  }

  /** `x` is `a` rotated right by `n` bits. */
  ghost predicate Rotated(x: nat, a: nat, n: nat) {
    forall i: nat :: i < 64 ==> Bit(x, i) == Bit(a, (i + n) % 64)
  }

  /** `x` is the float in [1, 2) with the 52 mantissa bits of `a`. */
  ghost predicate Normal(x: nat, a: nat) {
    forall i: nat :: i < 64 ==> Bit(x, i) == if i < 52 then Bit(a, i) else if i < 62 then 1 else 0
  }

  lemma {:induction false} XorIs(a: Word, b: Word)
    ensures Xors(Xor(a, b), a, b)
  {
    hide Bit, Xor;
    forall i: nat | i < 64 ensures Bit(Xor(a, b), i) == if Bit(a, i) == Bit(b, i) then 0 else 1 {
      XorBitIs(a, b, i);
    }
  }

  lemma {:induction false} NormalIs(x: Word, a: Word)
    ensures Normal(x, a) <==> x == NormFloat(a)
  {
    hide Bit, NormFloat;
    forall i: nat | i < 64
      ensures Bit(NormFloat(a), i) == if i < 52 then Bit(a, i) else if i < 62 then 1 else 0
    {
      NormFloatBit(a, i);
    }
    if Normal(x, a) {
      forall i: nat | i < 64 ensures Bit(x, i) == Bit(NormFloat(a), i) {
      }
      WordsEqual(x, NormFloat(a));
    }
  }

  lemma {:induction false} RotatedIs(a: Word, n: nat)
    requires n < 64
    ensures Rotated(RotateRight(a, n), a, n)
  {
    hide Bit, RotateRight;
    forall i: nat | i < 64 ensures Bit(RotateRight(a, n), i) == Bit(a, (i + n) % 64) {
      RotateBit(a, n, i);
    }
  }

  /** The low six bits of `n` are those of the exclusive or of `a` and `b`. */
  ghost predicate SixBits(n: nat, a: nat, b: nat) {
    n < 64 && forall i: nat :: i < 6 ==> Bit(n, i) == if Bit(a, i) == Bit(b, i) then 0 else 1
  }

  lemma {:induction false} SixBitsIs(n: nat, a: Word, b: Word)
    ensures SixBits(n, a, b) <==> n == Xor(a, b) % 64
  {
    var x := Xor(a, b);
    assert Pow2(6) == 64 by {
      assert Pow2(3) == 8;
      Pow2Sum(3, 3);
    }
    hide Bit, Xor, Pow2;
    forall i: nat | i < 6 ensures Bit(x % 64, i) == if Bit(a, i) == Bit(b, i) then 0 else 1 {
      BitOfRemainder(x, 6, i);
      XorBitIs(a, b, i);
    }
    if SixBits(n, a, b) {
      forall i: nat | i < 6 ensures Bit(n, i) == Bit(x % 64, i) {
      }
      SameBits(n, x % 64, 6);
    }
  }

  /** An address is taken modulo the 2 MiB of the scratchpad and points to a word. */
  lemma {:induction false} IndexIs(a: Word)
    ensures ScratchIndex(a) == a % 0x20_0000 / 8 && PairIndex(a) == a % 0x20_0000 / 16 * 2
  {
    WordOf(a, 8, 0x4_0000);
    WordOf(a, 16, 0x2_0000);
  }

  lemma {:induction false} WordOf(a: nat, u: nat, n: nat)
    requires u > 0 && n > 0
    ensures a / u % n == a % (u * n) / u
  {
    var q, r := a / (u * n), a % (u * n);
    Quotient(a, u * n);
    Quotient(r, u);
    MulFacts(q, u, n);
    var s := r / u;
    assert (s + 1) * u == s * u + u;
    Retarget.DivUnique(a, u, q * n + s);
    assert a / u == q * n + s;
    Retarget.DivGalois(u * n - 1, u, s);
    Below(s, u, n, r);
    Retarget.DivUnique(q * n + s, n, q);
    Quotient(q * n + s, n);
  }

  lemma {:induction false} MulFacts(q: nat, u: nat, n: nat)
    ensures q * (u * n) == q * n * u && q * n >= 0 && q * (u * n) >= 0 && u * n >= 0
  {
  }

  lemma {:induction false} Below(s: nat, u: nat, n: nat, r: nat)
    requires s * u <= r < u * n
    ensures s < n
  {
    if s >= n {
      MulOrder(n, s, u);
    }
  }

  // -------------------------------------------------------------- integer operations

  /** Nothing but register `d` differs. */
  ghost predicate OnlyReg(m: Regs, m': Regs, d: nat) {
    m'.f == m.f && m'.sc == m.sc && |m'.r| == |m.r| && forall i :: 0 <= i < |m.r| && i != d ==> m'.r[i] == m.r[i]
  }

  /** Operations 0 to 5 on the integer registers: add, odd multiply, high multiply, exclusive or,
      rotate, negate. */
  lemma {:induction false} IntegerOps(e: Epoch, ins: Instr, loop: Word, m: Regs, n: nat)
    requires m.Valid() && ins.op <= 5
    ensures var d, imm, x, y := ins.dst % 16, ins.imm, m.r[ins.dst % 16], m.r[ins.src % 16];
      var m' := Exec(e, ins, loop, m);
      && OnlyReg(m, m', d)
      && (ins.op == 0 ==> m'.r[d] == (x + y + imm) % 0x1_0000_0000_0000_0000)
      && (ins.op == 1 ==> m'.r[d] == x * (if y % 2 == 1 then y else y + 1) % 0x1_0000_0000_0000_0000)
      && (ins.op == 2 ==> Xors(m'.r[d], x * y / 0x1_0000_0000_0000_0000, imm))
      && (ins.op == 3 ==> Xors(m'.r[d], x, (y + e.rotSalt) % 0x1_0000_0000_0000_0000))
      && (ins.op == 4 && SixBits(n, y, imm) ==> Rotated(m'.r[d], x, n))
      && (ins.op == 5 ==> m'.r[d] == (imm - 1 - x) % 0x1_0000_0000_0000_0000)
  {
    var x, y, imm := m.r[ins.dst % 16], m.r[ins.src % 16], ins.imm;
    hide Xor, RotateRight, Xors, Rotated, SixBits, NormFloat, ScratchIndex, PairIndex, Add, Mul, MulHigh, Not, SetLowBit;
    if ins.op == 0 {
      AddThree(x, y, imm);
    } else if ins.op == 1 {
      MulOdd(x, y);
    } else if ins.op == 2 {
      MulUpper(x, y);
      XorIs(MulHigh(x, y), imm);
    } else if ins.op == 3 {
      AddIs(y, e.rotSalt);
      XorIs(x, Add(y, e.rotSalt));
    } else if ins.op == 4 {
      SixBitsIs(n, y, imm);
      RotatedIs(x, Xor(y, imm) % 64);
    } else {
      NegateIs(x, imm);
    }
  }

  lemma {:induction false} MulOdd(x: Word, y: Word)
    ensures Mul(x, SetLowBit(y)) == x * (if y % 2 == 1 then y else y + 1) % 0x1_0000_0000_0000_0000
  {
  }

  lemma {:induction false} MulUpper(x: Word, y: Word)
    ensures MulHigh(x, y) == x * y / 0x1_0000_0000_0000_0000
  {
  }

  lemma {:induction false} AddIs(x: Word, y: Word)
    ensures Add(x, y) == (x + y) % 0x1_0000_0000_0000_0000
  {
  }

  lemma {:induction false} AddThree(x: Word, y: Word, z: Word)
    ensures Add(x, Add(y, z)) == (x + y + z) % 0x1_0000_0000_0000_0000
  {
  }

  lemma {:induction false} NegateIs(x: Word, imm: Word)
    ensures Add(Not(x), imm) == (imm - 1 - x) % 0x1_0000_0000_0000_0000
  {
  }

  // --------------------------------------------------------------- memory operations

  /** Where an address lies in the 2 MiB of the scratchpad. */
  function Offset(a: Word, imm: Word): nat {
    (a + imm) % 0x20_0000
  }

  lemma {:induction false} OffsetIs(a: Word, imm: Word)
    ensures ScratchIndex(Add(a, imm)) == Offset(a, imm) / 8 && PairIndex(Add(a, imm)) == Offset(a, imm) / 16 * 2
  {
    IndexIs(Add(a, imm));
    OffsetSum(a, imm);
    hide ScratchIndex, PairIndex, Add, Offset;
  }

  lemma {:induction false} OffsetSum(a: Word, imm: Word)
    ensures Add(a, imm) % 0x20_0000 == Offset(a, imm)
  {
    assert Add(a, imm) == if a + imm < TWO64 then a + imm else a + imm - TWO64;
    hide Add;
  }

  /** Operation 10 xors the scratchpad word under its address into a register. */
  lemma {:induction false} LoadOp(e: Epoch, ins: Instr, loop: Word, m: Regs)
    requires m.Valid() && ins.op == 10
    ensures var d, m' := ins.dst % 16, Exec(e, ins, loop, m);
      OnlyReg(m, m', d) && Xors(m'.r[d], m.r[d], m.sc[Offset(m.r[ins.src % 16], ins.imm) / 8])
  {
    hide Xor, Xors, ScratchIndex, Add, Offset;
    OffsetIs(m.r[ins.src % 16], ins.imm);
    XorIs(m.r[ins.dst % 16], m.sc[ScratchIndex(Add(m.r[ins.src % 16], ins.imm))]);
  }

  /** Operation 11 xors a register and the loop number into the scratchpad word under its address. */
  lemma {:induction false} StoreOp(e: Epoch, ins: Instr, loop: Word, m: Regs)
    requires m.Valid() && ins.op == 11
    ensures var w, m' := Offset(m.r[ins.dst % 16], ins.imm) / 8, Exec(e, ins, loop, m);
      && m'.r == m.r && m'.f == m.f && m'.sc == m.sc[w := m'.sc[w]]
      && Xors(m'.sc[w], m.sc[w], (m.r[ins.src % 16] + loop) % 0x1_0000_0000_0000_0000)
  {
    AddIs(m.r[ins.src % 16], loop);
    hide Xor, Xors, ScratchIndex, Add, Offset;
    OffsetIs(m.r[ins.dst % 16], ins.imm);
    XorIs(m.sc[ScratchIndex(Add(m.r[ins.dst % 16], ins.imm))], Add(m.r[ins.src % 16], loop));
  }

  /** Operation 12 changes nothing, and 13 runs an aligned pair of words through one AES round and
      xors the first one that comes out into a register. */
  lemma {:induction false} AesOp(e: Epoch, ins: Instr, loop: Word, m: Regs)
    requires m.Valid()
    ensures ins.op == 12 ==> Exec(e, ins, loop, m) == m
    ensures ins.op == 13 ==>
      var d, w, m' := ins.dst % 16, Offset(m.r[ins.src % 16], ins.imm) / 16 * 2, Exec(e, ins, loop, m);
      var (lo, hi) := e.aes(m.sc[w], m.sc[w + 1]);
      OnlyReg(m, m'.(sc := m.sc), d) && m'.sc == m.sc[w := lo][w + 1 := hi] && Xors(m'.r[d], m.r[d], lo)
  {
    hide Xor, Xors, PairIndex, Add, Offset;
    OffsetIs(m.r[ins.src % 16], ins.imm);
    if ins.op == 13 {
      var w := PairIndex(Add(m.r[ins.src % 16], ins.imm));
      XorIs(m.r[ins.dst % 16], e.aes(m.sc[w], m.sc[w + 1]).0);
    }
  }

  // ---------------------------------------------------------------- float operations

  /** Nothing but float register `d` differs. */
  ghost predicate OnlyFloat(m: Regs, m': Regs, d: nat) {
    m'.r == m.r && m'.sc == m.sc && |m'.f| == |m.f| && forall i :: 0 <= i < |m.f| && i != d ==> m'.f[i] == m.f[i]
  }

  /** Operations 6 to 9 add, multiply, divide by a normalised divisor, and take the root of the
      magnitude. A result that is not a number, infinite or zero is replaced by the normalised target
      register, its lowest bit set (`fixed`). */
  lemma {:induction false} FloatOps(e: Epoch, ins: Instr, loop: Word, m: Regs, divisor: Word, fixed: Word)
    requires m.Valid() && 6 <= ins.op <= 9
    requires Normal(divisor, m.f[ins.src % 16 % 8])
    requires var x := m.r[ins.dst % 16]; Normal(fixed, if x % 2 == 1 then x else x + 1)
    ensures var d, a, b := ins.dst % 16 % 8, m.f[ins.dst % 16 % 8], m.f[ins.src % 16 % 8];
      var v := if ins.op == 6 then e.fpu.add(a, b) else if ins.op == 7 then e.fpu.mul(a, b)
        else if ins.op == 8 then e.fpu.div(a, divisor) else e.fpu.sqrtAbs(a);
      var m' := Exec(e, ins, loop, m);
      OnlyFloat(m, m', d) && m'.f[d] == if e.fpu.bad(v) then fixed else v
  {
    NormalIs(divisor, m.f[ins.src % 16 % 8]);
    NormalIs(fixed, SetLowBit(m.r[ins.dst % 16]));
    hide Xor, NormFloat, Normal, ScratchIndex, PairIndex, RotateRight;
  }

  /** Operation 14 couples the register files: an even immediate xors a float register into an
      integer one, an odd one multiplies a float register by a normalised integer one. */
  lemma {:induction false} CrossOp(e: Epoch, ins: Instr, loop: Word, m: Regs, factor: Word)
    requires m.Valid() && ins.op == 14 && Normal(factor, m.r[ins.src % 16])
    ensures var d, s := ins.dst % 16, ins.src % 16;
      var m' := Exec(e, ins, loop, m);
      && (ins.imm % 2 == 0 ==> OnlyReg(m, m', d) && Xors(m'.r[d], m.r[d], m.f[s % 8]))
      && (ins.imm % 2 == 1 ==> OnlyFloat(m, m', d % 8) && m'.f[d % 8] == e.fpu.mul(m.f[d % 8], factor))
  {
    NormalIs(factor, m.r[ins.src % 16]);
    XorIs(m.r[ins.dst % 16], m.f[ins.src % 16 % 8]);
    hide Xor, Xors, NormFloat, Normal, ScratchIndex, PairIndex, RotateRight;
  }

  // ------------------------------------------------------------------ runs, by steps

  /** Where the interpreter stands. */
  datatype Spot = Spot(m: Regs, taken: seq<nat>, pc: int)

  /** One instruction: a branch goes back by one to 31 places, but not below the start, and anything
      else goes on to the next. */
  ghost predicate OneStep(e: Epoch, prog: seq<Instr>, loop: Word, s: Spot, s': Spot) {
    && s.m.Valid() && |s.taken| == |prog| && 0 <= s.pc < |prog|
    && var ins, back := prog[s.pc], prog[s.pc].imm % 31 + 1;
    if Branches(e, ins, s.m.r, s.taken[s.pc]) then
      && s'.m == s.m && s'.taken == s.taken[s.pc := s.taken[s.pc] + 1]
      && s'.pc == (if s.pc >= back then s.pc - back else 0)
    else s' == Spot(Exec(e, ins, loop, s.m), s.taken, s.pc + 1)
  }

  ghost predicate Steps(e: Epoch, prog: seq<Instr>, loop: Word, spots: seq<Spot>) {
    forall i :: 0 <= i < |spots| - 1 ==> OneStep(e, prog, loop, spots[i], spots[i + 1])
  }

  lemma {:induction false} StepsFrom(e: Epoch, prog: seq<Instr>, loop: Word, spots: seq<Spot>, i: nat)
    requires Steps(e, prog, loop, spots) && i < |spots|
    requires forall k :: 0 <= k < |spots| ==> spots[k].m.Valid() && |spots[k].taken| == |prog| && 0 <= spots[k].pc <= |prog|
    requires spots[|spots| - 1].pc == |prog|
    ensures RunFrom(e, prog, loop, spots[i].m, spots[i].taken, spots[i].pc) == (spots[|spots| - 1].m, |spots| - 1 - i)
    decreases |spots| - i
  {
    hide Branches, Exec, RunFrom;
    var s := spots[i];
    if i + 1 < |spots| {
      StepsFrom(e, prog, loop, spots, i + 1);
      assert OneStep(e, prog, loop, s, spots[i + 1]);
      RunStep(e, prog, loop, s.m, s.taken, s.pc);
    } else {
      RunEnds(e, prog, loop, s.m, s.taken);
    }
  }

  lemma {:induction false} StepsStay(e: Epoch, prog: seq<Instr>, loop: Word, spots: seq<Spot>, k: nat)
    requires Steps(e, prog, loop, spots) && k < |spots|
    requires spots[0].m.Valid() && |spots[0].taken| == |prog| && 0 <= spots[0].pc <= |prog|
    ensures spots[k].m.Valid() && |spots[k].taken| == |prog| && 0 <= spots[k].pc <= |prog|
  {
    hide Branches, Body, Repair;
    if k > 0 {
      StepsStay(e, prog, loop, spots, k - 1);
      assert OneStep(e, prog, loop, spots[k - 1], spots[k]);
    }
  }

  /** Any sequence of single steps from the first instruction to the end is the run of the outer
      loop: it ends in the same registers and scratchpad, and has at most 257 steps per instruction
      of the program. */
  lemma {:induction false} RunIsSteps(e: Epoch, prog: seq<Instr>, loop: Word, m: Regs, spots: seq<Spot>)
    requires m.Valid() && |spots| > 0 && spots[0] == Spot(m, seq(|prog|, _ => 0), 0)
    requires Steps(e, prog, loop, spots) && spots[|spots| - 1].pc == |prog|
    ensures spots[|spots| - 1].m == Run(e, prog, loop, m)
    ensures |spots| - 1 <= 257 * |prog|
  {
    hide Steps, Branches, Exec, RunFrom;
    forall k | 0 <= k < |spots|
      ensures spots[k].m.Valid() && |spots[k].taken| == |prog| && 0 <= spots[k].pc <= |prog|
    {
      StepsStay(e, prog, loop, spots, k);
    }
    assert spots[0].taken == Zeros(|prog|);
    StepsFrom(e, prog, loop, spots, 0);
    StepBound(e, prog, loop, m);
  }

  // ------------------------------------------------------------------ the whole hash

  /** Registers 0 to 3 start as the seed, the other twelve as scratchpad words under the salt, and
      the float registers as the words after them, normalised. */
  lemma {:induction false} StartIs(e: Epoch, job: Job, i: nat)
    requires job.Valid() && i < 16
    ensures var m := Start(e, job);
      && m.sc == job.fill
      && (i < 4 ==> m.r[i] == job.seed[i])
      && (i >= 4 ==> Xors(m.r[i], job.fill[i], e.rotSalt))
      && (i < 8 ==> Normal(m.f[i], job.fill[i + 16]))
  {
    hide Xor, NormFloat, Xors, Normal;
    XorIs(job.fill[i], e.rotSalt);
    if i < 8 {
      NormalIs(Start(e, job).f[i], job.fill[i + 16]);
    }
  }

  /** The hash is the outer loops 0, 1, 2, ... in turn, each one a run of the program, from height
      240 on a dataset walk, and a fold. */
  lemma {:induction false} HashIsLoops(e: Epoch, job: Job, useDs: bool, ms: seq<Regs>)
    requires e.Valid() && job.Valid() && |ms| == e.loops + 1 && ms[0] == Start(e, job)
    requires forall i :: 0 <= i < |ms| - 1 ==> IsLoop(e, job.prog, useDs, i, ms[i], ms[i + 1])
    ensures ms[e.loops].Valid()
    ensures HashOf(e, job, useDs) == Preimage(job.seed, ms[e.loops].r, ms[e.loops].f, Columns(ms[e.loops].sc, 0x8000))
  {
    hide Columns, Start, Loops, IsLoop;
    LoopsAre(e, job, useDs, ms, e.loops);
  }

  ghost predicate IsLoop(e: Epoch, prog: seq<Instr>, useDs: bool, loop: nat, m: Regs, m': Regs)
  {
    && e.Valid() && m.Valid() && loop < TWO64
    && var run := Run(e, prog, loop, m);
    m' == LoopFold(loop, if useDs then run.(r := WalkFrom(e, loop, run.r, FirstAddress(e, run.r), 0)) else run)
  }

  lemma {:induction false} LoopsAre(e: Epoch, job: Job, useDs: bool, ms: seq<Regs>, n: nat)
    requires e.Valid() && job.Valid() && n < |ms| <= e.loops + 1 && ms[0] == Start(e, job)
    requires forall i :: 0 <= i < |ms| - 1 ==> IsLoop(e, job.prog, useDs, i, ms[i], ms[i + 1])
    ensures Loops(e, job.prog, useDs, n, Start(e, job)) == ms[n]
  {
    hide Start, Run, WalkFrom, FirstAddress, LoopFold;
    if n > 0 {
      LoopsAre(e, job, useDs, ms, n - 1);
      assert IsLoop(e, job.prog, useDs, n - 1, ms[n - 1], ms[n]);
    }
  }

  /** One dataset read: a register takes in the word under the address, and the next address is that
      word, the register after it and the loop number, added up. The first is register 1 under the
      salt, and an address is taken modulo the 64 MiB of the dataset. */
  lemma {:induction false} WalkStepIs(e: Epoch, loop: Word, r: seq<Word>, addr: Word, k: nat)
    requires e.Valid() && |r| == 16
    ensures var v := e.dataset[addr % 0x400_0000 / 8];
      var (r', next) := WalkStep(e, loop, r, addr, k);
      && r' == r[k % 16 := r'[k % 16]] && Xors(r'[k % 16], r[k % 16], v)
      && next == (v + r[(k + 1) % 16] + loop) % 0x1_0000_0000_0000_0000
    ensures Xors(FirstAddress(e, r), r[1], e.rotSalt)
  {
    DatasetIndexIs(addr);
    var v := e.dataset[DatasetIndex(addr)];
    XorIs(r[k % 16], v);
    XorIs(r[1], e.rotSalt);
    hide Xor, Xors, DatasetIndex, Add;
    NextTurnIs(k);
    AddLeft(v, r[(k + 1) % 16], loop);
  }

  lemma {:induction false} DatasetIndexIs(a: Word)
    ensures DatasetIndex(a) == a % 0x400_0000 / 8
  {
  }

  lemma {:induction false} NextTurnIs(k: nat)
    ensures (k + 1) % 16 != k % 16
  {
  }

  lemma {:induction false} AddLeft(x: Word, y: Word, z: Word)
    ensures Add(Add(x, y), z) == (x + y + z) % 0x1_0000_0000_0000_0000
  {
  }
}
