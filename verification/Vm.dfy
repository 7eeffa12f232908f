/** The NeuroMorph machine (neuromorph/neuromorph.go): one instruction, one outer loop with its
    bounded backward branches, and the whole hash; the Go interpreter refines them. Floating
    point and AES are arbitrary functions on words. */
module Vm {
  import opened Words

  const NUM_OPS := 15
  const IADD := 0
  const IMUL := 1
  const IMULH := 2
  const IXOR := 3
  const IROTR := 4
  const INEG := 5
  const FADD := 6
  const FMUL := 7
  const FDIV := 8
  const FSQRT := 9
  const LOAD := 10
  const STORE := 11
  const CBRANCH := 12
  const AESR := 13
  const XDOM := 14

  const MAX_TAKEN := 8
  const READS_PER_LOOP := 64
  const FOLD_SALT: Word := 0x9E37_79B9_7F4A_7C15

  /** IEEE-754 on bit patterns; `bad`: NaN, infinite or zero. */
  datatype Fpu = Fpu(add: (Word, Word) -> Word, mul: (Word, Word) -> Word, div: (Word, Word) -> Word,
                     sqrtAbs: Word -> Word, bad: Word -> bool)

  /** What DeriveParams fixes for an epoch, with the dataset and the round function. The branch
      mask is 0xFF << branchShift. */
  datatype Epoch = Epoch(progSize: nat, loops: nat, branchShift: nat, rotSalt: Word, dataset: seq<Word>,
                         aes: (Word, Word) -> (Word, Word), fpu: Fpu)
  {
    predicate Valid() {
      |dataset| == DATASET_WORDS && loops <= 64
    }
  }

  datatype Instr = Instr(op: nat, dst: nat, src: nat, imm: Word)

  /** The registers and the scratchpad. */
  datatype Regs = Regs(r: seq<Word>, f: seq<Word>, sc: seq<Word>) {
    predicate Valid() {
      |r| == 16 && |f| == 8 && |sc| == SCRATCH_WORDS
    }
  }

  // ------------------------------------------------------------- one instruction

  predicate IsFloat(op: nat) { FADD <= op <= FSQRT }

  /** The effect of an instruction that does not branch, before the float repair. */
  function Body(e: Epoch, ins: Instr, loop: Word, m: Regs): (m': Regs)
    requires m.Valid()
    ensures m'.Valid()
  {
    var d, s, imm := ins.dst % 16, ins.src % 16, ins.imm;
    var df, sf := d % 8, s % 8;
    var r, f, sc := m.r, m.f, m.sc;
    if ins.op == IADD then m.(r := r[d := Add(r[d], Add(r[s], imm))])
    else if ins.op == IMUL then m.(r := r[d := Mul(r[d], SetLowBit(r[s]))])
    else if ins.op == IMULH then m.(r := r[d := Xor(MulHigh(r[d], r[s]), imm)])
    else if ins.op == IXOR then m.(r := r[d := Xor(r[d], Add(r[s], e.rotSalt))])
    else if ins.op == IROTR then m.(r := r[d := RotateRight(r[d], Xor(r[s], imm) % 64)])
    else if ins.op == INEG then m.(r := r[d := Add(Not(r[d]), imm)])
    else if ins.op == FADD then m.(f := f[df := e.fpu.add(f[df], f[sf])])
    else if ins.op == FMUL then m.(f := f[df := e.fpu.mul(f[df], f[sf])])
    else if ins.op == FDIV then m.(f := f[df := e.fpu.div(f[df], NormFloat(f[sf]))])
    else if ins.op == FSQRT then m.(f := f[df := e.fpu.sqrtAbs(f[df])])
    else if ins.op == LOAD then m.(r := r[d := Xor(r[d], sc[ScratchIndex(Add(r[s], imm))])])
    else if ins.op == STORE then
      var w := ScratchIndex(Add(r[d], imm));
      m.(sc := sc[w := Xor(sc[w], Add(r[s], loop))])
    else if ins.op == AESR then
      var w := PairIndex(Add(r[s], imm));
      var (lo, hi) := e.aes(sc[w], sc[w + 1]);
      Regs(r[d := Xor(r[d], lo)], f, sc[w := lo][w + 1 := hi])
    else if ins.op == XDOM then
      if imm % 2 == 0 then m.(r := r[d := Xor(r[d], f[sf])])
      else m.(f := f[df := e.fpu.mul(f[df], NormFloat(r[s]))])
    else m
  }

  /** The repair after a float instruction: a NaN, infinity or zero is replaced. */
  function Repair(e: Epoch, ins: Instr, m: Regs): (m': Regs)
    requires m.Valid()
    ensures m'.Valid()
  {
    var d := ins.dst % 16;
    if e.fpu.bad(m.f[d % 8]) then m.(f := m.f[d % 8 := NormFloat(SetLowBit(m.r[d]))]) else m
  }

  function Exec(e: Epoch, ins: Instr, loop: Word, m: Regs): (m': Regs)
    requires m.Valid()
    ensures m'.Valid()
  {
    if IsFloat(ins.op) then Repair(e, ins, Body(e, ins, loop, m)) else Body(e, ins, loop, m)
  }

  /** CBRANCH: the masked bits are zero and this branch was taken fewer than 8 times. */
  predicate Branches(e: Epoch, ins: Instr, r: seq<Word>, taken: nat)
    requires |r| == 16
  {
    ins.op == CBRANCH && Add(r[ins.dst % 16], ins.imm) / Pow2(e.branchShift) % 256 == 0 && taken < MAX_TAKEN
  }

  function Target(pc: nat, imm: Word): (t: nat)
    ensures t <= pc && pc - t <= 31
  {
    var back := imm % 31 + 1;
    if pc < back then 0 else pc - back
  }

  // ---------------------------------------------------------------- one outer loop

  /** Branches that may still be taken. */
  function Slack(taken: seq<nat>): nat {
    if |taken| == 0 then 0
    else Slack(taken[..|taken| - 1]) + if taken[|taken| - 1] < MAX_TAKEN then MAX_TAKEN - taken[|taken| - 1] else 0
  }

  /** Each backward branch costs one unit of slack and gives back at most 31 instructions. */
  function Potential(n: nat, taken: seq<nat>, pc: nat): nat
    requires pc <= n
  {
    n - pc + 32 * Slack(taken)
  }

  lemma {:induction false} SlackTaken(taken: seq<nat>, i: nat)
    requires i < |taken| && taken[i] < MAX_TAKEN
    ensures Slack(taken[i := taken[i] + 1]) == Slack(taken) - 1
    decreases |taken|
  {
    var n, t := |taken| - 1, taken[i := taken[i] + 1];
    if i < n {
      SlackTaken(taken[..n], i);
      assert t[..n] == taken[..n][i := taken[i] + 1];
    } else {
      assert t[..n] == taken[..n];
    }
  }

  lemma {:induction false} SlackFresh(taken: seq<nat>)
    requires forall i :: 0 <= i < |taken| ==> taken[i] == 0
    ensures Slack(taken) == 8 * |taken|
  {
    if |taken| > 0 {
      SlackFresh(taken[..|taken| - 1]);
    }
  }

  /** The outer loop from `pc` on: the final registers and the number of instructions executed. */
  function RunFrom(e: Epoch, prog: seq<Instr>, loop: Word, m: Regs, taken: seq<nat>, pc: nat): (res: (Regs, nat))
    requires m.Valid() && |taken| == |prog| && pc <= |prog|
    ensures res.0.Valid() && res.1 <= Potential(|prog|, taken, pc)
    decreases Potential(|prog|, taken, pc)
  {
    if pc == |prog| then (m, 0)
    else
      var ins := prog[pc];
      if Branches(e, ins, m.r, taken[pc]) then
        SlackTaken(taken, pc);
        var rest := RunFrom(e, prog, loop, m, taken[pc := taken[pc] + 1], Target(pc, ins.imm));
        (rest.0, rest.1 + 1)
      else
        var rest := RunFrom(e, prog, loop, Exec(e, ins, loop, m), taken, pc + 1);
        (rest.0, rest.1 + 1)
  }

  /** One instruction of an outer loop. */
  lemma {:induction false} RunStep(e: Epoch, prog: seq<Instr>, loop: Word, m: Regs, taken: seq<nat>, pc: nat)
    requires m.Valid() && |taken| == |prog| && pc < |prog|
    ensures var ins, all := prog[pc], RunFrom(e, prog, loop, m, taken, pc);
      var rest := if Branches(e, ins, m.r, taken[pc])
        then RunFrom(e, prog, loop, m, taken[pc := taken[pc] + 1], Target(pc, ins.imm))
        else RunFrom(e, prog, loop, Exec(e, ins, loop, m), taken, pc + 1);
      all.0 == rest.0 && all.1 == rest.1 + 1
  {
    hide Branches, Exec;
  }

  function Zeros(n: nat): (z: seq<nat>)
    ensures |z| == n && forall i :: 0 <= i < n ==> z[i] == 0
  {
    seq(n, _ => 0)
  }

  function Run(e: Epoch, prog: seq<Instr>, loop: Word, m: Regs): (m': Regs)
    requires m.Valid()
    ensures m'.Valid()
  {
    RunFrom(e, prog, loop, m, Zeros(|prog|), 0).0
  }

  /** Every outer loop halts within 257 * ProgSize instructions, for every program and every
      register and scratchpad contents. */
  lemma {:induction false} StepBound(e: Epoch, prog: seq<Instr>, loop: Word, m: Regs)
    requires m.Valid()
    ensures RunFrom(e, prog, loop, m, Zeros(|prog|), 0).1 <= 257 * |prog|
  {
    SlackFresh(Zeros(|prog|));
  }

  // ---------------------------------------------------------- the Go interpreter

  ghost function Now(r: array<Word>, f: array<Word>, sc: array<Word>): Regs
    reads r, f, sc
  {
    Regs(r[..], f[..], sc[..])
  }

  /** Four separate buffers of the right sizes. */
  ghost predicate Buffers(r: array<Word>, f: array<Word>, sc: array<Word>, taken: array<nat>) {
    && r.Length == 16 && f.Length == 8 && sc.Length == SCRATCH_WORDS
    && r != f && r != sc && f != sc
  }

  /** The instruction bodies: the same text in the Go switch and behind the C labels. */
  method Execute(e: Epoch, ins: Instr, loop: Word, r: array<Word>, f: array<Word>, sc: array<Word>)
    requires r.Length == 16 && f.Length == 8 && sc.Length == SCRATCH_WORDS && r != f && r != sc && f != sc
    modifies r, f, sc
    ensures Now(r, f, sc) == Body(e, ins, loop, old(Now(r, f, sc)))
  {
    hide Add, Mul, MulHigh, Xor, Not, SetLowBit, RotateRight, NormFloat, ScratchIndex, PairIndex;
    var d, s, imm := ins.dst % 16, ins.src % 16, ins.imm;
    if ins.op == IADD {
      r[d] := Add(r[d], Add(r[s], imm));
    } else if ins.op == IMUL {
      r[d] := Mul(r[d], SetLowBit(r[s]));
    } else if ins.op == IMULH {
      r[d] := Xor(MulHigh(r[d], r[s]), imm);
    } else if ins.op == IXOR {
      r[d] := Xor(r[d], Add(r[s], e.rotSalt));
    } else if ins.op == IROTR {
      r[d] := RotateRight(r[d], Xor(r[s], imm) % 64);
    } else if ins.op == INEG {
      r[d] := Add(Not(r[d]), imm);
    } else if ins.op == FADD {
      f[d % 8] := e.fpu.add(f[d % 8], f[s % 8]);
    } else if ins.op == FMUL {
      f[d % 8] := e.fpu.mul(f[d % 8], f[s % 8]);
    } else if ins.op == FDIV {
      f[d % 8] := e.fpu.div(f[d % 8], NormFloat(f[s % 8]));
    } else if ins.op == FSQRT {
      f[d % 8] := e.fpu.sqrtAbs(f[d % 8]);
    } else if ins.op == LOAD {
      r[d] := Xor(r[d], sc[ScratchIndex(Add(r[s], imm))]);
    } else if ins.op == STORE {
      var w := ScratchIndex(Add(r[d], imm));
      sc[w] := Xor(sc[w], Add(r[s], loop));
    } else if ins.op == AESR {
      var w := PairIndex(Add(r[s], imm));
      var out := e.aes(sc[w], sc[w + 1]);
      sc[w] := out.0;
      sc[w + 1] := out.1;
      r[d] := Xor(r[d], sc[w]);
    } else if ins.op == XDOM {
      if imm % 2 == 0 {
        r[d] := Xor(r[d], f[s % 8]);
      } else {
        f[d % 8] := e.fpu.mul(f[d % 8], NormFloat(r[s]));
      }
    }
  }

  /** The keep-floats-finite step. */
  method RepairFloat(e: Epoch, ins: Instr, r: array<Word>, f: array<Word>, sc: array<Word>)
    requires r.Length == 16 && f.Length == 8 && sc.Length == SCRATCH_WORDS && r != f && f != sc
    modifies f
    ensures Now(r, f, sc) == Repair(e, ins, old(Now(r, f, sc)))
  {
    var d := ins.dst % 16;
    if e.fpu.bad(f[d % 8]) {
      f[d % 8] := NormFloat(SetLowBit(r[d]));
    }
  }

  method ClearTaken(taken: array<nat>)
    modifies taken
    ensures taken[..] == Zeros(taken.Length)
  {
    for i := 0 to taken.Length
      invariant forall j :: 0 <= j < i ==> taken[j] == 0
    {
      taken[i] := 0;
    }
  }

  /** The instruction loop of Hash: a switch in a loop over pc. */
  method RunLoop(e: Epoch, prog: seq<Instr>, loop: Word, r: array<Word>, f: array<Word>, sc: array<Word>,
      taken: array<nat>)
    returns (ghost steps: nat)
    requires Buffers(r, f, sc, taken) && taken.Length == |prog|
    modifies r, f, sc, taken
    ensures Now(r, f, sc) == Run(e, prog, loop, old(Now(r, f, sc)))
    ensures steps <= 257 * |prog|
  {
    hide Body, Repair, Branches, Pow2, RunFrom, Slack, Target;
    ghost var goal := RunFrom(e, prog, loop, Now(r, f, sc), Zeros(|prog|), 0);
    StepBound(e, prog, loop, Now(r, f, sc));
    ClearTaken(taken);
    RunIs(e, prog, loop, Now(r, f, sc));
    steps := 0;
    var pc: nat := 0;
    while pc < |prog|
      invariant pc <= |prog|
      invariant var rest := RunFrom(e, prog, loop, Now(r, f, sc), taken[..], pc);
        rest.0 == goal.0 && steps + rest.1 == goal.1
      decreases Potential(|prog|, taken[..], pc)
    {
      var ins := prog[pc];
      steps := steps + 1;
      RunStep(e, prog, loop, Now(r, f, sc), taken[..], pc);
      if Branches(e, ins, r[..], taken[pc]) {
        BranchTaken(e, ins, r[..], taken[pc]);
        SlackTaken(taken[..], pc);
        taken[pc] := taken[pc] + 1;
        pc := Target(pc, ins.imm);
        continue;
      }
      Execute(e, ins, loop, r, f, sc);
      if IsFloat(ins.op) {
        RepairFloat(e, ins, r, f, sc);
      }
      pc := pc + 1;
    }
    RunEnds(e, prog, loop, Now(r, f, sc), taken[..]);
  }

  lemma {:induction false} RunIs(e: Epoch, prog: seq<Instr>, loop: Word, m: Regs)
    requires m.Valid()
    ensures Run(e, prog, loop, m) == RunFrom(e, prog, loop, m, Zeros(|prog|), 0).0
  {
  }

  lemma {:induction false} RunEnds(e: Epoch, prog: seq<Instr>, loop: Word, m: Regs, taken: seq<nat>)
    requires m.Valid() && |taken| == |prog|
    ensures RunFrom(e, prog, loop, m, taken, |prog|) == (m, 0)
  {
  }

  lemma {:induction false} BranchTaken(e: Epoch, ins: Instr, r: seq<Word>, taken: nat)
    requires |r| == 16 && Branches(e, ins, r, taken)
    ensures taken < MAX_TAKEN
  {
  }

  // ------------------------------------------------------- the rest of the hash

  const DATASET_HEIGHT := 240

  /** The dataset reads from read `k` on: each address depends on the value just read. */
  function WalkFrom(e: Epoch, loop: Word, r: seq<Word>, addr: Word, k: nat): (r': seq<Word>)
    requires e.Valid() && |r| == 16 && k <= READS_PER_LOOP
    ensures |r'| == 16
    decreases READS_PER_LOOP - k
  {
    if k == READS_PER_LOOP then r
    else
      var (next, a) := WalkStep(e, loop, r, addr, k);
      WalkFrom(e, loop, next, a, k + 1)
  }

  function WalkStep(e: Epoch, loop: Word, r: seq<Word>, addr: Word, k: nat): (res: (seq<Word>, Word))
    requires e.Valid() && |r| == 16
    ensures |res.0| == 16
  {
    var v := e.dataset[DatasetIndex(addr)];
    var next := r[k % 16 := Xor(r[k % 16], v)];
    (next, Add(Add(v, next[(k + 1) % 16]), loop))
  }

  function FirstAddress(e: Epoch, r: seq<Word>): Word
    requires |r| == 16
  {
    Xor(r[1], e.rotSalt)
  }

  function FoldBase(r: seq<Word>, loop: Word): (base: nat)
    requires |r| == 16
    ensures base < SCRATCH_WORDS
  {
    ScratchIndex(Xor(r[0], Mul(loop, FOLD_SALT)))
  }

  /** The first `n` registers xored into the scratchpad from `base` on, wrapping around. */
  function FoldIn(sc: seq<Word>, base: nat, r: seq<Word>, n: nat): (sc': seq<Word>)
    requires |sc| == SCRATCH_WORDS && n <= |r|
    ensures |sc'| == SCRATCH_WORDS
  {
    if n == 0 then sc
    else
      var s, w := FoldIn(sc, base, r, n - 1), (base + n - 1) % SCRATCH_WORDS;
      s[w := Xor(s[w], r[n - 1])]
  }

  /** The float registers xored into the upper integer registers. */
  function MixIn(r: seq<Word>, f: seq<Word>, n: nat): (r': seq<Word>)
    requires |r| == 16 && |f| == 8 && n <= 8
    ensures |r'| == 16
  {
    if n == 0 then r
    else
      var s := MixIn(r, f, n - 1);
      s[n + 7 := Xor(s[n + 7], f[n - 1])]
  }

  function LoopFold(loop: Word, m: Regs): (m': Regs)
    requires m.Valid()
    ensures m'.Valid()
  {
    Regs(MixIn(m.r, m.f, 8), m.f, FoldIn(m.sc, FoldBase(m.r, loop), m.r, 16))
  }

  function Walked(e: Epoch, useDs: bool, loop: Word, m: Regs): (m': Regs)
    requires e.Valid() && m.Valid()
    ensures m'.Valid()
  {
    if useDs then m.(r := WalkFrom(e, loop, m.r, FirstAddress(e, m.r), 0)) else m
  }

  function OuterLoop(e: Epoch, prog: seq<Instr>, useDs: bool, loop: Word, m: Regs): (m': Regs)
    requires e.Valid() && m.Valid()
    ensures m'.Valid()
  {
    LoopFold(loop, Walked(e, useDs, loop, Run(e, prog, loop, m)))
  }

  function Loops(e: Epoch, prog: seq<Instr>, useDs: bool, n: nat, m: Regs): (m': Regs)
    requires e.Valid() && m.Valid() && n <= e.loops
    ensures m'.Valid()
  {
    if n == 0 then m else OuterLoop(e, prog, useDs, n - 1, Loops(e, prog, useDs, n - 1, m))
  }

  /** What the header's seed expands to: its four words, the scratchpad fill and the program. */
  datatype Job = Job(seed: seq<Word>, fill: seq<Word>, prog: seq<Instr>) {
    predicate Valid() {
      |seed| == 4 && |fill| == SCRATCH_WORDS
    }
  }

  function StartInt(e: Epoch, job: Job, i: nat): Word
    requires job.Valid() && i < 16
  {
    if i < 4 then job.seed[i] else Xor(job.fill[i], e.rotSalt)
  }

  function Start(e: Epoch, job: Job): (m: Regs)
    requires job.Valid()
    ensures m.Valid()
  {
    Regs(seq(16, i requires 0 <= i < 16 => StartInt(e, job, i)),
         seq(8, i requires 0 <= i < 8 => NormFloat(job.fill[16 + i])), job.fill)
  }

  /** The xor of words j, j+8, j+16, ... of the first `rows` rows of eight. */
  function Column(sc: seq<Word>, j: nat, rows: nat): Word
    requires j < 8 && 8 * rows <= |sc|
  {
    if rows == 0 then 0 else Xor(Column(sc, j, rows - 1), sc[8 * (rows - 1) + j])
  }

  function Columns(sc: seq<Word>, rows: nat): (fold: seq<Word>)
    requires 8 * rows <= |sc|
    ensures |fold| == 8
  {
    seq(8, j requires 0 <= j < 8 => Column(sc, j, rows))
  }

  /** What the final SHA-256 is taken of. */
  datatype Preimage = Preimage(seed: seq<Word>, r: seq<Word>, f: seq<Word>, fold: seq<Word>)

  function HashOf(e: Epoch, job: Job, useDs: bool): Preimage
    requires e.Valid() && job.Valid()
  {
    var m := Loops(e, job.prog, useDs, e.loops, Start(e, job));
    Preimage(job.seed, m.r, m.f, Columns(m.sc, SCRATCH_WORDS / 8))
  }

  // ------------------------------------------------------------------ in Go

  method CopyFill(fill: seq<Word>, sc: array<Word>)
    requires |fill| == sc.Length
    modifies sc
    ensures sc[..] == fill
  {
    for i := 0 to sc.Length
      invariant sc[..i] == fill[..i]
    {
      sc[i] := fill[i];
    }
  }

  /** The registers before the first loop. */
  method InitRegisters(e: Epoch, job: Job, r: array<Word>, f: array<Word>, sc: array<Word>)
    requires job.Valid() && r.Length == 16 && f.Length == 8 && sc.Length == SCRATCH_WORDS && sc[..] == job.fill
    requires r != f && r != sc && f != sc
    modifies r, f
    ensures Now(r, f, sc) == Start(e, job)
  {
    hide NormFloat, Xor;
    for i := 0 to 4
      invariant forall j :: 0 <= j < i ==> r[j] == StartInt(e, job, j)
    {
      r[i] := job.seed[i];
    }
    for i := 4 to 16
      invariant forall j :: 0 <= j < i ==> r[j] == StartInt(e, job, j)
    {
      assert sc[i] == sc[..][i];
      r[i] := Xor(sc[i], e.rotSalt);
    }
    for i := 0 to 8
      invariant forall j :: 0 <= j < i ==> f[j] == NormFloat(job.fill[16 + j])
      invariant forall j :: 0 <= j < 16 ==> r[j] == StartInt(e, job, j)
    {
      assert sc[16 + i] == sc[..][16 + i];
      f[i] := NormFloat(sc[16 + i]);
    }
    assert r[..] == Start(e, job).r;
    assert f[..] == Start(e, job).f;
  }

  /** The memory-hard walk. */
  method WalkDataset(e: Epoch, loop: Word, r: array<Word>)
    requires e.Valid() && r.Length == 16
    modifies r
    ensures r[..] == WalkFrom(e, loop, old(r[..]), FirstAddress(e, old(r[..])), 0)
  {
    hide Xor, Add, DatasetIndex;
    var addr := Xor(r[1], e.rotSalt);
    ghost var goal := WalkFrom(e, loop, r[..], addr, 0);
    var k: nat := 0;
    while k < READS_PER_LOOP
      invariant k <= READS_PER_LOOP && WalkFrom(e, loop, r[..], addr, k) == goal
    {
      ghost var before := r[..];
      var v := e.dataset[DatasetIndex(addr)];
      r[k % 16] := Xor(r[k % 16], v);
      assert r[..] == before[k % 16 := Xor(before[k % 16], v)];
      addr := Add(Add(v, r[(k + 1) % 16]), loop);
      k := k + 1;
    }
  }

  /** Fold the registers back into the scratchpad: the same text in Go and in C (loop_fold). */
  method FoldRegisters(loop: Word, r: array<Word>, f: array<Word>, sc: array<Word>)
    requires r.Length == 16 && f.Length == 8 && sc.Length == SCRATCH_WORDS && r != f && r != sc && f != sc
    modifies r, sc
    ensures Now(r, f, sc) == LoopFold(loop, old(Now(r, f, sc)))
  {
    hide Xor, Mul, ScratchIndex;
    ghost var m := Now(r, f, sc);
    var base := ScratchIndex(Xor(r[0], Mul(loop, FOLD_SALT)));
    for i := 0 to 16
      invariant r[..] == m.r && f[..] == m.f && sc[..] == FoldIn(m.sc, base, m.r, i)
    {
      var w := (base + i) % SCRATCH_WORDS;
      sc[w] := Xor(sc[w], r[i]);
    }
    for i := 0 to 8
      invariant r[..] == MixIn(m.r, m.f, i) && f[..] == m.f && sc[..] == FoldIn(m.sc, base, m.r, 16)
    {
      r[i + 8] := Xor(r[i + 8], f[i]);
    }
  }

  lemma {:induction false} ColumnsStep(sc: seq<Word>, rows: nat, before: seq<Word>, after: seq<Word>)
    requires 8 * rows + 8 <= |sc| && before == Columns(sc, rows) && |after| == 8
    requires forall j :: 0 <= j < 8 ==> after[j] == Xor(before[j], sc[8 * rows + j])
    ensures after == Columns(sc, rows + 1)
  {
    hide Xor;
    forall j | 0 <= j < 8 ensures after[j] == Columns(sc, rows + 1)[j] {
      assert Columns(sc, rows + 1)[j] == Column(sc, j, rows + 1);
    }
  }

  method XorRow(acc: array<Word>, sc: array<Word>, i: nat)
    requires acc.Length == 8 && i + 8 <= sc.Length && acc != sc
    modifies acc
    ensures forall j :: 0 <= j < 8 ==> acc[j] == Xor(old(acc[j]), sc[i + j])
  {
    hide Xor;
    acc[0] := Xor(acc[0], sc[i + 0]);
    acc[1] := Xor(acc[1], sc[i + 1]);
    acc[2] := Xor(acc[2], sc[i + 2]);
    acc[3] := Xor(acc[3], sc[i + 3]);
    acc[4] := Xor(acc[4], sc[i + 4]);
    acc[5] := Xor(acc[5], sc[i + 5]);
    acc[6] := Xor(acc[6], sc[i + 6]);
    acc[7] := Xor(acc[7], sc[i + 7]);
  }

  /** The eight-way fold of the whole scratchpad. */
  method FinalFold(sc: array<Word>) returns (fold: seq<Word>)
    requires sc.Length % 8 == 0
    ensures fold == Columns(sc[..], sc.Length / 8)
  {
    var acc := new Word[8](_ => 0);
    var i, rows: nat := 0, 0;
    assert acc[..] == Columns(sc[..], 0);
    hide Xor, Columns;
    while i < sc.Length
      invariant i == 8 * rows <= sc.Length && acc[..] == Columns(sc[..], rows)
    {
      ghost var before := acc[..];
      XorRow(acc, sc, i);
      ColumnsStep(sc[..], rows, before, acc[..]);
      i, rows := i + 8, rows + 1;
    }
    fold := acc[..];
  }

  /** Hash at `height`, on the machine's own scratchpad and counters. */
  method Hash(e: Epoch, job: Job, height: nat, sc: array<Word>, taken: array<nat>) returns (h: Preimage)
    requires e.Valid() && job.Valid() && sc.Length == SCRATCH_WORDS && taken.Length == |job.prog|
    modifies sc, taken
    ensures h == HashOf(e, job, height >= DATASET_HEIGHT)
  {
    hide Start, OuterLoop, Run, WalkFrom, Walked, LoopFold, Columns, FirstAddress;
    var useDs := height >= DATASET_HEIGHT;
    var r, f := new Word[16], new Word[8];
    CopyFill(job.fill, sc);
    InitRegisters(e, job, r, f, sc);
    var loop: nat := 0;
    while loop < e.loops
      invariant loop <= e.loops
      invariant Now(r, f, sc) == Loops(e, job.prog, useDs, loop, Start(e, job))
    {
      GoLoop(e, job.prog, useDs, loop, r, f, sc, taken);
      loop := loop + 1;
    }
    var fold := FinalFold(sc);
    h := Preimage(job.seed, r[..], f[..], fold);
  }

  method GoLoop(e: Epoch, prog: seq<Instr>, useDs: bool, loop: Word, r: array<Word>, f: array<Word>,
      sc: array<Word>, taken: array<nat>)
    requires e.Valid() && Buffers(r, f, sc, taken) && taken.Length == |prog|
    modifies r, f, sc, taken
    ensures Now(r, f, sc) == OuterLoop(e, prog, useDs, loop, old(Now(r, f, sc)))
  {
    hide Run, WalkFrom, LoopFold, FirstAddress;
    ghost var steps := RunLoop(e, prog, loop, r, f, sc, taken);
    if useDs {
      WalkDataset(e, loop, r);
    }
    FoldRegisters(loop, r, f, sc);
  }
}
