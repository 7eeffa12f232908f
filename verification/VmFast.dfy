/** The C miner (unm/nm_fast.c): threaded dispatch with computed gotos, a vector fold, and K
    hashes at a time with their dataset walks interleaved. Each refines the Go hash. */
module VmFast {
  import opened Words
  import opened CWords
  import opened Vm

  // ---------------------------------------------------------- threaded dispatch

  /** Where the threaded code stands: at the label of an operation, at the float repair that the
      float labels jump to, or past the end. */
  datatype Label = AtOp(op: nat) | AtFix | AtEnd

  ghost predicate Decoded(prog: seq<Instr>) {
    forall i :: 0 <= i < |prog| ==> prog[i].op < NUM_OPS
  }

  /** The dispatch table: one label for each of the fifteen operations. */
  function Dtab(op: nat): Label
    requires op < NUM_OPS
  {
    AtOp(op)
  }

  /** DISP after pc was set: the entry of the dispatch table, or the end when pc ran off. */
  function Dispatch(prog: seq<Instr>, pc: nat): Label
    requires pc <= |prog| && Decoded(prog)
  {
    if pc < |prog| then Dtab(prog[pc].op) else AtEnd
  }

  /** What the rest of the loop will produce from a label. */
  ghost predicate Reaches(e: Epoch, prog: seq<Instr>, loop: Word, at: Label, m: Regs, taken: seq<nat>, pc: nat,
      goal: Regs) {
    && m.Valid() && |taken| == |prog|
    && match at
       case AtOp(op) => pc < |prog| && op == prog[pc].op && RunFrom(e, prog, loop, m, taken, pc).0 == goal
       case AtFix => pc < |prog| && RunFrom(e, prog, loop, Repair(e, prog[pc], m), taken, pc + 1).0 == goal
       case AtEnd => m == goal
  }

  lemma {:induction false} Dispatched(e: Epoch, prog: seq<Instr>, loop: Word, m: Regs, taken: seq<nat>, pc: nat)
    requires m.Valid() && |taken| == |prog| && pc <= |prog| && Decoded(prog)
    ensures Reaches(e, prog, loop, Dispatch(prog, pc), m, taken, pc, RunFrom(e, prog, loop, m, taken, pc).0)
  {
  }

  lemma {:induction false} OnlyBranch(e: Epoch, ins: Instr, r: seq<Word>, taken: nat)
    requires |r| == 16
    ensures Branches(e, ins, r, taken) ==> ins.op == CBRANCH && taken < MAX_TAKEN
  {
  }

  lemma {:induction false} BranchBodyIdle(e: Epoch, ins: Instr, loop: Word, m: Regs)
    requires m.Valid() && ins.op == CBRANCH
    ensures Exec(e, ins, loop, m) == m
  {
  }

  method ClearFirst(taken: array<nat>, n: nat)
    requires n <= taken.Length
    modifies taken
    ensures taken[..n] == Zeros(n)
  {
    for i := 0 to n
      invariant forall j :: 0 <= j < i ==> taken[j] == 0
    {
      taken[i] := 0;
    }
  }

  /** The labels of vm_one_loop, each up to its ADV or its jump to Lfix. */
  method ExecuteFast(e: Epoch, ins: Instr, loop: Word, r: array<Word>, f: array<Word>, sc: array<Word>)
    requires r.Length == 16 && f.Length == 8 && sc.Length == SCRATCH_WORDS && r != f && r != sc && f != sc
    requires ins.op < NUM_OPS && ins.op != CBRANCH
    modifies r, f, sc
    ensures Now(r, f, sc) == Body(e, ins, loop, old(Now(r, f, sc)))
  {
    hide Add, Mul, MulHigh, Xor, Not, SetLowBit, RotateRight, NormFloat, ScratchIndex, PairIndex, Rotl64, MulHi64;
    var d, s, imm := ins.dst % 16, ins.src % 16, ins.imm;
    match Dtab(ins.op)
    case AtOp(0) =>
      r[d] := Add(r[d], Add(r[s], imm));
    case AtOp(1) =>
      r[d] := Mul(r[d], SetLowBit(r[s]));
    case AtOp(2) =>
      MulHiIsHigh(r[d], r[s]);
      r[d] := Xor(MulHi64(r[d], r[s]), imm);
    case AtOp(3) =>
      r[d] := Xor(r[d], Add(r[s], e.rotSalt));
    case AtOp(4) =>
      RotlIsRotate(r[d], Xor(r[s], imm) % 64);
      r[d] := Rotl64(r[d], -(Xor(r[s], imm) % 64 as int));
    case AtOp(5) =>
      r[d] := Add(Not(r[d]), imm);
    case AtOp(6) =>
      f[d % 8] := e.fpu.add(f[d % 8], f[s % 8]);
    case AtOp(7) =>
      f[d % 8] := e.fpu.mul(f[d % 8], f[s % 8]);
    case AtOp(8) =>
      f[d % 8] := e.fpu.div(f[d % 8], NormFloat(f[s % 8]));
    case AtOp(9) =>
      f[d % 8] := e.fpu.sqrtAbs(f[d % 8]);
    case AtOp(10) =>
      r[d] := Xor(r[d], sc[ScratchIndex(Add(r[s], imm))]);
    case AtOp(11) =>
      var w := ScratchIndex(Add(r[d], imm));
      sc[w] := Xor(sc[w], Add(r[s], loop));
    case AtOp(13) =>
      var w := PairIndex(Add(r[s], imm));
      var (lo, hi) := e.aes(sc[w], sc[w + 1]);
      sc[w], sc[w + 1] := lo, hi;
      r[d] := Xor(r[d], sc[w]);
    case AtOp(14) =>
      if imm % 2 == 0 {
        r[d] := Xor(r[d], f[s % 8]);
      } else {
        f[d % 8] := e.fpu.mul(f[d % 8], NormFloat(r[s]));
      }
  }

  ghost function Rank(prog: seq<Instr>, at: Label, taken: seq<nat>, pc: nat): nat {
    match at
    case AtEnd => 0
    case AtFix => if pc < |prog| then 2 * Potential(|prog|, taken, pc) - 1 else 0
    case AtOp(_) => if pc < |prog| then 2 * Potential(|prog|, taken, pc) else 0
  }

  /** vm_one_loop */
  method VmOneLoop(e: Epoch, prog: seq<Instr>, loop: Word, r: array<Word>, f: array<Word>, sc: array<Word>,
      taken: array<nat>)
    requires Buffers(r, f, sc, taken) && |prog| <= taken.Length && Decoded(prog)
    modifies r, f, sc, taken
    ensures Now(r, f, sc) == Run(e, prog, loop, old(Now(r, f, sc)))
  {
    hide Body, Repair, Branches, Pow2, RunFrom, Slack;
    ClearFirst(taken, |prog|);
    ghost var goal := RunFrom(e, prog, loop, Now(r, f, sc), Zeros(|prog|), 0).0;
    var pc: nat := 0;
    var at := Dispatch(prog, pc);
    Dispatched(e, prog, loop, Now(r, f, sc), Zeros(|prog|), 0);
    while at != AtEnd
      invariant Reaches(e, prog, loop, at, Now(r, f, sc), taken[..|prog|], pc, goal)
      decreases Rank(prog, at, taken[..|prog|], pc)
    {
      var ins := prog[pc];
      if at == AtFix {
        RepairFloat(e, ins, r, f, sc);
        Dispatched(e, prog, loop, Now(r, f, sc), taken[..|prog|], pc + 1);
        pc := pc + 1;
        at := Dispatch(prog, pc);
        continue;
      }
      ghost var before := taken[..|prog|];
      RunStep(e, prog, loop, Now(r, f, sc), before, pc);
      OnlyBranch(e, ins, r[..], taken[pc]);
      if ins.op == CBRANCH {
        BranchBodyIdle(e, ins, loop, Now(r, f, sc));
        if Branches(e, ins, r[..], taken[pc]) {
          SlackTaken(before, pc);
          taken[pc] := taken[pc] + 1;
          assert taken[..|prog|] == before[pc := before[pc] + 1];
          Dispatched(e, prog, loop, Now(r, f, sc), taken[..|prog|], Target(pc, ins.imm));
          pc := Target(pc, ins.imm);
          at := Dispatch(prog, pc);
          continue;
        }
      } else {
        ExecuteFast(e, ins, loop, r, f, sc);
      }
      if IsFloat(ins.op) {
        at := AtFix;
      } else {
        Dispatched(e, prog, loop, Now(r, f, sc), taken[..|prog|], pc + 1);
        pc := pc + 1;
        at := Dispatch(prog, pc);
      }
    }
  }

  // ------------------------------------------------------------- the vector fold

  /** One 256-bit xor of four words. */
  method XorVector(acc: array<Word>, sc: array<Word>, at: nat)
    requires acc.Length == 4 && at + 4 <= sc.Length && acc != sc
    modifies acc
    ensures forall j :: 0 <= j < 4 ==> acc[j] == Xor(old(acc[j]), sc[at + j])
  {
    hide Xor;
    acc[0] := Xor(acc[0], sc[at + 0]);
    acc[1] := Xor(acc[1], sc[at + 1]);
    acc[2] := Xor(acc[2], sc[at + 2]);
    acc[3] := Xor(acc[3], sc[at + 3]);
  }

  lemma {:induction false} HalvesStep(sc: seq<Word>, rows: nat, b0: seq<Word>, b1: seq<Word>, a0: seq<Word>,
      a1: seq<Word>)
    requires |b0| == |b1| == |a0| == |a1| == 4 && 8 * rows + 8 <= |sc| && b0 + b1 == Columns(sc, rows)
    requires forall j :: 0 <= j < 4 ==> a0[j] == Xor(b0[j], sc[8 * rows + j])
    requires forall j :: 0 <= j < 4 ==> a1[j] == Xor(b1[j], sc[8 * rows + 4 + j])
    ensures a0 + a1 == Columns(sc, rows + 1)
  {
    hide Xor, Columns;
    forall j | 0 <= j < 8 ensures (a0 + a1)[j] == Xor((b0 + b1)[j], sc[8 * rows + j]) {
      assert j >= 4 ==> a1[j - 4] == Xor(b1[j - 4], sc[8 * rows + 4 + (j - 4)]);
    }
    ColumnsStep(sc, rows, b0 + b1, a0 + a1);
  }

  /** One turn of the fold's loop: eight words into the two accumulators. */
  method FoldRow(a0: array<Word>, a1: array<Word>, sc: array<Word>, rows: nat)
    requires a0.Length == 4 && a1.Length == 4 && a0 != a1 && a0 != sc && a1 != sc && 8 * rows + 8 <= sc.Length
    requires a0[..] + a1[..] == Columns(sc[..], rows)
    modifies a0, a1
    ensures a0[..] + a1[..] == Columns(sc[..], rows + 1)
  {
    hide Xor, Columns;
    ghost var b0, b1 := a0[..], a1[..];
    var i := 2 * rows;
    XorVector(a0, sc, 4 * i);
    XorVector(a1, sc, 4 * (i + 1));
    HalvesStep(sc[..], rows, b0, b1, a0[..], a1[..]);
  }

  /** final_fold: two vector accumulators give the same eight words as Go's eight. */
  method VectorFold(sc: array<Word>) returns (fold: seq<Word>)
    requires sc.Length % 8 == 0
    ensures fold == Columns(sc[..], sc.Length / 8)
  {
    var a0, a1 := new Word[4](_ => 0), new Word[4](_ => 0);
    var i, rows: nat := 0, 0;
    assert a0[..] + a1[..] == Columns(sc[..], 0);
    hide Xor, Columns;
    while i < sc.Length / 4
      invariant i == 2 * rows && 8 * rows <= sc.Length && a0[..] + a1[..] == Columns(sc[..], rows)
    {
      FoldRow(a0, a1, sc, rows);
      i, rows := i + 2, rows + 1;
    }
    fold := a0[..] + a1[..];
  }

  /** nm_fast_hash */
  method FastHash(e: Epoch, job: Job, height: nat, sc: array<Word>, taken: array<nat>) returns (h: Preimage)
    requires e.Valid() && job.Valid() && Decoded(job.prog) && sc.Length == SCRATCH_WORDS && |job.prog| <= taken.Length
    modifies sc, taken
    ensures h == HashOf(e, job, height >= DATASET_HEIGHT)
  {
    hide Start, Run, WalkFrom, LoopFold, Columns, FirstAddress;
    var useDs := height >= DATASET_HEIGHT;
    var r, f := new Word[16], new Word[8];
    CopyFill(job.fill, sc);
    InitRegisters(e, job, r, f, sc);
    var loop: nat := 0;
    while loop < e.loops
      invariant loop <= e.loops
      invariant Now(r, f, sc) == Loops(e, job.prog, useDs, loop, Start(e, job))
    {
      VmOneLoop(e, job.prog, loop, r, f, sc, taken);
      if useDs {
        WalkDataset(e, loop, r);
      }
      FoldRegisters(loop, r, f, sc);
      loop := loop + 1;
    }
    var fold := VectorFold(sc);
    h := Preimage(job.seed, r[..], f[..], fold);
  }
}
