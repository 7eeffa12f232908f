/** nm_fast_hash_batch (unm/nm_fast.c): K lanes in lock step, their dataset walks interleaved read
    by read, give each lane exactly the hash it would have alone. */
module VmBatch {
  import opened Words
  import opened Vm
  import opened VmFast

  /** The buffers of one lane. */
  class Lane {
    const r: array<Word>
    const f: array<Word>
    const sc: array<Word>
    const taken: array<nat>

    constructor (progMax: nat)
      ensures Valid() && taken.Length == progMax && fresh(Repr())
    {
      r, f := new Word[16], new Word[8];
      sc, taken := new Word[SCRATCH_WORDS], new nat[progMax];
    }

    ghost predicate Valid() {
      Buffers(r, f, sc, taken)
    }

    ghost function Repr(): set<object> {
      {r as object, f as object, sc as object, taken as object}
    }

    ghost function State(): (m: Regs)
      reads Repr()
      ensures Valid() ==> m.Valid()
    {
      Now(r, f, sc)
    }
  }

  ghost function ReprOf(lanes: seq<Lane>): set<object> {
    set i, o | 0 <= i < |lanes| && o in lanes[i].Repr() :: o
  }

  /** Lanes of the right sizes that share no buffer. */
  ghost predicate Separate(lanes: seq<Lane>) {
    && (forall i :: 0 <= i < |lanes| ==> lanes[i].Valid())
    && forall i, j :: 0 <= i < |lanes| && 0 <= j < |lanes| && i != j ==> lanes[i].Repr() !! lanes[j].Repr()
  }

  ghost predicate JobsFit(lanes: seq<Lane>, jobs: seq<Job>) {
    && |jobs| == |lanes|
    && forall i :: 0 <= i < |jobs| ==> JobFits(lanes[i], jobs[i])
  }

  ghost predicate JobFits(lane: Lane, job: Job) {
    job.Valid() && Decoded(job.prog) && |job.prog| <= lane.taken.Length
  }

  lemma {:induction false} OwnBuffers(lanes: seq<Lane>, i: nat)
    requires i < |lanes|
    ensures lanes[i].Repr() <= ReprOf(lanes)
  {
  }

  lemma {:induction false} JobsAt(lanes: seq<Lane>, jobs: seq<Job>)
    requires JobsFit(lanes, jobs)
    ensures forall i :: 0 <= i < |jobs| ==> jobs[i].Valid()
  {
    forall i | 0 <= i < |jobs| ensures jobs[i].Valid() {
      assert JobFits(lanes[i], jobs[i]);
    }
  }

  // ------------------------------------------------------------- one lane at a time

  method StartLane(e: Epoch, lane: Lane, job: Job)
    requires lane.Valid() && job.Valid()
    modifies lane.Repr()
    ensures lane.State() == Start(e, job)
  {
    hide Start;
    CopyFill(job.fill, lane.sc);
    InitRegisters(e, job, lane.r, lane.f, lane.sc);
  }

  method RunLane(e: Epoch, lane: Lane, job: Job, loop: Word)
    requires lane.Valid() && JobFits(lane, job)
    modifies lane.Repr()
    ensures old(lane.State()).Valid() && lane.State() == Run(e, job.prog, loop, old(lane.State()))
  {
    hide Run;
    VmOneLoop(e, job.prog, loop, lane.r, lane.f, lane.sc, lane.taken);
  }

  method FoldLane(lane: Lane, loop: Word)
    requires lane.Valid()
    modifies lane.Repr()
    ensures old(lane.State()).Valid() && lane.State() == LoopFold(loop, old(lane.State()))
  {
    hide LoopFold;
    FoldRegisters(loop, lane.r, lane.f, lane.sc);
  }

  // ------------------------------------------------- one pass over all the lanes

  /** for L: fill the scratchpad, generate the program, initialise the registers */
  method StartAll(e: Epoch, lanes: seq<Lane>, jobs: seq<Job>)
    requires Separate(lanes) && JobsFit(lanes, jobs)
    modifies ReprOf(lanes)
    ensures forall i :: 0 <= i < |lanes| ==> lanes[i].State() == Start(e, jobs[i])
  {
    hide Start, ReprOf, Now, JobFits;
    JobsAt(lanes, jobs);
    for i := 0 to |lanes|
      invariant forall j :: 0 <= j < i ==> lanes[j].State() == Start(e, jobs[j])
    {
      OwnBuffers(lanes, i);
      StartLane(e, lanes[i], jobs[i]);
    }
  }

  /** for L: vm_one_loop */
  method RunAll(e: Epoch, lanes: seq<Lane>, jobs: seq<Job>, loop: Word)
    requires Separate(lanes) && JobsFit(lanes, jobs)
    modifies ReprOf(lanes)
    ensures forall i :: 0 <= i < |lanes| ==> lanes[i].State() == Run(e, jobs[i].prog, loop, old(lanes[i].State()))
  {
    hide Run, ReprOf, Now, JobFits;
    for i := 0 to |lanes|
      invariant forall j :: 0 <= j < i ==> lanes[j].State() == Run(e, jobs[j].prog, loop, old(lanes[j].State()))
      invariant forall j :: i <= j < |lanes| ==> lanes[j].State() == old(lanes[j].State())
    {
      OwnBuffers(lanes, i);
      RunLane(e, lanes[i], jobs[i], loop);
    }
  }

  /** for L: loop_fold */
  method FoldAll(lanes: seq<Lane>, loop: Word)
    requires Separate(lanes)
    modifies ReprOf(lanes)
    ensures forall i :: 0 <= i < |lanes| ==> lanes[i].State() == LoopFold(loop, old(lanes[i].State()))
  {
    hide LoopFold, ReprOf, Now;
    for i := 0 to |lanes|
      invariant forall j :: 0 <= j < i ==> lanes[j].State() == LoopFold(loop, old(lanes[j].State()))
      invariant forall j :: i <= j < |lanes| ==> lanes[j].State() == old(lanes[j].State())
    {
      OwnBuffers(lanes, i);
      FoldLane(lanes[i], loop);
    }
  }

  // ------------------------------------------------------- the interleaved walk

  /** One read of one lane. */
  method WalkOne(e: Epoch, lane: Lane, loop: Word, addr: Word, k: nat) returns (next: Word)
    requires e.Valid() && lane.Valid()
    modifies lane.r
    ensures (lane.r[..], next) == WalkStep(e, loop, old(lane.r[..]), addr, k)
  {
    hide Xor, Add, DatasetIndex;
    var r := lane.r;
    var v := e.dataset[DatasetIndex(addr)];
    r[k % 16] := Xor(r[k % 16], v);
    next := Add(Add(v, r[(k + 1) % 16]), loop);
  }

  /** What lane `m` will be once its walk goes on from read `k` at `addr`. */
  ghost function WalkRest(e: Epoch, loop: Word, m: Regs, addr: Word, k: nat): Regs
    requires e.Valid() && m.Valid() && k <= READS_PER_LOOP
  {
    m.(r := WalkFrom(e, loop, m.r, addr, k))
  }

  lemma {:induction false} WalkRestStep(e: Epoch, loop: Word, m: Regs, addr: Word, k: nat, r: seq<Word>, next: Word)
    requires e.Valid() && m.Valid() && k < READS_PER_LOOP && (r, next) == WalkStep(e, loop, m.r, addr, k)
    ensures WalkRest(e, loop, m, addr, k) == WalkRest(e, loop, m.(r := r), next, k + 1)
  {
    hide WalkStep;
  }

  /** for L: one read each */
  method ReadAll(e: Epoch, lanes: seq<Lane>, loop: Word, addrs: seq<Word>, k: nat) returns (next: seq<Word>)
    requires e.Valid() && Separate(lanes) && |addrs| == |lanes| && k < READS_PER_LOOP
    modifies ReprOf(lanes)
    ensures |next| == |lanes|
    ensures forall i :: 0 <= i < |lanes| ==>
      WalkRest(e, loop, lanes[i].State(), next[i], k + 1) == WalkRest(e, loop, old(lanes[i].State()), addrs[i], k)
  {
    hide WalkRest, WalkStep;
    next := [];
    for i := 0 to |lanes|
      invariant |next| == i
      invariant forall j :: 0 <= j < i ==>
        WalkRest(e, loop, lanes[j].State(), next[j], k + 1) == WalkRest(e, loop, old(lanes[j].State()), addrs[j], k)
      invariant forall j :: i <= j < |lanes| ==> lanes[j].State() == old(lanes[j].State())
    {
      var lane := lanes[i];
      assert lane.Repr() <= ReprOf(lanes);
      ghost var m := lane.State();
      var a := WalkOne(e, lane, loop, addrs[i], k);
      assert lane.State() == m.(r := lane.r[..]);
      WalkRestStep(e, loop, m, addrs[i], k, lane.r[..], a);
      next := next + [a];
    }
  }

  /** The dataset step of the batch: 64 rounds, in each of which every lane makes one read. */
  method WalkAll(e: Epoch, lanes: seq<Lane>, loop: Word)
    requires e.Valid() && Separate(lanes)
    modifies ReprOf(lanes)
    ensures forall i :: 0 <= i < |lanes| ==> lanes[i].State() == Walked(e, true, loop, old(lanes[i].State()))
  {
    hide FirstAddress, WalkRest, Walked, ReprOf, Now;
    var addrs: seq<Word> := [];
    for i := 0 to |lanes|
      invariant |addrs| == i
      invariant forall j :: 0 <= j < i ==>
        WalkRest(e, loop, lanes[j].State(), addrs[j], 0) == Walked(e, true, loop, old(lanes[j].State()))
      invariant forall j :: 0 <= j < |lanes| ==> lanes[j].State() == old(lanes[j].State())
    {
      WalkRestEnds(e, loop, lanes[i].State());
      var r := lanes[i].r;
      LaneRegisters(lanes[i]);
      addrs := addrs + [FirstAddress(e, r[..])];
    }
    var k: nat := 0;
    while k < READS_PER_LOOP
      invariant k <= READS_PER_LOOP && |addrs| == |lanes|
      invariant forall i :: 0 <= i < |lanes| ==>
        WalkRest(e, loop, lanes[i].State(), addrs[i], k) == Walked(e, true, loop, old(lanes[i].State()))
    {
      addrs := ReadAll(e, lanes, loop, addrs, k);
      k := k + 1;
    }
    forall i | 0 <= i < |lanes| ensures lanes[i].State() == Walked(e, true, loop, old(lanes[i].State())) {
      WalkRestEnds(e, loop, lanes[i].State());
    }
  }

  lemma {:induction false} LaneRegisters(lane: Lane)
    ensures lane.State().r == lane.r[..]
  {
  }

  lemma {:induction false} WalkRestEnds(e: Epoch, loop: Word, m: Regs)
    requires e.Valid() && m.Valid()
    ensures WalkRest(e, loop, m, FirstAddress(e, m.r), 0) == Walked(e, true, loop, m)
    ensures forall addr :: WalkRest(e, loop, m, addr, READS_PER_LOOP) == m
  {
  }

  // ------------------------------------------------------------------ the batch

  method LoopAll(e: Epoch, lanes: seq<Lane>, jobs: seq<Job>, useDs: bool, loop: Word)
    requires e.Valid() && Separate(lanes) && JobsFit(lanes, jobs)
    modifies ReprOf(lanes)
    ensures forall i :: 0 <= i < |lanes| ==> lanes[i].State() == OuterLoop(e, jobs[i].prog, useDs, loop, old(lanes[i].State()))
  {
    hide Run, LoopFold;
    RunAll(e, lanes, jobs, loop);
    if useDs {
      WalkAll(e, lanes, loop);
    }
    FoldAll(lanes, loop);
  }

  /** Each lane's result is the hash of its own header. */
  method HashBatch(e: Epoch, lanes: seq<Lane>, jobs: seq<Job>, height: nat) returns (out: seq<Preimage>)
    requires e.Valid() && Separate(lanes) && JobsFit(lanes, jobs)
    modifies ReprOf(lanes)
    ensures |out| == |lanes|
    ensures forall i :: 0 <= i < |lanes| ==> out[i] == HashOf(e, jobs[i], height >= DATASET_HEIGHT)
  {
    hide Start, OuterLoop, Columns, JobFits, ReprOf;
    var useDs := height >= DATASET_HEIGHT;
    assert forall i :: 0 <= i < |jobs| ==> jobs[i].Valid() by {
      JobsAt(lanes, jobs);
    }
    StartAll(e, lanes, jobs);
    var loop: nat := 0;
    while loop < e.loops
      invariant loop <= e.loops
      invariant forall i :: 0 <= i < |lanes| ==>
        lanes[i].State() == Loops(e, jobs[i].prog, useDs, loop, Start(e, jobs[i]))
    {
      LoopAll(e, lanes, jobs, useDs, loop);
      loop := loop + 1;
    }
    out := [];
    for i := 0 to |lanes|
      invariant |out| == i
      invariant forall j :: 0 <= j < i ==> out[j] == HashOf(e, jobs[j], useDs)
      invariant forall j :: 0 <= j < |lanes| ==> lanes[j].State() == Loops(e, jobs[j].prog, useDs, e.loops, Start(e, jobs[j]))
    {
      var fold := VectorFold(lanes[i].sc);
      assert lanes[i].State() == Loops(e, jobs[i].prog, useDs, e.loops, Start(e, jobs[i]));
      out := out + [Preimage(jobs[i].seed, lanes[i].r[..], lanes[i].f[..], fold)];
    }
  }
}
