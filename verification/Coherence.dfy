/** When the sticky activation caches can be trusted: exactly which steps keep the LWMA, fee and
    deep-recovery caches coherent with the chain, and what that means for deep reorgs. */
module Coherence {
  import opened Types
  import opened Activation
  import opened Validation
  import opened Protocol
  import opened Runs

  lemma {:induction false} CoherentShared(cached: nat, blocks: seq<Block>, next: seq<Block>, g: Gate)
    requires g.Valid() && Coherent(cached, blocks, g)
    requires cached <= |next| && next[..cached] == blocks[..cached]
    ensures Coherent(cached, next, g)
  {
    if cached != 0 {
      ActivationSticky(blocks, next, g);
    }
  }

  // ------------------------------------------------------------ the two ways to fail

  /** An adopted candidate forks below the remembered height `c`, and its chain does not activate
      there. */
  ghost predicate Outdates(v: View, op: Op, c: nat, g: Gate)
    requires g.Valid()
  {
    && op.AdoptOp? && op.start < c && op.start <= |v.blocks|
    && Judge(v, op.start, op.nbs, op.now).Adopted?
    && ActivationOf(v.blocks[..op.start] + op.nbs, g) != c
  }

  /** A candidate is replayed as far as `looked`, where an activation above the fork is buried by
      the reorg cap, and refused afterwards, while the node's own chain has another activation. */
  ghost predicate Strays(v: View, op: Op, c: nat, looked: seq<Block>, g: Gate)
    requires g.Valid()
  {
    var a := ActivationOf(looked, g);
    && op.AdoptOp? && c == 0 && op.start < a && |looked| >= a + v.maxReorg
    && Judge(v, op.start, op.nbs, op.now).InvalidBlock?
    && ActivationOf(v.blocks, g) != a
  }

  /** No cache is left incoherent by this step. */
  ghost predicate Harmless(v: View, op: Op)
    requires |v.blocks| > 0
  {
    && !Outdates(v, op, v.rules.lwmaAct, LWMA_GATE)
    && !Strays(v, op, v.rules.lwmaAct, LookUp(v, op, false), LWMA_GATE)
    && !Outdates(v, op, v.rules.feeAct, FEE_GATE)
    && !Strays(v, op, v.rules.feeAct, LookUp(v, op, true), FEE_GATE)
    && !Outdates(v, op, RecoveryAfter(v, op), RECOVERY_GATE)
  }

  ghost predicate AllCoherent(v: View) {
    && Coherent(v.rules.lwmaAct, v.blocks, LWMA_GATE)
    && Coherent(v.rules.feeAct, v.blocks, FEE_GATE)
    && Coherent(v.drAct, v.blocks, RECOVERY_GATE)
  }

  // ------------------------------------------------------------ one cache, one step

  lemma {:induction false} ActivationBound(blocks: seq<Block>, g: Gate)
    requires g.Valid()
    ensures ActivationOf(blocks, g) <= |blocks|
  {
    assert IsActivation(blocks, g, ActivationOf(blocks, g));
  }

  /** Filling a coherent cache from a chain leaves it coherent with every chain that extends it. */
  lemma {:induction false} FillCoherent(c: nat, looked: seq<Block>, next: seq<Block>, g: Gate, maxReorg: nat)
    requires g.Valid() && looked <= next && (c != 0 ==> Coherent(c, next, g))
    ensures Coherent(Filled(c, looked, g, maxReorg), next, g)
  {
    var a := ActivationOf(looked, g);
    ActivationBound(looked, g);
    hide ActivationOf;
    if c == 0 && a != 0 {
      assert next[..a] == looked[..a];
      CoherentShared(a, looked, next, g);
    }
  }

  /** Once filled, a cache is coherent after an adoption exactly when the adoption does not
      outdate it. */
  lemma {:induction false} AdoptionExact(v: View, op: Op, c: nat, g: Gate)
    requires g.Valid() && Coherent(c, v.blocks, g) && op.AdoptOp? && op.start <= |v.blocks|
    requires Judge(v, op.start, op.nbs, op.now).Adopted?
    ensures Coherent(c, v.blocks[..op.start] + op.nbs, g) <==> !Outdates(v, op, c, g)
  {
    hide Judge;
    var next := v.blocks[..op.start] + op.nbs;
    ActivationBound(next, g);
    hide ActivationOf;
    if c <= op.start {
      assert next[..c] == v.blocks[..c];
      CoherentShared(c, v.blocks, next, g);
    }
  }

  /** A refused candidate leaves a cache incoherent exactly when it strays. */
  lemma {:induction false} RefusalExact(v: View, op: Op, c: nat, looked: seq<Block>, g: Gate)
    requires g.Valid() && Coherent(c, v.blocks, g) && op.AdoptOp? && 0 < op.start <= |v.blocks|
    requires Judge(v, op.start, op.nbs, op.now).InvalidBlock?
    requires looked == [] || (op.start <= |looked| && looked[..op.start] == v.blocks[..op.start])
    ensures Coherent(Filled(c, looked, g, v.maxReorg), v.blocks, g) <==> !Strays(v, op, c, looked, g)
  {
    hide Judge;
    var a := ActivationOf(looked, g);
    ActivationBound(looked, g);
    ActivationBound(v.blocks, g);
    hide ActivationOf;
    if c == 0 && a != 0 && a <= op.start {
      assert v.blocks[..a] == v.blocks[..op.start][..a] == looked[..a];
      CoherentShared(a, looked, v.blocks, g);
    }
  }

  lemma {:induction false} CacheExact(v: View, op: Op, next: seq<Block>, c: nat, fee: bool, g: Gate)
    requires g.Valid() && |v.blocks| > 0 && Coherent(c, v.blocks, g) && next == BlocksAfter(v, op)
    ensures var looked := LookUp(v, op, fee);
      Coherent(Filled(c, looked, g, v.maxReorg), next, g)
      <==> !Outdates(v, op, c, g) && !Strays(v, op, c, looked, g)
  {
    var looked := LookUp(v, op, fee);
    hide ActivationOf, Looks, NextOk;
    NothingToFill(c, g, v.maxReorg);
    match op
    case AddBlockOp(b, now) =>
      assert looked == [] || looked == v.blocks by {
        assert v.blocks + [b][..0] == v.blocks;
      }
      assert v.blocks <= next;
      if c != 0 {
        CoherentShared(c, v.blocks, next, g);
      }
      FillCoherent(c, looked, next, g, v.maxReorg);
    case AdoptOp(start, nbs, now) =>
      AdoptExact(v, start, nbs, now, c, fee, g);
    case _ =>
  }

  lemma {:induction false} AdoptExact(v: View, start: nat, nbs: seq<Block>, now: nat, c: nat, fee: bool, g: Gate)
    requires g.Valid() && |v.blocks| > 0 && Coherent(c, v.blocks, g)
    ensures var op := AdoptOp(start, nbs, now);
      var looked := LookUp(v, op, fee);
      Coherent(Filled(c, looked, g, v.maxReorg), BlocksAfter(v, op), g)
      <==> !Outdates(v, op, c, g) && !Strays(v, op, c, looked, g)
  {
    var op := AdoptOp(start, nbs, now);
    var looked := LookUp(v, op, fee);
    NothingToFill(c, g, v.maxReorg);
    if IsReplayed(v, start, nbs, now) {
      ReplayRange(v, start, nbs, now);
      hide ActivationOf, Looks, Judge, Filled;
      var base := v.blocks[..start];
      if looked != [] {
        var i :| 0 <= i < |nbs| && looked == base + nbs[..i] && Looks(v.rules, base, nbs, i, now, fee);
        assert looked[..start] == v.blocks[..start] && looked <= base + nbs;
      }
      if Judge(v, start, nbs, now).Adopted? {
        FilledAdopted(v, op, c, looked, g);
      } else {
        RefusalExact(v, op, c, looked, g);
      }
    } else {
      hide ActivationOf, Judge, Filled;
    }
  }

  lemma {:induction false} FilledAdopted(v: View, op: Op, c: nat, looked: seq<Block>, g: Gate)
    requires g.Valid() && Coherent(c, v.blocks, g) && op.AdoptOp? && op.start <= |v.blocks|
    requires Judge(v, op.start, op.nbs, op.now).Adopted? && looked <= v.blocks[..op.start] + op.nbs
    ensures Coherent(Filled(c, looked, g, v.maxReorg), v.blocks[..op.start] + op.nbs, g) <==> !Outdates(v, op, c, g)
  {
    AdoptionExact(v, op, c, g);
    hide Judge, ActivationOf;
    if c == 0 {
      FillCoherent(c, looked, v.blocks[..op.start] + op.nbs, g, v.maxReorg);
    }
  }

  lemma {:induction false} ReplayRange(v: View, start: nat, nbs: seq<Block>, now: nat)
    requires IsReplayed(v, start, nbs, now)
    ensures 0 < start <= |v.blocks| && |nbs| > 0
  {
  }

  // ----------------------------------------------------------------- every cache

  /** From a view whose LWMA cache is coherent, a step leaves it coherent exactly when it neither
      outdates it nor strays. */
  lemma {:induction false} LwmaExact(v: View, op: Op, v': View)
    requires Step(v, op, v') && Coherent(v.rules.lwmaAct, v.blocks, LWMA_GATE)
    ensures Coherent(v'.rules.lwmaAct, v'.blocks, LWMA_GATE) <==>
      !Outdates(v, op, v.rules.lwmaAct, LWMA_GATE) && !Strays(v, op, v.rules.lwmaAct, LookUp(v, op, false), LWMA_GATE)
  {
    hide Outdates, Strays, BlocksAfter, LookUp, Filled, Coherent;
    CacheExact(v, op, v'.blocks, v.rules.lwmaAct, false, LWMA_GATE);
  }

  lemma {:induction false} FeeExact(v: View, op: Op, v': View)
    requires Step(v, op, v') && Coherent(v.rules.feeAct, v.blocks, FEE_GATE)
    ensures Coherent(v'.rules.feeAct, v'.blocks, FEE_GATE) <==>
      !Outdates(v, op, v.rules.feeAct, FEE_GATE) && !Strays(v, op, v.rules.feeAct, LookUp(v, op, true), FEE_GATE)
  {
    hide Judge, NextOk, LookUp, Filled, ActivationOf;
    CacheExact(v, op, v'.blocks, v.rules.feeAct, true, FEE_GATE);
    if op.SubmitOp? {
      FillCoherent(v.rules.feeAct, v.blocks, v.blocks, FEE_GATE, v.maxReorg);
    }
  }

  /** The deep-recovery cache is filled from the node's own chain before the reorg it allows, so
      only the adoption can outdate it; it then may outdate what this very step has filled. */
  lemma {:induction false} RecoveryExact(v: View, op: Op, v': View)
    requires Step(v, op, v') && Coherent(v.drAct, v.blocks, RECOVERY_GATE)
    ensures Coherent(v'.drAct, v'.blocks, RECOVERY_GATE) <==> !Outdates(v, op, RecoveryAfter(v, op), RECOVERY_GATE)
  {
    hide NextOk, ActivationOf, LwmaAfter, FeeAfter;
    FillCoherent(v.drAct, v.blocks, v.blocks, RECOVERY_GATE, v.maxReorg);
    hide Filled;
    var c := v'.drAct;
    assert Coherent(c, v.blocks, RECOVERY_GATE);
    if op.AdoptOp? && Judge(v, op.start, op.nbs, op.now).Adopted? {
      AdoptionExact(v, op, c, RECOVERY_GATE);
    } else {
      hide Judge;
      assert v.blocks <= v'.blocks;
      CoherentShared(c, v.blocks, v'.blocks, RECOVERY_GATE);
    }
  }

  /** A caller who forks no lower than the cached heights and sends at most cap plus one blocks
      never harms the LWMA and fee caches. */
  lemma {:induction false} ShortForksHarmless(v: View, op: Op, c: nat, fee: bool, g: Gate)
    requires g.Valid() && |v.blocks| > 0
    requires op.AdoptOp? ==> c <= op.start && |op.nbs| <= v.maxReorg + 1
    ensures !Outdates(v, op, c, g) && !Strays(v, op, c, LookUp(v, op, fee), g)
  {
    hide ActivationOf, Looks;
  }

  /** An adopted candidate that refilled an empty cache left it coherent, however long it was. */
  lemma {:induction false} AdoptedRefill(base: seq<Block>, nbs: seq<Block>, cached': nat, g: Gate, maxReorg: nat)
    requires g.Valid() && CacheGrew(0, cached', base, nbs, g, maxReorg)
    ensures Coherent(cached', base + nbs, g)
  {
    if cached' != 0 {
      var j :| 0 <= j < |nbs| && CacheStep(0, cached', base + nbs[..j], g, maxReorg);
      ActivationBound(base + nbs[..j], g);
      assert (base + nbs)[..cached'] == (base + nbs[..j])[..cached'];
      CoherentShared(cached', base + nbs[..j], base + nbs, g);
    }
  }

  /** A node that has just been loaded trusts only what its own chain says, whatever cap it is then
      given: every process lifetime starts coherent. */
  lemma {:induction false} LoadCoherent(v: View, blocks: seq<Block>, v': View)
    requires Restarted(v, blocks, v')
    ensures AllCoherent(v')
  {
    hide ActivationOf;
    FillCoherent(0, blocks, blocks, LWMA_GATE, DEFAULT_MAX_REORG);
    FillCoherent(0, blocks, blocks, FEE_GATE, DEFAULT_MAX_REORG);
  }

  // ---------------------------------------------------------------------- runs

  lemma {:induction false} StepExact(v: View, op: Op, v': View)
    requires Step(v, op, v') && AllCoherent(v)
    ensures AllCoherent(v') <==> Harmless(v, op)
  {
    hide Coherent, Outdates, Strays, LookUp, RecoveryAfter, LwmaAfter, FeeAfter, BlocksAfter;
    LwmaExact(v, op, v');
    FeeExact(v, op, v');
    RecoveryExact(v, op, v');
  }

  ghost predicate HarmlessAt(vs: seq<View>, ops: seq<Op>, i: nat)
    requires i < |ops| && |vs| == |ops| + 1
  {
    |vs[i].blocks| > 0 && Harmless(vs[i], ops[i])
  }

  ghost predicate CoherentUpTo(vs: seq<View>, n: nat)
    requires n < |vs|
  {
    forall i :: 0 <= i <= n ==> AllCoherent(vs[i])
  }

  ghost predicate HarmlessUpTo(vs: seq<View>, ops: seq<Op>, n: nat)
    requires n <= |ops| && |vs| == |ops| + 1
  {
    forall i :: 0 <= i < n ==> HarmlessAt(vs, ops, i)
  }

  /** Along a run all caches stay coherent exactly as long as every step is harmless. */
  lemma {:induction false} RunCoherent(vs: seq<View>, ops: seq<Op>, n: nat)
    requires Run(vs, ops) && AllCoherent(vs[0]) && n <= |ops|
    ensures CoherentUpTo(vs, n) <==> HarmlessUpTo(vs, ops, n)
  {
    hide AllCoherent, HarmlessAt, StepAt;
    if n > 0 {
      RunCoherent(vs, ops, n - 1);
      assert CoherentUpTo(vs, n) <==> CoherentUpTo(vs, n - 1) && AllCoherent(vs[n]);
      assert HarmlessUpTo(vs, ops, n) <==> HarmlessUpTo(vs, ops, n - 1) && HarmlessAt(vs, ops, n - 1);
      if CoherentUpTo(vs, n - 1) {
        RunStepExact(vs, ops, n - 1);
      }
    }
  }

  lemma {:induction false} RunStepExact(vs: seq<View>, ops: seq<Op>, i: nat)
    requires Run(vs, ops) && i < |ops| && AllCoherent(vs[i])
    ensures AllCoherent(vs[i + 1]) <==> HarmlessAt(vs, ops, i)
  {
    hide AllCoherent, Harmless, Step;
    assert StepAt(vs, ops, i);
    StepBlocks(vs[i], ops[i], vs[i + 1]);
    StepExact(vs[i], ops[i], vs[i + 1]);
  }

  lemma {:induction false} StepBlocks(v: View, op: Op, v': View)
    requires Step(v, op, v')
    ensures |v.blocks| > 0
  {
  }

  // ---------------------------------------------------------------- deep reorgs

  /** The step discards more blocks than the cap and changes the chain. */
  ghost predicate DeepReorg(v: View, op: Op, v': View) {
    && op.AdoptOp? && v.maxReorg > 0 && op.start <= |v.blocks|
    && |v.blocks| - op.start > v.maxReorg && v'.blocks != v.blocks
  }

  /** A deep reorg carries the authority anchor into the chain. Deep recovery really is active on
      the chain it replaces exactly when no stale height was remembered for it. */
  lemma {:induction false} DeepReorgStep(v: View, op: Op, v': View)
    requires Step(v, op, v') && DeepReorg(v, op, v')
    ensures v.anchor.height < |v'.blocks| && Hash(v.rules.cr, v'.blocks[v.anchor.height]) == v.anchor.hash
    ensures op.start <= v.anchor.height
    ensures ActiveWith(0, v.blocks, RECOVERY_GATE) <==> v.drAct == 0 || ActivationOf(v.blocks, RECOVERY_GATE) != 0
  {
    hide LwmaAfter, FeeAfter, Filled, Outweighs, DropsCheckpoint, CandidateOk;
    ActivationBound(v.blocks, RECOVERY_GATE);
    hide ActivationOf;
  }

  /** No step before `n` let an adoption outdate the deep-recovery cache. */
  ghost predicate RecoveryKept(vs: seq<View>, ops: seq<Op>, n: nat)
    requires n <= |ops| && |vs| == |ops| + 1
  {
    forall i :: 0 <= i < n ==> !Outdates(vs[i], ops[i], RecoveryAfter(vs[i], ops[i]), RECOVERY_GATE)
  }

  lemma {:induction false} RecoveryCoherent(vs: seq<View>, ops: seq<Op>, n: nat)
    requires Run(vs, ops) && Coherent(vs[0].drAct, vs[0].blocks, RECOVERY_GATE) && n <= |ops|
    requires RecoveryKept(vs, ops, n)
    ensures Coherent(vs[n].drAct, vs[n].blocks, RECOVERY_GATE)
  {
    hide Coherent, Outdates, Step, RecoveryAfter;
    if n > 0 {
      RecoveryCoherent(vs, ops, n - 1);
      assert StepAt(vs, ops, n - 1);
      RecoveryExact(vs[n - 1], ops[n - 1], vs[n]);
    }
  }

  /** In a run whose deep-recovery cache was never outdated, a reorg deeper than the cap happens
      only on a chain that has activated deep recovery by its own signals, and only onto the
      anchored chain. */
  lemma {:induction false} DeepReorgNeedsRecovery(vs: seq<View>, ops: seq<Op>, n: nat)
    requires Run(vs, ops) && Coherent(vs[0].drAct, vs[0].blocks, RECOVERY_GATE) && n < |ops|
    requires RecoveryKept(vs, ops, n) && DeepReorg(vs[n], ops[n], vs[n + 1])
    ensures ActiveWith(0, vs[n].blocks, RECOVERY_GATE)
    ensures var a := vs[n].anchor;
      ops[n].start <= a.height < |vs[n + 1].blocks| && Hash(vs[n].rules.cr, vs[n + 1].blocks[a.height]) == a.hash
  {
    hide ActivationOf, DeepReorg, Outdates, Step, RecoveryAfter;
    RecoveryCoherent(vs, ops, n);
    assert StepAt(vs, ops, n);
    DeepReorgStep(vs[n], ops[n], vs[n + 1]);
  }
}
