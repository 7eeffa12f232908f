/** Safety and progress over every run of a node. */
module Runs {
  import opened Types
  import opened Ledger
  import opened Retarget
  import opened Validation
  import opened Protocol

  /** A run: the views a node passes through and the operations between them. */
  ghost predicate Run(vs: seq<View>, ops: seq<Op>) {
    |vs| == |ops| + 1 && forall i :: 0 <= i < |ops| ==> StepAt(vs, ops, i)
  }

  ghost predicate StepAt(vs: seq<View>, ops: seq<Op>, i: nat)
    requires i < |ops| && |vs| == |ops| + 1
  {
    Step(vs[i], ops[i], vs[i + 1])
  }

  // ----------------------------------------------------------------- validity

  lemma {:induction false} StepChainOk(v: View, op: Op, v': View)
    requires Step(v, op, v') && ChainOk(v.rules.cr, v.blocks)
    ensures ChainOk(v'.rules.cr, v'.blocks) && v'.rules.cr == v.rules.cr
  {
    var cr := v.rules.cr;
    hide ChainOk, CoreOk, LwmaAfter, FeeAfter, TooDeepFor, DropsCheckpoint, Outweighs, NextOk, CandidateAt;
    match op
    case AddBlockOp(b, now) =>
      if NextOk(v.rules, v.blocks, b, now) {
        NextIsCore(v.rules, v.blocks, b, now);
        ChainOkExtend(cr, v.blocks, b);
      }
    case AdoptOp(start, nbs, now) =>
      if Judge(v, start, nbs, now).Adopted? {
        ChainOkPrefix(cr, v.blocks, start);
        CandidateChainOk(v.rules, v.blocks[..start], nbs, |nbs|, now);
        assert nbs[..|nbs|] == nbs;
      }
    case _ =>
  }

  /** Every chain a run passes through is valid. */
  lemma {:induction false} RunChainOk(vs: seq<View>, ops: seq<Op>, i: nat)
    requires Run(vs, ops) && ChainOk(vs[0].rules.cr, vs[0].blocks) && i < |vs|
    ensures ChainOk(vs[i].rules.cr, vs[i].blocks) && vs[i].rules.cr == vs[0].rules.cr
  {
    hide ChainOk, Step;
    if i > 0 {
      RunChainOk(vs, ops, i - 1);
      assert StepAt(vs, ops, i - 1);
      StepChainOk(vs[i - 1], ops[i - 1], vs[i]);
    }
  }

  // ----------------------------------------------------------------- finality

  /** The block at a checkpointed height is held and matches. */
  ghost predicate Final(v: View, h: nat, hash: nat) {
    && h in v.rules.checkpoints && v.rules.checkpoints[h] == hash
    && 0 < h < |v.blocks| && Hash(v.rules.cr, v.blocks[h]) == hash
  }

  lemma {:induction false} StepFinal(v: View, op: Op, v': View, h: nat, hash: nat)
    requires Step(v, op, v') && Final(v, h, hash)
    ensures Final(v', h, hash) && v'.rules.cr == v.rules.cr
  {
    hide LwmaAfter, FeeAfter, TooDeepFor, Outweighs, HeaderOk, ShapeOk, BodyOk, PowOk, StateOf;
    match op
    case AdoptOp(start, nbs, now) =>
      if Judge(v, start, nbs, now).Adopted? && start <= h {
        assert !DropsCheckpoint(v.rules.checkpoints, |v.blocks|, start, |nbs|);
        assert h < start + |nbs|;
        assert CandidateAt(v.rules, v.blocks[..start], nbs, h - start, now);
      }
    case CheckpointOp(cp) =>
    case _ =>
  }

  /** Once ApplyCheckpoint has succeeded at a height, the block there never changes again. */
  lemma {:induction false} CheckpointFinal(vs: seq<View>, ops: seq<Op>, i: nat, j: nat)
    requires Run(vs, ops) && i < j < |vs| && ops[i].CheckpointOp?
    requires Holds(vs[i].rules.cr, vs[i].blocks, ops[i].cp)
    requires Ideal(vs[0].rules.cr) && ChainOk(vs[0].rules.cr, vs[0].blocks)
    ensures var h := ops[i].cp.height; h < |vs[j].blocks| && h < |vs[i].blocks| && vs[j].blocks[h] == vs[i].blocks[h]
  {
    var h, hash := ops[i].cp.height, ops[i].cp.hash;
    FinalFrom(vs, ops, i, j);
    RunChainOk(vs, ops, i);
    RunChainOk(vs, ops, j);
    hide ChainOk, Ideal;
    SameBlock(vs[0].rules.cr, vs[i].blocks, vs[j].blocks, h);
  }

  lemma {:induction false} SameBlock(cr: Crypto, xs: seq<Block>, ys: seq<Block>, h: nat)
    requires Ideal(cr) && ChainOk(cr, xs) && ChainOk(cr, ys) && h < |xs| && h < |ys|
    requires Hash(cr, xs[h]) == Hash(cr, ys[h])
    ensures xs[h] == ys[h]
  {
    ChainSealed(cr, xs, h);
    ChainSealed(cr, ys, h);
    hide ChainOk;
    SealedUnique(cr, xs[h], ys[h]);
  }

  lemma {:induction false} FinalFrom(vs: seq<View>, ops: seq<Op>, i: nat, j: nat)
    requires Run(vs, ops) && i < j < |vs| && ops[i].CheckpointOp?
    requires Holds(vs[i].rules.cr, vs[i].blocks, ops[i].cp)
    ensures Final(vs[j], ops[i].cp.height, ops[i].cp.hash) && vs[j].rules.cr == vs[i].rules.cr
    decreases j
  {
    hide Step, Final, Holds;
    assert Step(vs[j - 1], ops[j - 1], vs[j]) by {
      assert StepAt(vs, ops, j - 1);
    }
    hide StepAt;
    if j > i + 1 {
      FinalFrom(vs, ops, i, j - 1);
      StepFinal(vs[j - 1], ops[j - 1], vs[j], ops[i].cp.height, ops[i].cp.hash);
    } else {
      RecordedFinal(vs[i], ops[i], vs[j]);
    }
  }

  lemma {:induction false} RecordedFinal(v: View, op: Op, v': View)
    requires Step(v, op, v') && op.CheckpointOp? && Holds(v.rules.cr, v.blocks, op.cp)
    ensures Final(v', op.cp.height, op.cp.hash) && v'.rules.cr == v.rules.cr
  {
    hide LwmaAfter, FeeAfter, RecoveryAfter;
  }

  // ----------------------------------------------------------------- progress

  /** The reorg penalty is not a discount at the depth of this candidate. */
  ghost predicate FairAt(v: View, op: Op) {
    op.AdoptOp? && op.start <= |v.blocks| ==> FairPenalty(|v.blocks| - op.start, v.penalty)
  }

  ghost predicate FairRun(vs: seq<View>, ops: seq<Op>) {
    Run(vs, ops) && forall i :: 0 <= i < |ops| ==> FairAt(vs[i], ops[i])
  }

  /** The order fork choice climbs: more work, or equal work and a smaller tip hash. */
  ghost predicate Better(cr: Crypto, ys: seq<Block>, xs: seq<Block>)
    requires |xs| > 0 && |ys| > 0
  {
    WorkSum(ys) > WorkSum(xs) ||
    (WorkSum(ys) == WorkSum(xs) && Hash(cr, ys[|ys| - 1]) < Hash(cr, xs[|xs| - 1]))
  }

  /** Every change of chain is an improvement. */
  lemma {:induction false} StepImproves(v: View, op: Op, v': View)
    requires Step(v, op, v') && ChainOk(v.rules.cr, v.blocks) && FairAt(v, op)
    ensures |v'.blocks| > 0
    ensures v'.blocks == v.blocks || Better(v.rules.cr, v'.blocks, v.blocks)
  {
    hide ChainOk, LwmaAfter, FeeAfter, TooDeepFor, DropsCheckpoint, CandidateOk, WorkSum, StateOf, BodyOk, PowOk;
    hide HeaderOk, ShapeOk, WorkOf;
    match op
    case AddBlockOp(b, now) =>
      if NextOk(v.rules, v.blocks, b, now) {
        WorkFloor(b.hd.target);
        WorkConcat(v.blocks, [b]);
        WorkOfOne(b);
      }
    case AdoptOp(start, nbs, now) =>
      if Judge(v, start, nbs, now).Adopted? {
        assert Outweighs(v, start, nbs);
        var next := v.blocks[..start] + nbs;
        assert next[|next| - 1] == nbs[|nbs| - 1];
        ThresholdAbove(v.blocks, |v.blocks| - start, v.penalty);
      }
    case _ =>
  }

  lemma {:induction false} WorkOfOne(b: Block)
    ensures WorkSum([b]) == WorkOf(b.hd.target)
  {
    hide WorkOf;
    assert SumWork([b], 0, 0) == 0;
  }

  lemma {:induction false} ThresholdAbove(blocks: seq<Block>, depth: nat, penalty: nat)
    requires FairPenalty(depth, penalty)
    ensures Threshold(WorkSum(blocks), depth, penalty) >= WorkSum(blocks)
  {
    ScaleSign(WorkSum(blocks), SignedProduct(depth, penalty));
    hide SignedProduct, WorkSum;
  }

  lemma {:induction false} BetterTransitive(cr: Crypto, xs: seq<Block>, ys: seq<Block>, zs: seq<Block>)
    requires |xs| > 0 && |ys| > 0 && |zs| > 0 && Better(cr, ys, xs) && Better(cr, zs, ys)
    ensures Better(cr, zs, xs)
  {
  }

  lemma {:induction false} HasBlocks(cr: Crypto, blocks: seq<Block>)
    requires ChainOk(cr, blocks)
    ensures |blocks| > 0
  {
  }

  /** Along a run the chain never returns to an earlier, different state. */
  lemma {:induction false} RunImproves(vs: seq<View>, ops: seq<Op>, i: nat, j: nat)
    requires FairRun(vs, ops) && ChainOk(vs[0].rules.cr, vs[0].blocks) && i <= j < |vs|
    ensures |vs[i].blocks| > 0 && |vs[j].blocks| > 0
    ensures vs[j].blocks == vs[i].blocks || Better(vs[0].rules.cr, vs[j].blocks, vs[i].blocks)
    decreases j
  {
    hide Better, Step, ChainOk;
    RunChainOk(vs, ops, i);
    RunChainOk(vs, ops, j);
    HasBlocks(vs[i].rules.cr, vs[i].blocks);
    HasBlocks(vs[j].rules.cr, vs[j].blocks);
    if i < j {
      RunImproves(vs, ops, i, j - 1);
      RunChainOk(vs, ops, j - 1);
      assert StepAt(vs, ops, j - 1);
      StepImproves(vs[j - 1], ops[j - 1], vs[j]);
      if Better(vs[0].rules.cr, vs[j].blocks, vs[j - 1].blocks) && Better(vs[0].rules.cr, vs[j - 1].blocks, vs[i].blocks) {
        BetterTransitive(vs[0].rules.cr, vs[i].blocks, vs[j - 1].blocks, vs[j].blocks);
      }
    }
  }

  /** How many operations of a run changed the chain. */
  ghost function Changes(vs: seq<View>, ops: seq<Op>, n: nat): nat
    requires |vs| == |ops| + 1 && n <= |ops|
  {
    if n == 0 then 0 else Changes(vs, ops, n - 1) + if vs[n].blocks != vs[n - 1].blocks then 1 else 0
  }

  /** A block fixes the whole valid chain below it. */
  lemma {:induction false} SameTip(cr: Crypto, xs: seq<Block>, ys: seq<Block>)
    requires Ideal(cr) && ChainOk(cr, xs) && ChainOk(cr, ys) && |xs| > 0 && |ys| > 0
    requires xs[|xs| - 1] == ys[|ys| - 1]
    ensures xs == ys
  {
    ChainLinked(cr, xs);
    ChainLinked(cr, ys);
    ChainSealed(cr, xs, |xs| - 1);
    ChainSealed(cr, ys, |ys| - 1);
    hide ChainOk, Ideal, Linked;
    forall k | 0 <= k < |xs| ensures xs[k] == ys[k] {
      HashFixesHistory(cr, xs, ys, |xs|, k);
      SameBlock(cr, xs, ys, k);
    }
  }

  ghost predicate TipIn(v: View, tips: set<Block>) {
    |v.blocks| > 0 && v.blocks[|v.blocks| - 1] in tips
  }

  /** Nodes that exchange finitely many blocks change chain finitely often: each node fewer times
      than there are blocks that were ever its tip. */
  lemma {:induction false} FinitelyManyChanges(vs: seq<View>, ops: seq<Op>, n: nat, tips: set<Block>)
    requires FairRun(vs, ops) && Ideal(vs[0].rules.cr) && ChainOk(vs[0].rules.cr, vs[0].blocks) && n <= |ops|
    requires forall i :: 0 <= i <= n ==> TipIn(vs[i], tips)
    ensures Changes(vs, ops, n) < |tips|
  {
    assert TipIn(vs[n], tips);
    if n > 0 && vs[n].blocks == vs[n - 1].blocks {
      FinitelyManyChanges(vs, ops, n - 1, tips);
    } else if n > 0 {
      var tip := vs[n].blocks[|vs[n].blocks| - 1];
      var rest := tips - {tip};
      hide ChainOk, Ideal, FairRun;
      forall i | 0 <= i <= n - 1 ensures TipIn(vs[i], rest) {
        assert TipIn(vs[i], tips);
        NewTip(vs, ops, i, n);
      }
      FinitelyManyChanges(vs, ops, n - 1, rest);
    }
  }

  /** A change of chain brings a tip that the node never had before. */
  lemma {:induction false} NewTip(vs: seq<View>, ops: seq<Op>, i: nat, n: nat)
    requires FairRun(vs, ops) && Ideal(vs[0].rules.cr) && ChainOk(vs[0].rules.cr, vs[0].blocks) && i < n < |vs|
    requires vs[n].blocks != vs[n - 1].blocks && |vs[i].blocks| > 0 && |vs[n].blocks| > 0
    ensures vs[i].blocks[|vs[i].blocks| - 1] != vs[n].blocks[|vs[n].blocks| - 1]
  {
    hide ChainOk, Ideal, Run, FairAt;
    NeverReturns(vs, ops, i, n);
    RunChainOk(vs, ops, i);
    RunChainOk(vs, ops, n);
    if vs[i].blocks[|vs[i].blocks| - 1] == vs[n].blocks[|vs[n].blocks| - 1] {
      SameTip(vs[0].rules.cr, vs[i].blocks, vs[n].blocks);
    }
  }

  lemma {:induction false} NeverReturns(vs: seq<View>, ops: seq<Op>, i: nat, n: nat)
    requires FairRun(vs, ops) && ChainOk(vs[0].rules.cr, vs[0].blocks) && i < n < |vs|
    requires vs[n].blocks != vs[n - 1].blocks
    ensures vs[i].blocks != vs[n].blocks
  {
    hide ChainOk, FairRun;
    RunImproves(vs, ops, i, n - 1);
    RunImproves(vs, ops, n - 1, n);
    if vs[i].blocks == vs[n].blocks && vs[n - 1].blocks != vs[i].blocks {
      BetterTransitive(vs[0].rules.cr, vs[i].blocks, vs[n - 1].blocks, vs[n].blocks);
    }
  }
}
