/** The node as a state machine: the verdict on every request, stated on whole chains and
    without caches, and the transitions that the methods of Engine.Chain implement. */
module Protocol {
  import opened Types
  import opened Activation
  import opened Retarget
  import opened Validation

  datatype Anchor = Anchor(height: nat, hash: nat)

  /** Everything a node's verdict on a candidate depends on. */
  datatype View = View(rules: Rules, blocks: seq<Block>, drAct: nat, anchor: Anchor, maxReorg: nat, penalty: nat)

  datatype Verdict = Adopted | Empty | BadForkPoint | TooDeep | ConflictsCheckpoint | BadTarget | LacksWork | InvalidBlock

  /** candidateMeetsAnchor */
  predicate MeetsAnchor(cr: Crypto, a: Anchor, start: nat, nbs: seq<Block>) {
    a.height != 0 && start <= a.height < start + |nbs| && Hash(cr, nbs[a.height - start]) == a.hash
  }

  function WorkSum(blocks: seq<Block>): nat {
    SumWork(blocks, 0, |blocks|)
  }

  /** int64(depth * penalty): the uint64 product, read as a signed number. */
  function SignedProduct(depth: nat, penalty: nat): int {
    var p := depth * penalty % TWO64;
    if p < TWO64 / 2 then p else p - TWO64
  }

  /** The work a reorg of `depth` blocks must exceed. */
  function Threshold(cum: nat, depth: nat, penalty: nat): int {
    if penalty > 0 && depth > 1 then cum + cum * SignedProduct(depth, penalty) / 1000 else cum
  }

  /** The penalty does not turn into a discount for a reorg of this depth. */
  predicate FairPenalty(depth: nat, penalty: nat) {
    penalty == 0 || depth <= 1 || SignedProduct(depth, penalty) >= 0
  }

  lemma {:induction false} ScaleSign(cum: nat, p: int)
    ensures p >= 0 ==> cum * p / 1000 >= 0
    ensures p < 0 && cum > 0 ==> cum * p / 1000 < 0
    ensures cum == 0 ==> cum * p / 1000 == 0
  {
    if p < 0 && cum > 0 {
      assert cum * p < 0;
    }
  }

  /** The threshold is at least the present work exactly when the penalty is fair: a product in
      the upper half of the uint64 range lets a lighter candidate pass. */
  lemma {:induction false} ThresholdFair(cum: nat, depth: nat, penalty: nat)
    requires cum > 0
    ensures Threshold(cum, depth, penalty) >= cum <==> FairPenalty(depth, penalty)
  {
    ScaleSign(cum, SignedProduct(depth, penalty));
    hide SignedProduct;
  }

  /** The equal-work tie-break: same height, one block deep, smaller hash. */
  predicate TieBreak(cr: Crypto, blocks: seq<Block>, start: nat, nbs: seq<Block>, candWork: nat, cum: nat)
    requires |blocks| > 0 && |nbs| > 0
  {
    var cand, cur := nbs[|nbs| - 1], blocks[|blocks| - 1];
    |blocks| - start == 1 && candWork == cum && cand.hd.height == cur.hd.height && Hash(cr, cand) < Hash(cr, cur)
  }

  /** The candidate forks at or below a checkpoint held by a chain of `length` blocks and ends
      before it. */
  ghost predicate DropsCheckpoint(checkpoints: map<nat, nat>, length: nat, start: nat, count: nat) {
    exists h :: h in checkpoints && start <= h < length && h >= start + count
  }

  ghost predicate RecoveryActive(v: View) {
    ActiveWith(v.drAct, v.blocks, RECOVERY_GATE)
  }

  ghost predicate TooDeepFor(v: View, start: nat, nbs: seq<Block>)
    requires start <= |v.blocks|
  {
    v.maxReorg > 0 && |v.blocks| - start > v.maxReorg
    && !(RecoveryActive(v) && MeetsAnchor(v.rules.cr, v.anchor, start, nbs))
  }

  /** Heavy enough for its depth, or the winner of the tie-break. */
  ghost predicate Outweighs(v: View, start: nat, nbs: seq<Block>)
    requires 0 < start <= |v.blocks| && |nbs| > 0
  {
    var cand, cum := WorkSum(v.blocks[..start] + nbs), WorkSum(v.blocks);
    cand > Threshold(cum, |v.blocks| - start, v.penalty) || TieBreak(v.rules.cr, v.blocks, start, nbs, cand, cum)
  }

  /** TryAdoptChain's answer, from the full chain works and the cache-free rules. */
  ghost function Judge(v: View, start: nat, nbs: seq<Block>, now: nat): Verdict {
    if |nbs| == 0 then Empty
    else if start == 0 || start > |v.blocks| then BadForkPoint
    else if TooDeepFor(v, start, nbs) then TooDeep
    else if DropsCheckpoint(v.rules.checkpoints, |v.blocks|, start, |nbs|) then ConflictsCheckpoint
    else if exists i :: 0 <= i < |nbs| && !nbs[i].targetOk then BadTarget
    else if !Outweighs(v, start, nbs) then LacksWork
    else if !CandidateOk(v.rules, v.blocks[..start], nbs, now) then InvalidBlock
    else Adopted
  }

  /** The disk commit a method hands over to run after the memory lock is released. */
  datatype DiskWrite = NoWrite | Extend(newBlocks: seq<Block>, work: nat) | Rewrite(fork: nat, branch: seq<Block>, work: nat)

  // --------------------------------------------------------- what a request looks up

  /** Replaying `nbs` on `base` reaches block `i` and there looks up the LWMA activation
      (or the fee activation, if `fee`). */
  ghost predicate Looks(rules: Rules, base: seq<Block>, nbs: seq<Block>, i: nat, now: nat, fee: bool)
    requires |base| > 0 && i < |nbs|
  {
    && (forall k :: 0 <= k < i ==> CandidateAt(rules, base, nbs, k, now))
    && if fee then FeeAsked(rules, base + nbs[..i], nbs[i], now) else HeaderPasses(rules, base + nbs[..i], nbs[i], now)
  }

  /** The longest chain looked up while the first `n` blocks are replayed, [] if none is. */
  ghost function LookedUp(rules: Rules, base: seq<Block>, nbs: seq<Block>, n: nat, now: nat, fee: bool): (p: seq<Block>)
    requires |base| > 0 && n <= |nbs|
    ensures p == [] || exists i :: 0 <= i < n && p == base + nbs[..i] && Looks(rules, base, nbs, i, now, fee)
  {
    if n == 0 then []
    else if Looks(rules, base, nbs, n - 1, now, fee) then base + nbs[..n - 1]
    else LookedUp(rules, base, nbs, n - 1, now, fee)
  }

  lemma {:induction false} NothingToFill(cached: nat, g: Gate, maxReorg: nat)
    requires g.Valid()
    ensures Filled(cached, [], g, maxReorg) == cached
  {
  }

  /** A candidate that passes every guard of TryAdoptChain is replayed. */
  ghost predicate IsReplayed(v: View, start: nat, nbs: seq<Block>, now: nat) {
    Judge(v, start, nbs, now).Adopted? || Judge(v, start, nbs, now).InvalidBlock?
  }

  /** The chain on which an operation looks up an activation height. */
  ghost function LookUp(v: View, op: Op, fee: bool): seq<Block>
    requires |v.blocks| > 0
  {
    match op
    case AddBlockOp(b, now) => LookedUp(v.rules, v.blocks, [b], 1, now, fee)
    case AdoptOp(start, nbs, now) =>
      if IsReplayed(v, start, nbs, now) then LookedUp(v.rules, v.blocks[..start], nbs, |nbs|, now, fee) else []
    case _ => []
  }

  /** TryAdoptChain asks for the deep-recovery activation just when the depth exceeds the cap. */
  predicate AsksRecovery(v: View, op: Op) {
    op.AdoptOp? && |op.nbs| > 0 && 0 < op.start <= |v.blocks| && v.maxReorg > 0 && |v.blocks| - op.start > v.maxReorg
  }

  /** A cached height changes at most once during a replay, to the activation of some prefix. */
  ghost predicate CacheGrew(cached: nat, cached': nat, base: seq<Block>, nbs: seq<Block>, g: Gate, maxReorg: nat)
    requires g.Valid()
  {
    cached' == cached || exists j :: 0 <= j < |nbs| && CacheStep(cached, cached', base + nbs[..j], g, maxReorg)
  }

  // ----------------------------------------------------------------- work sums

  lemma {:induction false} SumWorkShared(xs: seq<Block>, ys: seq<Block>, lo: nat, hi: nat)
    requires lo <= hi <= |xs| && hi <= |ys| && xs[..hi] == ys[..hi]
    ensures SumWork(xs, lo, hi) == SumWork(ys, lo, hi)
    decreases hi
  {
    if lo < hi {
      assert xs[hi - 1] == xs[..hi][hi - 1] == ys[hi - 1];
      assert xs[..hi - 1] == xs[..hi][..hi - 1] == ys[..hi - 1];
      SumWorkShared(xs, ys, lo, hi - 1);
    }
  }

  lemma {:induction false} SumWorkSplit(xs: seq<Block>, lo: nat, mid: nat, hi: nat)
    requires lo <= mid <= hi <= |xs|
    ensures SumWork(xs, lo, hi) == SumWork(xs, lo, mid) + SumWork(xs, mid, hi)
    decreases hi
  {
    if mid < hi {
      SumWorkSplit(xs, lo, mid, hi - 1);
    }
  }

  lemma {:induction false} SumWorkShift(xs: seq<Block>, ys: seq<Block>, n: nat)
    requires n <= |ys|
    ensures SumWork(xs + ys, |xs|, |xs| + n) == SumWork(ys, 0, n)
    decreases n
  {
    if n > 0 {
      SumWorkShift(xs, ys, n - 1);
    }
  }

  lemma {:induction false} WorkConcat(xs: seq<Block>, ys: seq<Block>)
    ensures WorkSum(xs + ys) == WorkSum(xs) + WorkSum(ys)
  {
    SumWorkSplit(xs + ys, 0, |xs|, |xs| + |ys|);
    SumWorkShared(xs + ys, xs, 0, |xs|);
    SumWorkShift(xs, ys, |ys|);
  }


  // ------------------------------------------------------------------ transitions

  /** What can happen to a node: a pushed block, a candidate from sync, an authority checkpoint,
      a new recovery anchor, a mempool submission. */
  datatype Op =
    | AddBlockOp(b: Block, now: nat)
    | AdoptOp(start: nat, nbs: seq<Block>, now: nat)
    | CheckpointOp(cp: Anchor)
    | AnchorOp(anchor: Anchor)
    | SubmitOp

  /** ApplyCheckpoint records a checkpoint only for a block the node holds. */
  predicate Holds(cr: Crypto, blocks: seq<Block>, cp: Anchor) {
    0 < cp.height < |blocks| && Hash(cr, blocks[cp.height]) == cp.hash
  }

  ghost function BlocksAfter(v: View, op: Op): seq<Block>
    requires |v.blocks| > 0
  {
    match op
    case AddBlockOp(b, now) => if NextOk(v.rules, v.blocks, b, now) then v.blocks + [b] else v.blocks
    case AdoptOp(start, nbs, now) => if Judge(v, start, nbs, now).Adopted? then v.blocks[..start] + nbs else v.blocks
    case _ => v.blocks
  }

  function CheckpointsAfter(v: View, op: Op): map<nat, nat> {
    if op.CheckpointOp? && Holds(v.rules.cr, v.blocks, op.cp) then v.rules.checkpoints[op.cp.height := op.cp.hash]
    else v.rules.checkpoints
  }

  function AnchorAfter(v: View, op: Op): Anchor {
    if op.AnchorOp? && op.anchor.height > v.anchor.height then op.anchor else v.anchor
  }

  /** How an operation leaves the LWMA cache. */
  ghost function LwmaAfter(v: View, op: Op): nat
    requires |v.blocks| > 0
  {
    Filled(v.rules.lwmaAct, LookUp(v, op, false), LWMA_GATE, v.maxReorg)
  }

  /** How an operation leaves the fee cache. A submission looks it up on the node's own chain,
      unless it is refused earlier. */
  ghost predicate FeeAfter(v: View, op: Op, feeAct': nat)
    requires |v.blocks| > 0
  {
    || feeAct' == Filled(v.rules.feeAct, LookUp(v, op, true), FEE_GATE, v.maxReorg)
    || (op.SubmitOp? && feeAct' == Filled(v.rules.feeAct, v.blocks, FEE_GATE, v.maxReorg))
  }

  /** How an operation leaves the deep-recovery cache. */
  ghost function RecoveryAfter(v: View, op: Op): nat {
    if AsksRecovery(v, op) then Filled(v.drAct, v.blocks, RECOVERY_GATE, v.maxReorg) else v.drAct
  }

  /** One transition of a node. */
  ghost predicate Step(v: View, op: Op, v': View) {
    && |v.blocks| > 0
    && v'.rules.cr == v.rules.cr && v'.maxReorg == v.maxReorg && v'.penalty == v.penalty
    && v'.blocks == BlocksAfter(v, op)
    && v'.rules.checkpoints == CheckpointsAfter(v, op)
    && v'.anchor == AnchorAfter(v, op)
    && v'.rules.lwmaAct == LwmaAfter(v, op)
    && FeeAfter(v, op, v'.rules.feeAct)
    && v'.drAct == RecoveryAfter(v, op)
  }

  /** The reorg cap while a chain is loaded; the daemon sets its own afterwards. */
  const DEFAULT_MAX_REORG := 100

  /** A node that loads `blocks` again after `v`: checkpoints and anchor are read back from their
      files, the LWMA and fee caches are looked up once under the default cap, and the operator may
      choose another cap and penalty. */
  ghost predicate Restarted(v: View, blocks: seq<Block>, v': View) {
    && v'.rules.cr == v.rules.cr && v'.blocks == blocks
    && v'.rules.checkpoints == v.rules.checkpoints && v'.anchor == v.anchor
    && v'.rules.lwmaAct == Filled(0, blocks, LWMA_GATE, DEFAULT_MAX_REORG)
    && v'.rules.feeAct == Filled(0, blocks, FEE_GATE, DEFAULT_MAX_REORG)
    && v'.drAct == 0
  }

  /** The commit that AddBlock or TryAdoptChain leaves to run after it released mu. */
  ghost function WriteOf(v: View, op: Op): DiskWrite
    requires |v.blocks| > 0
  {
    match op
    case AddBlockOp(b, now) => if NextOk(v.rules, v.blocks, b, now) then Extend([b], WorkSum(v.blocks + [b])) else NoWrite
    case AdoptOp(start, nbs, now) =>
      if !Judge(v, start, nbs, now).Adopted? then NoWrite
      else
        var work := WorkSum(v.blocks[..start] + nbs);
        if start == |v.blocks| then Extend(nbs, work) else Rewrite(start, nbs, work)
    case _ => NoWrite
  }
}
