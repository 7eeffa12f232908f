/** What TryAdoptChain's verdict says about the two whole chains: the one the node holds and the one
    a peer offers. */
module Verdicts {
  import opened Types
  import opened Activation
  import opened Validation
  import opened Protocol

  /** The chain a candidate stands for. */
  function Offered(v: View, start: nat, nbs: seq<Block>): seq<Block>
    requires start <= |v.blocks|
  {
    v.blocks[..start] + nbs
  }

  lemma {:induction false} AboveQuotient(x: int, y: nat)
    ensures x > y / 1000 <==> 1000 * x > y
  {
  }

  lemma {:induction false} PenaltyShare(cand: int, cum: nat, p: nat)
    requires p < 0x8000_0000_0000_0000
    ensures cand > cum + cum * p / 1000 <==> 1000 * (cand - cum) > cum * p
  {
    assert cum * p >= 0;
    AboveQuotient(cand - cum, cum * p);
  }

  lemma {:induction false} SmallProduct(depth: nat, penalty: nat)
    requires depth * penalty < 0x8000_0000_0000_0000
    ensures SignedProduct(depth, penalty) == depth * penalty
  {
    Small(depth * penalty);
  }

  lemma {:induction false} Small(p: nat)
    requires p < TWO64
    ensures p % TWO64 == p
  {
  }

  /** The work a candidate needs. Two blocks deep or deeper it is our work and, for each block of
      depth, another penalty / 1000 of it; at the tip more work is enough, or as much at the same
      height under a smaller hash. */
  ghost predicate WorkEnough(v: View, start: nat, nbs: seq<Block>)
    requires 0 < start <= |v.blocks| && |nbs| > 0
  {
    var ours, theirs, depth := WorkSum(v.blocks), WorkSum(Offered(v, start, nbs)), |v.blocks| - start;
    var cur, cand := v.blocks[|v.blocks| - 1], nbs[|nbs| - 1];
    if depth > 1 then 1000 * (theirs - ours) > ours * (depth * v.penalty)
    else
      || theirs > ours
      || (depth == 1 && theirs == ours && cand.hd.height == cur.hd.height && v.rules.cr.hash(cand.hd) < v.rules.cr.hash(cur.hd))
  }

  /** The rule holds as meant for every penalty that does not push the product into the sign bit. */
  lemma {:induction false} WorkExactly(v: View, start: nat, nbs: seq<Block>)
    requires 0 < start <= |v.blocks| && |nbs| > 0
    requires (|v.blocks| - start) * v.penalty < 0x8000_0000_0000_0000
    ensures Outweighs(v, start, nbs) <==> WorkEnough(v, start, nbs)
  {
    var ours, theirs, depth := WorkSum(v.blocks), WorkSum(Offered(v, start, nbs)), |v.blocks| - start;
    SmallProduct(depth, v.penalty);
    hide SignedProduct, WorkSum;
    PenaltyShare(theirs, ours, depth * v.penalty);
    NoPenalty(ours, depth);
  }

  lemma {:induction false} NoPenalty(ours: nat, depth: nat)
    ensures ours * (depth * 0) == 0
  {
  }

  /** Our checkpoints above the fork point lie on the offered chain. */
  ghost predicate KeepsCheckpoints(v: View, start: nat, nbs: seq<Block>)
    requires start <= |v.blocks|
  {
    var offered := Offered(v, start, nbs);
    forall h: nat :: h in v.rules.checkpoints && start <= h < |v.blocks| ==>
      h < |offered| && v.rules.cr.hash(offered[h].hd) == v.rules.checkpoints[h]
  }

  /** A reorg deeper than the cap passes only through the authority's anchor, once deep recovery is
      active. */
  ghost predicate DepthAllowed(v: View, start: nat, nbs: seq<Block>)
    requires start <= |v.blocks|
  {
    var offered, a := Offered(v, start, nbs), v.anchor;
    || v.maxReorg == 0
    || |v.blocks| - start <= v.maxReorg
    || (RecoveryActive(v) && 0 < a.height < |offered| && start <= a.height && v.rules.cr.hash(offered[a.height].hd) == a.hash)
  }

  lemma {:induction false} ReplayedHeader(v: View, start: nat, nbs: seq<Block>, now: nat, i: nat)
    requires 0 < start <= |v.blocks| && i < |nbs| && CandidateOk(v.rules, v.blocks[..start], nbs, now)
    ensures nbs[i].targetOk
    ensures start + i in v.rules.checkpoints ==> v.rules.checkpoints[start + i] == v.rules.cr.hash(nbs[i].hd)
  {
    hide BodyOk, PowOk, ShapeOk, RequiredFee, RequiredTarget;
    assert CandidateAt(v.rules, v.blocks[..start], nbs, i, now);
  }

  lemma {:induction false} CheckpointsKept(v: View, start: nat, nbs: seq<Block>, now: nat)
    requires 0 < start <= |v.blocks| && CandidateOk(v.rules, v.blocks[..start], nbs, now)
    ensures KeepsCheckpoints(v, start, nbs) <==> !DropsCheckpoint(v.rules.checkpoints, |v.blocks|, start, |nbs|)
  {
    hide CandidateOk;
    forall h: nat | h in v.rules.checkpoints && start <= h < start + |nbs|
      ensures v.rules.cr.hash(Offered(v, start, nbs)[h].hd) == v.rules.checkpoints[h]
    {
      ReplayedHeader(v, start, nbs, now, h - start);
    }
  }

  lemma {:induction false} DepthExactly(v: View, start: nat, nbs: seq<Block>)
    requires start <= |v.blocks|
    ensures DepthAllowed(v, start, nbs) <==> !TooDeepFor(v, start, nbs)
  {
    hide ActiveWith;
    assert start <= v.anchor.height < start + |nbs| ==> Offered(v, start, nbs)[v.anchor.height] == nbs[v.anchor.height - start];
  }

  /** Adoption in full: a candidate replaces the blocks from its fork point on exactly when it is
      not empty, forks above genesis and within our chain, is no deeper than allowed, keeps every
      checkpoint, has enough work, and each of its blocks is acceptable in turn. */
  lemma {:induction false} AdoptedExactly(v: View, start: nat, nbs: seq<Block>, now: nat)
    requires start <= |v.blocks| ==> (|v.blocks| - start) * v.penalty < 0x8000_0000_0000_0000
    ensures Judge(v, start, nbs, now).Adopted? <==>
      && |nbs| > 0 && 0 < start <= |v.blocks|
      && DepthAllowed(v, start, nbs) && KeepsCheckpoints(v, start, nbs) && WorkEnough(v, start, nbs)
      && CandidateOk(v.rules, v.blocks[..start], nbs, now)
  {
    if |nbs| > 0 && 0 < start <= |v.blocks| {
      DepthExactly(v, start, nbs);
      WorkExactly(v, start, nbs);
      if CandidateOk(v.rules, v.blocks[..start], nbs, now) {
        CheckpointsKept(v, start, nbs, now);
        forall i | 0 <= i < |nbs| ensures nbs[i].targetOk {
          ReplayedHeader(v, start, nbs, now, i);
        }
      }
      hide CandidateOk, Outweighs, WorkEnough, TooDeepFor, DepthAllowed, KeepsCheckpoints, DropsCheckpoint;
    }
  }

  /** What it takes to reorganise a node: a candidate adopted two or more blocks deep has more than
      our work and the penalty on top. */
  lemma {:induction false} PenaltyPaid(v: View, start: nat, nbs: seq<Block>, now: nat)
    requires Judge(v, start, nbs, now).Adopted? && start + 1 < |v.blocks|
    requires (|v.blocks| - start) * v.penalty < 0x8000_0000_0000_0000
    ensures WorkSum(v.blocks[..start] + nbs)
      > WorkSum(v.blocks) + WorkSum(v.blocks) * ((|v.blocks| - start) * v.penalty) / 1000
  {
    hide Judge, DepthAllowed, KeepsCheckpoints, CandidateOk, WorkSum;
    AdoptedExactly(v, start, nbs, now);
    var ours, p := WorkSum(v.blocks), (|v.blocks| - start) * v.penalty;
    PenaltyShare(WorkSum(v.blocks[..start] + nbs), ours, p);
  }

  /** The checkpoint names a block above genesis that the node holds. */
  ghost predicate NamesHeld(v: View, cp: Anchor) {
    1 <= cp.height <= |v.blocks| - 1 && v.rules.cr.hash(v.blocks[cp.height].hd) == cp.hash
  }

  /** What the authority can do: a checkpoint is recorded exactly when it names a block the node
      holds, and the anchor becomes the highest one seen. Neither order changes anything else. */
  lemma {:induction false} OrdersTaken(v: View, op: Op, v': View)
    requires Step(v, op, v') && (op.CheckpointOp? || op.AnchorOp?)
    ensures v'.blocks == v.blocks
    ensures v'.rules.checkpoints == if op.CheckpointOp? && NamesHeld(v, op.cp)
      then v.rules.checkpoints[op.cp.height := op.cp.hash] else v.rules.checkpoints
    ensures v'.anchor == if op.AnchorOp? && v.anchor.height < op.anchor.height then op.anchor else v.anchor
  {
    hide LwmaAfter, FeeAfter, RecoveryAfter;
  }
}
