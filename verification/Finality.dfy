/** Checkpoint finality across commits, crashes and restarts: the checkpoints survive in a file of
    their own, so what a restart loads must not contradict them. */
module Finality {
  import opened Types
  import opened Validation
  import opened Protocol
  import opened Store
  import opened BlockStore
  import opened Recovery
  import opened Commit
  import Activation
  import Runs
  import Witness

  /** The chain does not hold another block at the checkpointed height. */
  ghost predicate Kept(cr: Crypto, chain: seq<Block>, h: nat, hash: nat) {
    h < |chain| ==> Hash(cr, chain[h]) == hash
  }

  ghost predicate Recorded(v: View, h: nat, hash: nat) {
    h > 0 && h in v.rules.checkpoints && v.rules.checkpoints[h] == hash
  }

  // -------------------------------------------------------------- one transition

  lemma {:induction false} AddKeeps(v: View, b: Block, now: nat, h: nat, hash: nat)
    requires |v.blocks| > 0 && Recorded(v, h, hash) && Kept(v.rules.cr, v.blocks, h, hash)
    requires NextOk(v.rules, v.blocks, b, now)
    ensures Kept(v.rules.cr, v.blocks + [b], h, hash)
  {
    hide HeaderOk, ShapeOk, BodyOk, PowOk;
  }

  lemma {:induction false} AdoptKeeps(v: View, start: nat, nbs: seq<Block>, now: nat, h: nat, hash: nat)
    requires Recorded(v, h, hash) && Kept(v.rules.cr, v.blocks, h, hash)
    requires 0 < start <= |v.blocks| && CandidateOk(v.rules, v.blocks[..start], nbs, now)
    ensures Kept(v.rules.cr, v.blocks[..start] + nbs, h, hash)
  {
    hide HeaderOk, ShapeOk, BodyOk, PowOk;
    if start <= h < start + |nbs| {
      assert CandidateAt(v.rules, v.blocks[..start], nbs, h - start, now);
    }
  }

  /** No transition of a node brings a block that contradicts a recorded checkpoint, and none
      replaces the record, unless the chain already contradicts it. */
  lemma {:induction false} StepKeeps(v: View, op: Op, v': View, h: nat, hash: nat)
    requires Step(v, op, v') && Recorded(v, h, hash) && Kept(v.rules.cr, v.blocks, h, hash)
    ensures Recorded(v', h, hash) && Kept(v'.rules.cr, v'.blocks, h, hash)
  {
    hide LwmaAfter, FeeAfter, RecoveryAfter, TooDeepFor, Outweighs, DropsCheckpoint, NextOk, CandidateOk, Kept;
    match op
    case AddBlockOp(b, now) =>
      if NextOk(v.rules, v.blocks, b, now) {
        AddKeeps(v, b, now, h, hash);
      }
    case AdoptOp(start, nbs, now) =>
      if Judge(v, start, nbs, now).Adopted? {
        AdoptKeeps(v, start, nbs, now, h, hash);
      }
    case CheckpointOp(cp) =>
      SameRecord(v, cp, h, hash);
    case _ =>
  }

  lemma {:induction false} SameRecord(v: View, cp: Anchor, h: nat, hash: nat)
    requires Recorded(v, h, hash) && Kept(v.rules.cr, v.blocks, h, hash)
    ensures Recorded(v.(rules := v.rules.(checkpoints := CheckpointsAfter(v, CheckpointOp(cp)))), h, hash)
  {
  }

  // --------------------------------------------------------------- the invariant

  /** The store is the image of a prefix of a once-current chain that keeps the checkpoint. */
  ghost predicate StoresKept(cr: Crypto, d: Buckets, ever: set<seq<Block>>, h: nat, hash: nat) {
    exists p :: PrefixOfEver(p, ever) && d == Image(cr, p) && Kept(cr, p, h, hash)
  }

  /** Every chain that a pending commit started on keeps the checkpoint. */
  ghost predicate PendingKept(n: Node, h: nat, hash: nat) {
    forall t :: t in n.pcs && n.pcs[t].Committing? ==> Kept(n.Cr(), n.pcs[t].base, h, hash)
  }

  ghost predicate Guards(n: Node, h: nat, hash: nat) {
    && Recorded(n.view, h, hash) && PendingKept(n, h, hash)
    && (n.up ==> Kept(n.Cr(), n.view.blocks, h, hash))
    && (!n.up ==> StoresKept(n.Cr(), n.disk, n.ever, h, hash))
  }

  lemma {:induction false} MidwayKept(cr: Crypto, d: Buckets, base: seq<Block>, w: DiskWrite, ever: set<seq<Block>>,
      h: nat, hash: nat)
    requires Midway(cr, d, base, w) && base in ever && Written(base, w) in ever
    requires Kept(cr, base, h, hash) && Kept(cr, Written(base, w), h, hash)
    ensures StoresKept(cr, d, ever, h, hash)
  {
    hide Image, Hash;
    var lo, bs := Floor(w, base), NewBlocks(w);
    if k :| lo <= k <= |base| && d == Image(cr, base[..k]) {
      assert base[..k] <= base;
      assert PrefixOfEver(base[..k], ever);
    } else {
      var k :| 0 <= k <= |bs| && d == Image(cr, base[..lo] + bs[..k]);
      assert base[..|base|] == base;
      assert base[..lo] + bs[..k] <= Written(base, w);
      assert PrefixOfEver(base[..lo] + bs[..k], ever);
    }
  }

  lemma {:induction false} CrashGuards(n: Node, n': Node, h: nat, hash: nat)
    requires HistoryOk(n) && SyncedOk(n) && Guards(n, h, hash) && Next(n, Crash, n')
    ensures Guards(n', h, hash)
  {
    hide Image, Midway, Written, Floor, GoodDisk, AllOk, Ideal, Kept, Recorded;
    if NoCommit(n) {
      assert n.view.blocks <= n.view.blocks;
      assert PrefixOfEver(n.view.blocks, n.ever);
    } else {
      var t :| t in n.pcs && n.pcs[t].Committing?;
      var p := n.pcs[t];
      assert PendingOk(n, p);
      MidwayKept(n.Cr(), n.disk, p.base, p.write, n.ever, h, hash);
    }
  }

  /** A store that no failed commit has touched is loaded whole; an empty one starts at genesis. */
  lemma {:induction false} LoadsKept(cr: Crypto, d: Buckets, bound: nat, ever: set<seq<Block>>, h: nat, hash: nat)
    requires AllOk(cr, ever) && StoresKept(cr, d, ever, h, hash) && Below(d.blocks, bound) && h > 0
    requires LoadOf(cr, Ascending(d.blocks, bound)).Loaded?
    ensures Kept(cr, LoadOf(cr, Ascending(d.blocks, bound)).chain, h, hash)
  {
    hide AllOk, Ascending, Below, PrefixOfEver, Image, Kept, Genesis;
    var p :| PrefixOfEver(p, ever) && d == Image(cr, p) && Kept(cr, p, h, hash);
    if p == [] {
      EmptyLoads(cr, d.blocks, bound);
      ShortKept(cr, [Genesis(cr)], h, hash);
    } else {
      PrefixOk(cr, p, ever);
      LoadExact(cr, p, bound);
    }
  }

  lemma {:induction false} EmptyLoads(cr: Crypto, m: map<nat, Block>, bound: nat)
    requires m == Image(cr, []).blocks
    ensures LoadOf(cr, Ascending(m, bound)) == Loaded([Genesis(cr)], true)
  {
    NothingAscending(m, bound);
  }

  lemma {:induction false} ShortKept(cr: Crypto, chain: seq<Block>, h: nat, hash: nat)
    requires |chain| <= h
    ensures Kept(cr, chain, h, hash)
  {
  }

  lemma {:induction false} KeptGrows(cr: Crypto, d: Buckets, ever: set<seq<Block>>, c: seq<Block>, h: nat, hash: nat)
    requires StoresKept(cr, d, ever, h, hash)
    ensures StoresKept(cr, d, ever + {c}, h, hash)
  {
    hide Image, Kept;
    var p :| PrefixOfEver(p, ever) && d == Image(cr, p) && Kept(cr, p, h, hash);
    var e :| e in ever && p <= e;
    assert e in ever + {c};
    assert PrefixOfEver(p, ever + {c});
  }

  lemma {:induction false} RebuiltKept(cr: Crypto, before: Buckets, after: Buckets, chain: seq<Block>,
      ever: set<seq<Block>>, h: nat, hash: nat)
    requires StoresKept(cr, before, ever, h, hash) && Rebuilt(cr, before, after, chain, false) && chain in ever
    requires Kept(cr, chain, h, hash)
    ensures StoresKept(cr, after, ever, h, hash)
  {
    hide Image, Mixed, Hash;
    if after != before {
      var k :| 0 <= k <= |chain| && after == Image(cr, chain[..k]);
      assert chain[..k] <= chain;
      assert PrefixOfEver(chain[..k], ever);
    }
  }

  lemma {:induction false} RestartGuards(n: Node, bound: nat, ok: bool, n': Node, h: nat, hash: nat)
    requires LocksOk(n) && HistoryOk(n) && Guards(n, h, hash) && RestartStep(n, bound, ok, n')
    ensures Guards(n', h, hash)
  {
    var cr, r := n.Cr(), LoadOf(n.Cr(), Ascending(n.disk.blocks, bound));
    assert AllOk(cr, n.ever);
    hide AllOk, LoadOf, Ascending, Below, Image, Ideal, GoodDisk, StoresKept, Mixed, Kept, Rebuilt;
    LoadsKept(cr, n.disk, bound, n.ever, h, hash);
    KeptGrows(cr, n.disk, n.ever, r.chain, h, hash);
    if r.rebuild && !ok {
      RebuiltKept(cr, n.disk, n'.disk, r.chain, n'.ever, h, hash);
    }
  }

  lemma {:induction false} ChangeGuards(n: Node, t: nat, op: Op, n': Node, h: nat, hash: nat)
    requires LocksOk(n) && Guards(n, h, hash) && ChangeStep(n, t, op, n')
    ensures Guards(n', h, hash)
  {
    hide Step, WriteOf, Kept, Recorded, StoresKept;
    StepKeeps(n.view, op, n'.view, h, hash);
    SameCrypto(n.view, op, n'.view);
  }

  lemma {:induction false} SameCrypto(v: View, op: Op, v': View)
    requires Step(v, op, v')
    ensures v'.rules.cr == v.rules.cr
  {
    hide LwmaAfter, FeeAfter, RecoveryAfter, BlocksAfter;
  }

  lemma {:induction false} OtherGuards(n: Node, t: nat, op: Op, n': Node, h: nat, hash: nat)
    requires Guards(n, h, hash) && OtherStep(n, t, op, n')
    ensures Guards(n', h, hash)
  {
    hide Step, Kept, Recorded, StoresKept;
    StepKeeps(n.view, op, n'.view, h, hash);
    SameCrypto(n.view, op, n'.view);
  }

  /** Every step of a node whose commits have not failed guards the checkpoint. */
  lemma {:induction false} NextGuards(n: Node, a: Action, n': Node, h: nat, hash: nat)
    requires Inv(n) && n.exact && Guards(n, h, hash) && Next(n, a, n')
    ensures Guards(n', h, hash)
  {
    hide HistoryOk, SyncedOk, ChangeStep, OtherStep, RestartStep, Outcome, Kept, Recorded, StoresKept, LocksOk;
    match a
    case Change(t, op) => ChangeGuards(n, t, op, n', h, hash);
    case Other(t, op) => OtherGuards(n, t, op, n', h, hash);
    case Restart(bound, ok) => RestartGuards(n, bound, ok, n', h, hash);
    case Crash => CrashGuards(n, n', h, hash);
    case _ =>
  }

  // -------------------------------------------------------------------- runs

  lemma {:induction false} CheckpointGuards(n: Node, t: nat, cp: Anchor, n': Node)
    requires Next(n, Other(t, CheckpointOp(cp)), n') && Holds(n.Cr(), n.view.blocks, cp)
    requires PendingKept(n, cp.height, cp.hash)
    ensures Guards(n', cp.height, cp.hash)
  {
    hide LwmaAfter, FeeAfter, RecoveryAfter, StoresKept;
  }

  lemma {:induction false} GuardedFrom(ns: seq<Node>, acts: seq<Action>, i: nat, j: nat, t: nat, cp: Anchor)
    requires NodeRun(ns, acts) && i < j < |ns| && acts[i] == Other(t, CheckpointOp(cp))
    requires Holds(ns[i].Cr(), ns[i].view.blocks, cp) && PendingKept(ns[i], cp.height, cp.hash)
    requires forall k :: i < k < j ==> ns[k].exact
    ensures Guards(ns[j], cp.height, cp.hash) && ns[j].Cr() == ns[i].Cr()
    decreases j
  {
    hide Guards, Next, Inv, Holds, PendingKept, Init;
    assert NextAt(ns, acts, j - 1);
    NextCrypto(ns[j - 1], acts[j - 1], ns[j]);
    if j == i + 1 {
      CheckpointGuards(ns[i], t, cp, ns[j]);
    } else {
      GuardedFrom(ns, acts, i, j - 1, t, cp);
      RunInv(ns, acts, j - 1);
      NextGuards(ns[j - 1], acts[j - 1], ns[j], cp.height, cp.hash);
    }
  }

  lemma {:induction false} NextCrypto(n: Node, a: Action, n': Node)
    requires Next(n, a, n')
    ensures n'.Cr() == n.Cr()
  {
    hide LwmaAfter, FeeAfter, RecoveryAfter, BlocksAfter, WriteOf, Outcome, Rebuilt, LoadOf, Ascending, Below;
  }

  /** Over every interleaving with crashes and restarts, as long as no commit has failed: a
      checkpoint that was applied while no pending commit had started on a chain with another block
      there stays recorded, and the node never again holds another block at that height. */
  lemma {:induction false} CheckpointSurvives(ns: seq<Node>, acts: seq<Action>, i: nat, j: nat, t: nat, cp: Anchor)
    requires NodeRun(ns, acts) && i < j < |ns| && acts[i] == Other(t, CheckpointOp(cp))
    requires Holds(ns[i].Cr(), ns[i].view.blocks, cp) && PendingKept(ns[i], cp.height, cp.hash)
    requires forall k :: i < k < j ==> ns[k].exact
    ensures Recorded(ns[j].view, cp.height, cp.hash) && cp.height < |ns[i].view.blocks|
    ensures ns[j].up && cp.height < |ns[j].view.blocks| ==>
      ns[j].view.blocks[cp.height] == ns[i].view.blocks[cp.height]
  {
    var cr := ns[i].Cr();
    GuardedFrom(ns, acts, i, j, t, cp);
    RunInv(ns, acts, i);
    RunInv(ns, acts, j);
    assert NextAt(ns, acts, i);
    hide Init, StoresKept, NextAt, PendingKept;
    if ns[j].up && cp.height < |ns[j].view.blocks| {
      CurrentOk(ns[i]);
      CurrentOk(ns[j]);
      hide Inv, NodeRun, Ideal, ChainOk;
      Runs.SameBlock(cr, ns[j].view.blocks, ns[i].view.blocks, cp.height);
    }
  }

  lemma {:induction false} CurrentOk(n: Node)
    requires Inv(n) && n.up
    ensures Ideal(n.Cr()) && ChainOk(n.Cr(), n.view.blocks)
  {
    hide Ideal, ChainOk, LocksOk, SyncedOk, GoodDisk;
  }

  // ------------------------------------------------------------- the other half

  ghost function Held(n: Node, t: nat): Node {
    n.(mu := HeldBy(t), pcs := n.pcs[t := MuOnly])
  }

  ghost function Marked(n: Node, t: nat, cp: Anchor): Node {
    var rules := n.view.rules.(checkpoints := n.view.rules.checkpoints[cp.height := cp.hash]);
    n.(view := n.view.(rules := rules), mu := Free, pcs := n.pcs[t := Idle])
  }

  ghost function Dead(n: Node): Node {
    n.(up := false, diskMu := Free, mu := Free, readers := {}, pcs := map t | t in n.pcs :: Idle)
  }

  ghost function Reborn(n: Node, c: seq<Block>): Node {
    var rules := n.view.rules.(lwmaAct := Activation.Filled(0, c, Activation.LWMA_GATE, DEFAULT_MAX_REORG),
      feeAct := Activation.Filled(0, c, Activation.FEE_GATE, DEFAULT_MAX_REORG));
    n.(up := true, view := n.view.(blocks := c, rules := rules, drAct := 0), ever := n.ever + {c})
  }

  /** A node that applies a checkpoint while its store still holds the chain `c` exactly, then dies
      and starts again, is back on `c`, with the checkpoint on record. */
  lemma {:induction false} CrashAfterCheckpoint(n: Node, t: nat, c: seq<Block>, cp: Anchor)
    requires HistoryOk(n) && n.At(t, Idle) && n.mu == Free && n.readers == {} && c in n.ever
    requires n.disk == Image(n.Cr(), c) && Holds(n.Cr(), n.view.blocks, cp)
    ensures var n1 := Held(n, t);
      var n2 := Marked(n1, t, cp);
      var n3 := Dead(n2);
      var n4 := Reborn(n3, c);
      && Next(n, TakeMuOnly(t), n1) && Next(n1, Other(t, CheckpointOp(cp)), n2) && Next(n2, Crash, n3)
      && Next(n3, Restart(|c|, true), n4)
      && Recorded(n4.view, cp.height, cp.hash)
      && (Kept(n4.Cr(), n4.view.blocks, cp.height, cp.hash) <==> Kept(n.Cr(), c, cp.height, cp.hash))
  {
    EverOk(n, c);
    MarkedNext(n, t, cp);
    RebornNext(Dead(Marked(Held(n, t), t, cp)), c);
    hide Next, HistoryOk, Image, ChainOk;
  }

  lemma {:induction false} EverOk(n: Node, c: seq<Block>)
    requires HistoryOk(n) && c in n.ever
    ensures ChainOk(n.Cr(), c)
  {
    hide ChainOk;
  }

  lemma {:induction false} MarkedNext(n: Node, t: nat, cp: Anchor)
    requires n.At(t, Idle) && n.mu == Free && n.readers == {} && Holds(n.Cr(), n.view.blocks, cp)
    ensures var n1 := Held(n, t);
      var n2 := Marked(n1, t, cp);
      Next(n, TakeMuOnly(t), n1) && Next(n1, Other(t, CheckpointOp(cp)), n2) && Next(n2, Crash, Dead(n2))
  {
    MarkStep(n.view, cp);
    hide Step;
  }

  lemma {:induction false} RebornNext(n: Node, c: seq<Block>)
    requires !n.up && ChainOk(n.Cr(), c) && n.disk == Image(n.Cr(), c)
    ensures Next(n, Restart(|c|, true), Reborn(n, c))
  {
    StoredBelow(n.Cr(), c);
    LoadExact(n.Cr(), c, |c|);
    hide LoadOf, Ascending, Below, Image, ChainOk, Activation.Filled;
  }

  lemma {:induction false} StoredBelow(cr: Crypto, c: seq<Block>)
    requires ChainOk(cr, c)
    ensures Below(Image(cr, c).blocks, |c|)
  {
    ChainHeights(cr, c);
    ImageCovered(cr, c);
    hide Image, ChainOk, Heights;
  }

  lemma {:induction false} MarkStep(v: View, cp: Anchor)
    requires Holds(v.rules.cr, v.blocks, cp)
    ensures Step(v, CheckpointOp(cp), v.(rules := v.rules.(checkpoints := v.rules.checkpoints[cp.height := cp.hash])))
  {
    NothingToFill(v.rules.lwmaAct, Activation.LWMA_GATE, v.maxReorg);
    NothingToFill(v.rules.feeAct, Activation.FEE_GATE, v.maxReorg);
  }

  /** A node whose store is exact, with one thread about to change memory and an idle one. */
  ghost function Adopting(v: View): Node {
    var cr := v.rules.cr;
    Node(true, v, Image(cr, v.blocks), HeldBy(1), HeldBy(1), {}, map[0 := Idle, 1 := Changing], true,
      {v.blocks, [Genesis(cr)]})
  }

  /** The same node once memory has changed and its commit has written nothing yet. */
  ghost function Pending(v: View, op: Op, v': View): Node
    requires |v.blocks| > 0
  {
    var n := Adopting(v);
    n.(view := v', mu := Free, ever := n.ever + {v'.blocks},
      pcs := n.pcs[1 := Committing(WriteOf(v, op), v.blocks, n.disk)])
  }

  lemma {:induction false} AdoptingLocks(v: View)
    ensures LocksOk(Adopting(v))
  {
    hide Image;
  }

  lemma {:induction false} GenesisOk(cr: Crypto)
    ensures ChainOk(cr, [Genesis(cr)])
  {
  }

  lemma {:induction false} AdoptingHistory(v: View)
    requires Ideal(v.rules.cr) && ChainOk(v.rules.cr, v.blocks)
    ensures HistoryOk(Adopting(v))
  {
    var n := Adopting(v);
    GenesisOk(v.rules.cr);
    NotEmpty(v.rules.cr, v.blocks);
    assert v.blocks[..|v.blocks|] == v.blocks;
    ImageGood(v.rules.cr, v.blocks, |v.blocks|, n.ever);
    hide Ideal, ChainOk, Image, Sourced, Genesis;
  }

  lemma {:induction false} AdoptingSynced(v: View)
    ensures SyncedOk(Adopting(v))
  {
    hide Image, PendingExact, StoresPrefix;
  }

  lemma {:induction false} AdoptingInv(v: View)
    requires Ideal(v.rules.cr) && ChainOk(v.rules.cr, v.blocks)
    ensures Inv(Adopting(v))
  {
    AdoptingLocks(v);
    AdoptingHistory(v);
    AdoptingSynced(v);
    hide LocksOk, HistoryOk, SyncedOk, Adopting;
  }

  lemma {:induction false} ReallyWrites(v: View, op: Op, v': View)
    requires Step(v, op, v') && op.AdoptOp? && v'.blocks != v.blocks
    ensures !WriteOf(v, op).NoWrite?
  {
    hide Judge, LwmaAfter, FeeAfter, RecoveryAfter, WorkSum;
  }

  lemma {:induction false} ChangeNext(n: Node, t: nat, op: Op, v': View, n': Node)
    requires n.At(t, Changing) && |n.view.blocks| > 0 && op.AdoptOp? && Step(n.view, op, v')
    requires !WriteOf(n.view, op).NoWrite?
    requires n' == n.(view := v', mu := Free, ever := n.ever + {v'.blocks},
      pcs := n.pcs[t := Committing(WriteOf(n.view, op), n.view.blocks, n.disk)])
    ensures Next(n, Change(t, op), n')
  {
    hide Step, WriteOf;
  }

  lemma {:induction false} PendingNext(v: View, op: Op, v': View)
    requires |v.blocks| > 0 && Step(v, op, v') && op.AdoptOp? && v'.blocks != v.blocks
    ensures Next(Adopting(v), Change(1, op), Pending(v, op, v'))
  {
    ReallyWrites(v, op, v');
    AtWork(v);
    hide Step, WriteOf, Image, Next, ChangeStep, Node.At;
    ChangeNext(Adopting(v), 1, op, v', Pending(v, op, v'));
  }

  lemma {:induction false} AtWork(v: View)
    ensures Adopting(v).At(1, Changing) && Adopting(v).At(0, Idle)
  {
    hide Image;
  }

  lemma {:induction false} PendingFacts(v: View, op: Op, v': View)
    requires |v.blocks| > 0 && v'.rules.cr == v.rules.cr
    ensures var n := Pending(v, op, v');
      && n.At(0, Idle) && n.mu == Free && n.readers == {} && v.blocks in n.ever && n.view == v'
      && n.disk == Image(n.Cr(), v.blocks) && n.Cr() == v.rules.cr
  {
    hide Image, WriteOf;
  }

  /** Between the change of memory and the first store transaction of any reorg a checkpoint of the
      new branch can be applied whose height the store still fills otherwise. `CrashAfterCheckpoint`
      then brings the contradicting chain back. */
  lemma {:induction false} PendingContradicts(v: View, op: Op, v': View, h: nat)
    requires Ideal(v.rules.cr) && ChainOk(v.rules.cr, v.blocks) && Step(v, op, v') && op.AdoptOp?
    requires 0 < h < |v.blocks| && h < |v'.blocks| && Hash(v.rules.cr, v'.blocks[h]) != Hash(v.rules.cr, v.blocks[h])
    ensures var n, cp := Pending(v, op, v'), Anchor(h, Hash(v.rules.cr, v'.blocks[h]));
      && Inv(Adopting(v)) && Next(Adopting(v), Change(1, op), n)
      && HistoryOk(n) && n.At(0, Idle) && n.mu == Free && n.readers == {} && v.blocks in n.ever
      && n.disk == Image(n.Cr(), v.blocks) && Holds(n.Cr(), n.view.blocks, cp)
      && !Kept(n.Cr(), v.blocks, cp.height, cp.hash)
  {
    AdoptingInv(v);
    PendingNext(v, op, v');
    NextHistory(Adopting(v), Change(1, op), Pending(v, op, v'));
    SameCrypto(v, op, v');
    PendingFacts(v, op, v');
    hide Next, HistoryOk, LocksOk, SyncedOk, Image, Step, WriteOf, ChainOk, Ideal, Hash, Adopting, Pending;
  }

  lemma {:induction false} WitnessesDiffer(cr: Crypto)
    requires Ideal(cr)
    ensures Hash(cr, Witness.FirstChain(cr)[49]) != Hash(cr, Witness.SecondChain(cr)[49])
  {
    Witness.ChainBlock(cr, 60, 49, 2, 60);
    Witness.ChainBlock(cr, 61, 49, 2, 49);
    var x, y := Witness.FirstChain(cr)[49], Witness.SecondChain(cr)[49];
    hide Witness.Chain, RequiredTarget, BlockSubsidy;
    assert x.txs[0].sig != y.txs[0].sig;
    assert Ids(cr, x.txs)[0] != Ids(cr, y.txs)[0];
    assert x.hd.txRoot != y.hd.txRoot;
  }

  /** Such reorgs exist: the first one of the stale run replaces block 49. */
  lemma {:induction false} ReorgExists(cr: Crypto, v: View, op: Op, v': View)
    requires Ideal(cr) && Witness.Easy(cr) && v == Witness.StaleViews(cr)[1] && v' == Witness.StaleViews(cr)[2]
    requires op.AdoptOp? && op == Witness.StaleOps(cr, op.now)[1]
    requires op.now >= GENESIS_TIME + BLOCK_TARGET_SPACING * Activation.SIGNAL_WINDOW
    ensures ChainOk(cr, v.blocks) && Step(v, op, v') && 49 < |v.blocks| && 49 < |v'.blocks| && v.rules.cr == cr
    ensures Hash(cr, v'.blocks[49]) != Hash(cr, v.blocks[49])
  {
    Witness.FirstAdoption(cr, v, op, v');
    Witness.ChainValid(cr, 60, 2, 60);
    WitnessesDiffer(cr);
    hide Step, ChainOk, Witness.Chain, Hash;
  }
}
