/** The two-lock commit protocol (core/chain.go AddBlock, TryAdoptChain, runCommit, loadBolt) as
    interleaved steps of any number of threads. A writer takes diskMu, then mu; changes memory;
    releases mu; commits to the store under diskMu alone; releases diskMu. A commit may fail, and
    the process may die between any two store transactions and load again. */
module Commit {
  import opened Types
  import opened Validation
  import opened Identity
  import opened Protocol
  import opened Store
  import opened BlockStore
  import opened Recovery
  import Activation
  import Runs

  // ----------------------------------------------------- what a commit may leave

  function NewBlocks(w: DiskWrite): seq<Block> {
    match w
    case NoWrite => []
    case Extend(bs, _) => bs
    case Rewrite(_, bs, _) => bs
  }

  /** The first height a commit may delete. */
  function Floor(w: DiskWrite, base: seq<Block>): nat {
    if w.Rewrite? then w.fork else |base|
  }

  /** The chain in memory once a write is pending on `base`. */
  function Written(base: seq<Block>, w: DiskWrite): seq<Block> {
    match w
    case NoWrite => base
    case Extend(bs, _) => base + bs
    case Rewrite(fork, bs, _) => if fork <= |base| then base[..fork] + bs else base
  }

  /** The store holds a prefix of `base` that keeps everything below the floor, or the blocks
      below the floor and a prefix of the new ones. */
  ghost predicate Midway(cr: Crypto, d: Buckets, base: seq<Block>, w: DiskWrite) {
    Floor(w, base) <= |base| && Between(cr, d, base, Floor(w, base), NewBlocks(w))
  }

  /** `base` was stored exactly and the pending write leads to a chain keyed by height. */
  ghost predicate Sound(cr: Crypto, d: Buckets, base: seq<Block>, w: DiskWrite) {
    && Ideal(cr) && ChainOk(cr, base) && NoncesFit(base) && d == Image(cr, base)
    && !w.NoWrite? && 1 <= Floor(w, base) <= |base| && Heights(Written(base, w))
  }

  /** How a commit may change the store: never more than this, and exactly the new chain when
      it succeeds on an exact store. */
  ghost predicate Outcome(cr: Crypto, before: Buckets, after: Buckets, base: seq<Block>, w: DiskWrite, ok: bool) {
    && Mixed(before.blocks, after.blocks, Floor(w, base), NewBlocks(w))
    && (Sound(cr, before, base, w) ==> Midway(cr, after, base, w) && (ok ==> after == Image(cr, Written(base, w))))
  }

  lemma {:induction false} OldIsMidway(cr: Crypto, d: Buckets, base: seq<Block>, w: DiskWrite)
    requires Sound(cr, d, base, w)
    ensures Midway(cr, d, base, w)
  {
    hide ChainOk, Ideal, Image, Heights;
    assert base[..|base|] == base;
  }

  lemma {:induction false} NewIsMidway(cr: Crypto, d: Buckets, base: seq<Block>, w: DiskWrite)
    requires Floor(w, base) <= |base| && d == Image(cr, Written(base, w))
    ensures Midway(cr, d, base, w)
  {
    hide Image;
    var bs := NewBlocks(w);
    assert bs[..|bs|] == bs;
    assert base[..|base|] == base;
    if !w.NoWrite? {
      Appending(cr, d, base, Floor(w, base), bs, |bs|);
    }
  }

  /** runCommit on the closure that AddBlock or TryAdoptChain left: commitExtend or commitReorg. */
  method RunCommit(store: BoltStore, w: DiskWrite, ghost base: seq<Block>) returns (ok: bool)
    modifies store
    ensures Outcome(store.cr, old(store.db).buckets, store.db.buckets, base, w, ok)
    ensures ok && Sound(store.cr, old(store.db).buckets, base, w) ==>
      store.db.tip == |Written(base, w)| - 1 && store.db.cumWork == w.work
  {
    hide ChainOk, Ideal, Image, Heights, Between, Mixed, NoncesFit, Midway;
    ghost var cr, before := store.cr, store.db.buckets;
    match w {
      case NoWrite =>
        SameMixed(before.blocks, Floor(w, base), []);
        ok := true;
      case Extend(bs, work) =>
        ok := store.AppendBlocks(bs, work, base, |base|);
        if Sound(cr, before, base, w) {
          if ok {
            NewIsMidway(cr, store.db.buckets, base, w);
          } else {
            OldIsMidway(cr, before, base, w);
          }
        }
      case Rewrite(fork, bs, work) =>
        ok := store.TruncateAndAppend(fork, bs, work, base);
        if Sound(cr, before, base, w) {
          assert Reorg(cr, before, base, fork, bs);
          assert Midway(cr, store.db.buckets, base, w) by {
            MidwayIs(cr, store.db.buckets, base, w);
          }
        }
    }
  }

  lemma {:induction false} MidwayIs(cr: Crypto, d: Buckets, base: seq<Block>, w: DiskWrite)
    requires w.Rewrite? && w.fork <= |base| && Between(cr, d, base, w.fork, w.branch)
    ensures Midway(cr, d, base, w)
  {
  }

  // ---------------------------------------------------------------- the node

  datatype Lock = Free | HeldBy(t: nat)

  /** Where a thread is. `Committing` remembers its pending write, the chain it was made on and
      the store when the commit began. */
  datatype Pc =
    | Idle
    | Waiting
    | Changing
    | Committing(write: DiskWrite, base: seq<Block>, before: Buckets)
    | MuOnly
    | Reading

  /** `exact`: no commit has failed since the store was last rewritten from memory. `ever`: the
      chains that have been current. */
  datatype Node = Node(up: bool, view: View, disk: Buckets, diskMu: Lock, mu: Lock, readers: set<nat>,
                       pcs: map<nat, Pc>, exact: bool, ever: set<seq<Block>>)
  {
    function Cr(): Crypto { view.rules.cr }

    ghost predicate At(t: nat, p: Pc) {
      up && t in pcs && pcs[t] == p
    }
  }

  datatype Action =
    | TakeDiskMu(t: nat)
    | TakeMu(t: nat)
    | Change(t: nat, op: Op)
    | Transaction(t: nat)
    | Finish(t: nat, ok: bool)
    | TakeMuOnly(t: nat)
    | Other(t: nat, op: Op)
    | ReadLock(t: nat)
    | ReadUnlock(t: nat)
    | Crash
    | Restart(bound: nat, ok: bool)

  ghost predicate ChangeStep(n: Node, t: nat, op: Op, n': Node) {
    && n.At(t, Changing) && (op.AddBlockOp? || op.AdoptOp?) && |n.view.blocks| > 0
    && Step(n.view, op, n'.view)
    && var w := WriteOf(n.view, op);
      n' == n.(view := n'.view, mu := Free, ever := n.ever + {n'.view.blocks},
               diskMu := if w.NoWrite? then Free else n.diskMu,
               pcs := n.pcs[t := if w.NoWrite? then Idle else Committing(w, n.view.blocks, n.disk)])
  }

  ghost predicate TransactionStep(n: Node, t: nat, n': Node) {
    && n.up && t in n.pcs && n.pcs[t].Committing?
    && Outcome(n.Cr(), n.pcs[t].before, n'.disk, n.pcs[t].base, n.pcs[t].write, false)
    && n' == n.(disk := n'.disk)
  }

  ghost predicate FinishStep(n: Node, t: nat, ok: bool, n': Node) {
    && n.up && t in n.pcs && n.pcs[t].Committing?
    && Outcome(n.Cr(), n.pcs[t].before, n'.disk, n.pcs[t].base, n.pcs[t].write, ok)
    && n' == n.(disk := n'.disk, diskMu := Free, pcs := n.pcs[t := Idle], exact := n.exact && ok)
  }

  ghost predicate OtherStep(n: Node, t: nat, op: Op, n': Node) {
    && n.At(t, MuOnly) && !op.AddBlockOp? && !op.AdoptOp? && |n.view.blocks| > 0
    && Step(n.view, op, n'.view)
    && n' == n.(view := n'.view, mu := Free, pcs := n.pcs[t := Idle])
  }

  /** What rebuild may leave: `BoltStore.Rebuild`'s contract. */
  ghost predicate Rebuilt(cr: Crypto, before: Buckets, after: Buckets, chain: seq<Block>, ok: bool) {
    && Mixed(before.blocks, after.blocks, 0, chain)
    && (after == before || exists k :: 0 <= k <= |chain| && after == Image(cr, chain[..k]))
    && (ok ==> after == Image(cr, chain))
  }

  ghost predicate RestartStep(n: Node, bound: nat, ok: bool, n': Node) {
    var r := LoadOf(n.Cr(), Ascending(n.disk.blocks, bound));
    && !n.up && Below(n.disk.blocks, bound) && r.Loaded?
    && (if r.rebuild then Rebuilt(n.Cr(), n.disk, n'.disk, r.chain, ok) else n'.disk == n.disk && ok)
    && Restarted(n.view, r.chain, n'.view)
    && n' == n.(up := ok, view := n'.view, disk := n'.disk, ever := n.ever + {r.chain},
                exact := n.exact || (r.rebuild && ok))
  }

  ghost predicate Next(n: Node, a: Action, n': Node) {
    match a
    case TakeDiskMu(t) =>
      n.At(t, Idle) && n.diskMu == Free && n' == n.(diskMu := HeldBy(t), pcs := n.pcs[t := Waiting])
    case TakeMu(t) =>
      n.At(t, Waiting) && n.mu == Free && n.readers == {} && n' == n.(mu := HeldBy(t), pcs := n.pcs[t := Changing])
    case Change(t, op) => ChangeStep(n, t, op, n')
    case Transaction(t) => TransactionStep(n, t, n')
    case Finish(t, ok) => FinishStep(n, t, ok, n')
    case TakeMuOnly(t) =>
      n.At(t, Idle) && n.mu == Free && n.readers == {} && n' == n.(mu := HeldBy(t), pcs := n.pcs[t := MuOnly])
    case Other(t, op) => OtherStep(n, t, op, n')
    case ReadLock(t) =>
      n.At(t, Idle) && n.mu == Free && n' == n.(readers := n.readers + {t}, pcs := n.pcs[t := Reading])
    case ReadUnlock(t) =>
      n.At(t, Reading) && n' == n.(readers := n.readers - {t}, pcs := n.pcs[t := Idle])
    case Crash =>
      n.up && n' == n.(up := false, diskMu := Free, mu := Free, readers := {}, pcs := map t | t in n.pcs :: Idle)
    case Restart(bound, ok) => RestartStep(n, bound, ok, n')
  }

  /** A fresh installation. */
  ghost predicate Init(n: Node) {
    && Ideal(n.Cr()) && !n.up && n.disk == EMPTY && n.exact && n.ever == {[Genesis(n.Cr())]}
    && n.diskMu == Free && n.mu == Free && n.readers == {} && forall t :: t in n.pcs ==> n.pcs[t] == Idle
  }

  // -------------------------------------------------------------- the invariant

  predicate WantsDisk(p: Pc) { p.Waiting? || p.Changing? || p.Committing? }

  predicate WritesMemory(p: Pc) { p.Changing? || p.MuOnly? }

  /** Each lock is held by exactly the threads that the protocol says. */
  ghost predicate LocksOk(n: Node) {
    && (forall t :: t in n.pcs ==> (WantsDisk(n.pcs[t]) <==> n.diskMu == HeldBy(t)))
    && (forall t :: t in n.pcs ==> (WritesMemory(n.pcs[t]) <==> n.mu == HeldBy(t)))
    && (forall t :: t in n.pcs ==> (n.pcs[t].Reading? <==> t in n.readers))
    && (n.diskMu.HeldBy? ==> n.diskMu.t in n.pcs)
    && (n.mu.HeldBy? ==> n.mu.t in n.pcs && n.readers == {})
    && n.readers <= n.pcs.Keys
    && (!n.up ==> forall t :: t in n.pcs ==> n.pcs[t] == Idle)
  }

  ghost predicate GoodDisk(d: Buckets, ever: set<seq<Block>>) {
    Sourced(d.blocks, ever) && 0 in d.blocks
  }

  /** Exactly one write separates memory from the chain the commit started on. */
  ghost predicate PendingOk(n: Node, p: Pc)
    requires p.Committing?
  {
    && !p.write.NoWrite? && 1 <= Floor(p.write, p.base) <= |p.base|
    && p.base in n.ever && n.view.blocks == Written(p.base, p.write)
    && GoodDisk(p.before, n.ever)
  }

  ghost predicate HistoryOk(n: Node) {
    && Ideal(n.Cr()) && AllOk(n.Cr(), n.ever) && [Genesis(n.Cr())] in n.ever
    && (n.up ==> GoodDisk(n.disk, n.ever) && n.view.blocks in n.ever)
    && (n.disk.blocks == map[] || GoodDisk(n.disk, n.ever))
    && forall t :: t in n.pcs && n.pcs[t].Committing? ==> PendingOk(n, n.pcs[t])
  }

  ghost predicate NoCommit(n: Node) {
    forall t :: t in n.pcs ==> !n.pcs[t].Committing?
  }

  ghost predicate PendingExact(cr: Crypto, disk: Buckets, p: Pc)
    requires p.Committing?
  {
    p.before == Image(cr, p.base) && Midway(cr, disk, p.base, p.write)
  }

  ghost predicate StoresPrefix(cr: Crypto, disk: Buckets, ever: set<seq<Block>>) {
    exists p :: PrefixOfEver(p, ever) && disk == Image(cr, p)
  }

  /** Without a failed commit the store is the image of memory, or of a state of the one
      pending commit, or after a crash of a prefix of a once-current chain. */
  ghost predicate SyncedOk(n: Node) {
    && (n.up && NoCommit(n) ==> n.disk == Image(n.Cr(), n.view.blocks))
    && (forall t :: t in n.pcs && n.pcs[t].Committing? ==> PendingExact(n.Cr(), n.disk, n.pcs[t]))
    && (!n.up ==> StoresPrefix(n.Cr(), n.disk, n.ever))
  }

  ghost predicate Inv(n: Node) {
    LocksOk(n) && HistoryOk(n) && (n.exact ==> SyncedOk(n))
  }

  ghost predicate Fits(n: Node) {
    forall c :: c in n.ever ==> NoncesFit(c)
  }

  lemma {:induction false} InitInv(n: Node)
    requires Init(n)
    ensures Inv(n)
  {
    var g := [Genesis(n.Cr())];
    assert g[..0] == [];
    assert Image(n.Cr(), g[..0]) == EMPTY;
    assert g[..0] <= g;
    assert PrefixOfEver(g[..0], n.ever);
  }

  /** The locks stay consistent whatever the disk does. */
  lemma {:induction false} NextLocks(n: Node, a: Action, n': Node)
    requires LocksOk(n) && Next(n, a, n')
    ensures LocksOk(n')
  {
    hide Step, Outcome, Rebuilt, LoadOf, Ascending, Below, WriteOf, ChangeStep, OtherStep, FinishStep, RestartStep;
    match a
    case Change(t, op) => ChangeLocks(n, t, op, n');
    case Finish(t, ok) => FinishLocks(n, t, ok, n');
    case Other(t, op) => OtherLocks(n, t, op, n');
    case Restart(bound, ok) => RestartLocks(n, bound, ok, n');
    case _ =>
  }

  lemma {:induction false} ChangeLocks(n: Node, t: nat, op: Op, n': Node)
    requires LocksOk(n) && ChangeStep(n, t, op, n')
    ensures LocksOk(n')
  {
    hide Step, WriteOf;
  }

  lemma {:induction false} FinishLocks(n: Node, t: nat, ok: bool, n': Node)
    requires LocksOk(n) && FinishStep(n, t, ok, n')
    ensures LocksOk(n')
  {
    hide Outcome;
  }

  lemma {:induction false} OtherLocks(n: Node, t: nat, op: Op, n': Node)
    requires LocksOk(n) && OtherStep(n, t, op, n')
    ensures LocksOk(n')
  {
    hide Step;
  }

  lemma {:induction false} RestartLocks(n: Node, bound: nat, ok: bool, n': Node)
    requires LocksOk(n) && RestartStep(n, bound, ok, n')
    ensures LocksOk(n')
  {
    hide Rebuilt, LoadOf, Ascending, Below, Restarted;
  }

  // --------------------------------------------------------------- history

  lemma {:induction false} OtherKeeps(v: View, op: Op, v': View)
    requires |v.blocks| > 0 && Step(v, op, v') && !op.AddBlockOp? && !op.AdoptOp?
    ensures v'.blocks == v.blocks && v'.rules.cr == v.rules.cr
  {
  }

  /** A change makes exactly the chain that its pending write announces. */
  lemma {:induction false} ChangeWrites(v: View, op: Op, v': View)
    requires |v.blocks| > 0 && ChainOk(v.rules.cr, v.blocks) && Step(v, op, v')
    ensures v'.rules.cr == v.rules.cr && ChainOk(v.rules.cr, v'.blocks)
    ensures var w := WriteOf(v, op);
      && v'.blocks == Written(v.blocks, w) && 1 <= Floor(w, v.blocks) <= |v.blocks|
  {
    Runs.StepChainOk(v, op, v');
    hide *;
    match op
    case AdoptOp(start, nbs, now) => AdoptWrites(v, op, v');
    case _ => ExtendWrites(v, op, v');
  }

  lemma {:induction false} AdoptWrites(v: View, op: Op, v': View)
    requires |v.blocks| > 0 && Step(v, op, v') && op.AdoptOp?
    ensures var w := WriteOf(v, op);
      && v'.blocks == Written(v.blocks, w) && 1 <= Floor(w, v.blocks) <= |v.blocks|
  {
    hide Outweighs, TooDeepFor, DropsCheckpoint, CandidateOk, LwmaAfter, FeeAfter, RecoveryAfter, WorkSum;
    if op.start == |v.blocks| {
      assert v.blocks[..op.start] == v.blocks;
    }
  }

  lemma {:induction false} ExtendWrites(v: View, op: Op, v': View)
    requires |v.blocks| > 0 && Step(v, op, v') && !op.AdoptOp?
    ensures var w := WriteOf(v, op);
      && v'.blocks == Written(v.blocks, w) && 1 <= Floor(w, v.blocks) <= |v.blocks|
  {
    hide NextOk, LwmaAfter, FeeAfter, RecoveryAfter, WorkSum;
  }

  lemma {:induction false} EverGrows(m: map<nat, Block>, ever: set<seq<Block>>, c: seq<Block>)
    requires Sourced(m, ever)
    ensures Sourced(m, ever + {c})
  {
    forall h | h in m ensures FromEver(m[h], h, ever + {c}) {
      assert FromEver(m[h], h, ever);
      var d :| d in ever && h < |d| && d[h] == m[h];
      assert d in ever + {c};
    }
  }

  lemma {:induction false} MixedGood(cr: Crypto, before: Buckets, after: Buckets, lo: nat, bs: seq<Block>,
      c: seq<Block>, ever: set<seq<Block>>)
    requires AllOk(cr, ever) && GoodDisk(before, ever) && c in ever && 1 <= lo
    requires Mixed(before.blocks, after.blocks, lo, bs) && forall b :: b in bs ==> b in c
    ensures GoodDisk(after, ever)
  {
    hide ChainOk;
    SourcedKeyed(cr, before.blocks, ever);
    forall h | h in after.blocks ensures FromEver(after.blocks[h], h, ever) {
      if h in before.blocks && after.blocks[h] == before.blocks[h] {
        assert FromEver(before.blocks[h], h, ever);
      } else {
        var j :| 0 <= j < |c| && c[j] == after.blocks[h];
        ChainSealed(cr, c, j);
      }
    }
  }

  lemma {:induction false} NewAreWritten(base: seq<Block>, w: DiskWrite)
    requires Floor(w, base) <= |base|
    ensures forall b :: b in NewBlocks(w) ==> b in Written(base, w)
  {
  }

  lemma {:induction false} OutcomeGood(n: Node, p: Pc, after: Buckets, ok: bool)
    requires AllOk(n.Cr(), n.ever) && n.view.blocks in n.ever && p.Committing? && PendingOk(n, p)
    requires Outcome(n.Cr(), p.before, after, p.base, p.write, ok)
    ensures GoodDisk(after, n.ever)
  {
    hide AllOk, GoodDisk, Mixed, Sound, Midway;
    NewAreWritten(p.base, p.write);
    hide Written, NewBlocks, Floor;
    MixedGood(n.Cr(), p.before, after, Floor(p.write, p.base), NewBlocks(p.write), n.view.blocks, n.ever);
  }

  lemma {:induction false} ChangeHistory(n: Node, t: nat, op: Op, n': Node)
    requires LocksOk(n) && HistoryOk(n) && ChangeStep(n, t, op, n')
    ensures HistoryOk(n')
  {
    hide ChainOk, Step, WriteOf, Sourced, Ideal;
    ChangeWrites(n.view, op, n'.view);
    EverGrows(n.disk.blocks, n.ever, n'.view.blocks);
    hide Written, Floor;
    assert AllOk(n'.Cr(), n'.ever);
    forall u | u in n'.pcs && n'.pcs[u].Committing? ensures PendingOk(n', n'.pcs[u]) {
      assert u == t;
    }
  }

  lemma {:induction false} CommitHistory(n: Node, t: nat, ok: bool, n': Node)
    requires LocksOk(n) && HistoryOk(n) && (TransactionStep(n, t, n') || FinishStep(n, t, ok, n'))
    ensures HistoryOk(n')
  {
    hide ChainOk, Sourced, Ideal, AllOk, Outcome, Written, Floor;
    OutcomeGood(n, n.pcs[t], n'.disk, if TransactionStep(n, t, n') then false else ok);
  }

  lemma {:induction false} OtherHistory(n: Node, t: nat, op: Op, n': Node)
    requires HistoryOk(n) && OtherStep(n, t, op, n')
    ensures HistoryOk(n')
  {
    hide ChainOk, Sourced, Ideal, AllOk, Step, Written, Floor;
    OtherKeeps(n.view, op, n'.view);
  }

  lemma {:induction false} PrefixOk(cr: Crypto, p: seq<Block>, ever: set<seq<Block>>)
    requires AllOk(cr, ever) && PrefixOfEver(p, ever) && |p| > 0
    ensures ChainOk(cr, p)
  {
    hide ChainOk;
    var c :| c in ever && p <= c;
    ChainOkPrefix(cr, c, |p|);
    assert c[..|p|] == p;
  }

  /** What a prefix image stores comes from the chain it is a prefix of. */
  lemma {:induction false} ImageGood(cr: Crypto, chain: seq<Block>, k: nat, ever: set<seq<Block>>)
    requires ChainOk(cr, chain) && chain in ever && k <= |chain|
    ensures var d := Image(cr, chain[..k]); Sourced(d.blocks, ever) && (k == 0 ==> d.blocks == map[]) && (k > 0 ==> 0 in d.blocks)
  {
    PrefixCovered(cr, chain, k);
    hide ChainOk, Image;
    var d := Image(cr, chain[..k]);
    forall h | h in d.blocks ensures FromEver(d.blocks[h], h, ever) {
      assert d.blocks[h] == chain[..k][h] == chain[h];
    }
    if k == 0 {
      assert d.blocks == map[];
    }
  }

  lemma {:induction false} RebuiltGood(cr: Crypto, before: Buckets, after: Buckets, chain: seq<Block>, ok: bool,
      ever: set<seq<Block>>)
    requires ChainOk(cr, chain) && chain in ever && Rebuilt(cr, before, after, chain, ok)
    requires before.blocks == map[] || GoodDisk(before, ever)
    ensures after.blocks == map[] || GoodDisk(after, ever)
    ensures ok ==> GoodDisk(after, ever)
  {
    hide ChainOk, Image, Mixed, Sourced;
    assert |chain| > 0 by {
      NotEmpty(cr, chain);
    }
    ImageGood(cr, chain, |chain|, ever);
    assert chain[..|chain|] == chain;
    if after != before {
      var k :| 0 <= k <= |chain| && after == Image(cr, chain[..k]);
      ImageGood(cr, chain, k, ever);
    }
  }

  lemma {:induction false} NotEmpty(cr: Crypto, chain: seq<Block>)
    requires ChainOk(cr, chain)
    ensures |chain| > 0
  {
  }

  lemma {:induction false} RestartHistory(n: Node, bound: nat, ok: bool, n': Node)
    requires LocksOk(n) && HistoryOk(n) && RestartStep(n, bound, ok, n')
    ensures HistoryOk(n')
  {
    var cr, r := n.Cr(), LoadOf(n.Cr(), Ascending(n.disk.blocks, bound));
    hide ChainOk, Sourced, Ideal, Ascending, Below, Rebuilt, LoadOf, PrefixOfEver;
    EmptySourced(n.disk.blocks, n.ever);
    LoadRecovers(cr, n.disk.blocks, bound, n.ever);
    PrefixOk(cr, r.chain, n.ever);
    EverGrows(n.disk.blocks, n.ever, r.chain);
    if r.rebuild {
      RebuiltGood(cr, n.disk, n'.disk, r.chain, ok, n'.ever);
    } else {
      LoadsSomething(cr, n.disk.blocks, bound);
    }
  }

  lemma {:induction false} EmptySourced(m: map<nat, Block>, ever: set<seq<Block>>)
    ensures m == map[] ==> Sourced(m, ever)
  {
  }

  lemma {:induction false} LoadsSomething(cr: Crypto, m: map<nat, Block>, bound: nat)
    requires var r := LoadOf(cr, Ascending(m, bound)); r.Loaded? && !r.rebuild
    ensures m != map[]
  {
    if m == map[] {
      NothingAscending(m, bound);
    }
  }

  lemma {:induction false} NextHistory(n: Node, a: Action, n': Node)
    requires LocksOk(n) && HistoryOk(n) && Next(n, a, n')
    ensures HistoryOk(n')
  {
    hide ChainOk, Sourced, Ideal, AllOk, ChangeStep, TransactionStep, FinishStep, OtherStep, RestartStep, Written;
    hide Floor;
    match a
    case Change(t, op) => ChangeHistory(n, t, op, n');
    case Transaction(t) => CommitHistory(n, t, false, n');
    case Finish(t, ok) => CommitHistory(n, t, ok, n');
    case Other(t, op) => OtherHistory(n, t, op, n');
    case Restart(bound, ok) => RestartHistory(n, bound, ok, n');
    case _ =>
  }

  // ------------------------------------------------------- store against memory

  lemma {:induction false} SoundBy(cr: Crypto, d: Buckets, base: seq<Block>, w: DiskWrite)
    requires Ideal(cr) && ChainOk(cr, base) && NoncesFit(base) && d == Image(cr, base)
    requires !w.NoWrite? && 1 <= Floor(w, base) <= |base| && ChainOk(cr, Written(base, w))
    ensures Sound(cr, d, base, w)
  {
    hide ChainOk, Ideal, Image;
    ChainHeights(cr, Written(base, w));
  }

  lemma {:induction false} ChangeSynced(n: Node, t: nat, op: Op, n': Node)
    requires LocksOk(n) && HistoryOk(n) && SyncedOk(n) && Fits(n) && ChangeStep(n, t, op, n')
    ensures SyncedOk(n')
  {
    var cr, base, w := n.Cr(), n.view.blocks, WriteOf(n.view, op);
    hide *;
    ChangeIsMidway(n, t, op, n');
    ChangeLands(n, t, op, n');
    NoWriteWritten(base, w);
  }

  lemma {:induction false} ChangeLands(n: Node, t: nat, op: Op, n': Node)
    requires LocksOk(n) && ChangeStep(n, t, op, n') && n'.view.rules.cr == n.Cr()
    requires var w := WriteOf(n.view, op);
      && n.disk == Image(n.Cr(), n.view.blocks)
      && if w.NoWrite? then n'.view.blocks == n.view.blocks else Midway(n.Cr(), n.disk, n.view.blocks, w)
    ensures SyncedOk(n')
  {
    hide Step, WriteOf, Image, Midway, StoresPrefix;
    OnlyWriter(n, t);
    hide LocksOk;
    assert n'.pcs[t].Committing? || n'.disk == Image(n'.Cr(), n'.view.blocks);
  }

  lemma {:induction false} OnlyWriter(n: Node, t: nat)
    requires LocksOk(n) && n.At(t, Changing)
    ensures NoCommit(n)
  {
  }

  lemma {:induction false} ChangeIsMidway(n: Node, t: nat, op: Op, n': Node)
    requires LocksOk(n) && HistoryOk(n) && SyncedOk(n) && Fits(n) && ChangeStep(n, t, op, n')
    ensures var w := WriteOf(n.view, op);
      && n.disk == Image(n.Cr(), n.view.blocks)
      && n'.view.blocks == Written(n.view.blocks, w) && n'.view.rules.cr == n.Cr()
      && (!w.NoWrite? ==> Midway(n.Cr(), n.disk, n.view.blocks, w))
  {
    var cr, base, w := n.Cr(), n.view.blocks, WriteOf(n.view, op);
    hide *;
    ChangeFacts(n, t, op, n');
    ChangeWrites(n.view, op, n'.view);
    if !w.NoWrite? {
      SoundBy(cr, n.disk, base, w);
      OldIsMidway(cr, n.disk, base, w);
    }
  }

  lemma {:induction false} ChangeFacts(n: Node, t: nat, op: Op, n': Node)
    requires LocksOk(n) && HistoryOk(n) && SyncedOk(n) && Fits(n) && ChangeStep(n, t, op, n')
    ensures Ideal(n.view.rules.cr) && ChainOk(n.view.rules.cr, n.view.blocks) && NoncesFit(n.view.blocks)
    ensures n.disk == Image(n.view.rules.cr, n.view.blocks) && |n.view.blocks| > 0 && Step(n.view, op, n'.view)
    ensures n.Cr() == n.view.rules.cr
  {
    assert NoCommit(n);
    hide Step, WriteOf, Image, Ideal, ChainOk, Sourced;
  }

  lemma {:induction false} NoWriteWritten(base: seq<Block>, w: DiskWrite)
    ensures w.NoWrite? ==> Written(base, w) == base
  {
  }

  lemma {:induction false} CommitSynced(n: Node, t: nat, ok: bool, after: Buckets)
    requires LocksOk(n) && HistoryOk(n) && SyncedOk(n) && Fits(n) && n.up && t in n.pcs && n.pcs[t].Committing?
    requires Outcome(n.Cr(), n.pcs[t].before, after, n.pcs[t].base, n.pcs[t].write, ok)
    ensures PendingExact(n.Cr(), after, n.pcs[t])
    ensures ok ==> after == Image(n.Cr(), n.view.blocks)
  {
    var p := n.pcs[t];
    assert PendingOk(n, p) && PendingExact(n.Cr(), n.disk, p);
    assert ChainOk(n.Cr(), p.base) && NoncesFit(p.base) && ChainOk(n.Cr(), n.view.blocks);
    hide ChainOk, NoncesFit, Ideal, Image, Midway, Sound, Mixed, Written, Floor;
    SoundBy(n.Cr(), p.before, p.base, p.write);
  }

  lemma {:induction false} TransactionSynced(n: Node, t: nat, n': Node)
    requires LocksOk(n) && HistoryOk(n) && SyncedOk(n) && Fits(n) && TransactionStep(n, t, n')
    ensures SyncedOk(n')
  {
    hide Image, PendingExact, Outcome, HistoryOk, Fits;
    CommitSynced(n, t, false, n'.disk);
    assert forall u :: u in n.pcs && n.pcs[u].Committing? ==> u == t;
  }

  lemma {:induction false} FinishSynced(n: Node, t: nat, n': Node)
    requires LocksOk(n) && HistoryOk(n) && SyncedOk(n) && Fits(n) && FinishStep(n, t, true, n')
    ensures SyncedOk(n')
  {
    hide Image, PendingExact, Outcome, HistoryOk, Fits;
    CommitSynced(n, t, true, n'.disk);
    assert forall u :: u in n.pcs && n.pcs[u].Committing? ==> u == t;
  }

  lemma {:induction false} MidwayIsPrefix(cr: Crypto, d: Buckets, base: seq<Block>, w: DiskWrite,
      ever: set<seq<Block>>)
    requires Midway(cr, d, base, w) && base in ever && Written(base, w) in ever
    ensures StoresPrefix(cr, d, ever)
  {
    hide Image;
    var lo, bs := Floor(w, base), NewBlocks(w);
    if k :| lo <= k <= |base| && d == Image(cr, base[..k]) {
      assert base[..k] <= base;
      assert PrefixOfEver(base[..k], ever);
    } else {
      var k :| 0 <= k <= |bs| && d == Image(cr, base[..lo] + bs[..k]);
      assert base[..|base|] == base;
      assert base[..lo] + bs[..k] <= Written(base, w);
      assert PrefixOfEver(base[..lo] + bs[..k], ever);
    }
  }

  lemma {:induction false} CrashSynced(n: Node, n': Node)
    requires LocksOk(n) && HistoryOk(n) && SyncedOk(n) && Next(n, Crash, n')
    ensures SyncedOk(n')
  {
    hide Image, Midway, Written, Floor, GoodDisk, AllOk, Ideal;
    if NoCommit(n) {
      assert n.view.blocks <= n.view.blocks;
      assert PrefixOfEver(n.view.blocks, n.ever);
    } else {
      var t :| t in n.pcs && n.pcs[t].Committing?;
      var p := n.pcs[t];
      assert PendingOk(n, p);
      MidwayIsPrefix(n.Cr(), n.disk, p.base, p.write, n.ever);
    }
  }

  lemma {:induction false} PrefixGrows(cr: Crypto, d: Buckets, ever: set<seq<Block>>, c: seq<Block>)
    requires StoresPrefix(cr, d, ever)
    ensures StoresPrefix(cr, d, ever + {c})
  {
    hide Image;
    var p :| PrefixOfEver(p, ever) && d == Image(cr, p);
    var e :| e in ever && p <= e;
    assert e in ever + {c};
    assert PrefixOfEver(p, ever + {c});
  }

  /** A node that restarts from a store no failed commit has touched has all of it in memory. */
  lemma {:induction false} RestartsWhole(cr: Crypto, d: Buckets, bound: nat, ever: set<seq<Block>>)
    requires AllOk(cr, ever) && StoresPrefix(cr, d, ever) && Below(d.blocks, bound)
    requires var r := LoadOf(cr, Ascending(d.blocks, bound)); r.Loaded? && !r.rebuild
    ensures d == Image(cr, LoadOf(cr, Ascending(d.blocks, bound)).chain)
  {
    hide AllOk, LoadOf, Ascending, Below, PrefixOfEver, Image;
    var p :| PrefixOfEver(p, ever) && d == Image(cr, p);
    LoadsSomething(cr, d.blocks, bound);
    if p == [] {
      EmptyImage(cr, map[]);
    } else {
      PrefixOk(cr, p, ever);
      LoadExact(cr, p, bound);
    }
  }

  lemma {:induction false} RebuiltPrefix(cr: Crypto, before: Buckets, after: Buckets, chain: seq<Block>,
      ever: set<seq<Block>>)
    requires StoresPrefix(cr, before, ever) && Rebuilt(cr, before, after, chain, false) && chain in ever
    ensures StoresPrefix(cr, after, ever)
  {
    hide Image, Mixed;
    if after != before {
      var k :| 0 <= k <= |chain| && after == Image(cr, chain[..k]);
      assert chain[..k] <= chain;
      assert PrefixOfEver(chain[..k], ever);
    }
  }

  lemma {:induction false} RestartSynced(n: Node, bound: nat, ok: bool, n': Node)
    requires LocksOk(n) && HistoryOk(n) && (n.exact ==> SyncedOk(n)) && RestartStep(n, bound, ok, n') && n'.exact
    ensures SyncedOk(n')
  {
    var cr, r := n.Cr(), LoadOf(n.Cr(), Ascending(n.disk.blocks, bound));
    assert AllOk(cr, n.ever);
    hide AllOk, LoadOf, Ascending, Below, PrefixOfEver, Image, Ideal, GoodDisk, StoresPrefix, Mixed;
    if !r.rebuild {
      RestartsWhole(cr, n.disk, bound, n.ever);
    } else if !ok {
      PrefixGrows(cr, n.disk, n.ever, r.chain);
      RebuiltPrefix(cr, n.disk, n'.disk, r.chain, n'.ever);
    }
  }

  lemma {:induction false} NextSynced(n: Node, a: Action, n': Node)
    requires Inv(n) && Fits(n) && Next(n, a, n') && n'.exact
    ensures SyncedOk(n')
  {
    hide Image, Fits, Midway, StoresPrefix, LocksOk, HistoryOk, SyncedOk, ChangeStep, TransactionStep, FinishStep;
    hide OtherStep, RestartStep;
    match a
    case Change(t, op) =>
      ChangeExact(n, t, op, n');
      ChangeSynced(n, t, op, n');
    case Transaction(t) =>
      TransactionExact(n, t, n');
      TransactionSynced(n, t, n');
    case Finish(t, ok) =>
      FinishExact(n, t, ok, n');
      FinishSynced(n, t, n');
    case Other(t, op) => OtherSynced(n, t, op, n');
    case Restart(bound, ok) => RestartSynced(n, bound, ok, n');
    case Crash => CrashSynced(n, n');
    case _ => LockSynced(n, a, n');
  }

  lemma {:induction false} OtherSynced(n: Node, t: nat, op: Op, n': Node)
    requires Inv(n) && OtherStep(n, t, op, n') && n'.exact
    ensures SyncedOk(n')
  {
    hide Image, PendingExact, HistoryOk, LocksOk, StoresPrefix, Step;
    OtherKeeps(n.view, op, n'.view);
    forall u | u in n.pcs && NoCommit(n') ensures !n.pcs[u].Committing? {
      assert n'.pcs[u] == n.pcs[u] || !n.pcs[u].Committing?;
    }
  }

  lemma {:induction false} LockSynced(n: Node, a: Action, n': Node)
    requires Inv(n) && Next(n, a, n') && n'.exact
    requires a.TakeDiskMu? || a.TakeMu? || a.TakeMuOnly? || a.ReadLock? || a.ReadUnlock?
    ensures SyncedOk(n')
  {
    hide Image, PendingExact, HistoryOk, LocksOk, StoresPrefix;
    forall u | u in n.pcs && NoCommit(n') ensures !n.pcs[u].Committing? {
      assert n'.pcs[u] == n.pcs[u] || !n.pcs[u].Committing?;
    }
  }

  lemma {:induction false} FinishExact(n: Node, t: nat, ok: bool, n': Node)
    requires FinishStep(n, t, ok, n')
    ensures n'.exact == (n.exact && ok)
  {
    hide Outcome;
  }

  lemma {:induction false} ChangeExact(n: Node, t: nat, op: Op, n': Node)
    requires ChangeStep(n, t, op, n')
    ensures n'.exact == n.exact
  {
    hide Step, WriteOf;
  }

  lemma {:induction false} TransactionExact(n: Node, t: nat, n': Node)
    requires TransactionStep(n, t, n')
    ensures n'.exact == n.exact
  {
    hide Outcome;
  }

  // -------------------------------------------------------------------- runs

  ghost predicate NodeRun(ns: seq<Node>, acts: seq<Action>) {
    |ns| == |acts| + 1 && Init(ns[0]) && forall i :: 0 <= i < |acts| ==> NextAt(ns, acts, i)
  }

  ghost predicate NextAt(ns: seq<Node>, acts: seq<Action>, i: nat)
    requires i < |acts| && |ns| == |acts| + 1
  {
    Next(ns[i], acts[i], ns[i + 1]) && Fits(ns[i])
  }

  lemma {:induction false} RunInv(ns: seq<Node>, acts: seq<Action>, i: nat)
    requires NodeRun(ns, acts) && i < |ns|
    ensures Inv(ns[i])
  {
    hide Init, Next, Fits, LocksOk, HistoryOk, SyncedOk;
    if i == 0 {
      InitInv(ns[0]);
    } else {
      RunInv(ns, acts, i - 1);
      assert NextAt(ns, acts, i - 1);
      NextLocks(ns[i - 1], acts[i - 1], ns[i]);
      NextHistory(ns[i - 1], acts[i - 1], ns[i]);
      if ns[i].exact {
        NextSynced(ns[i - 1], acts[i - 1], ns[i]);
      }
    }
  }

  /** One pending write leads from a once-current chain to memory, and the store is part-way. */
  ghost predicate OneWriteApart(n: Node) {
    exists base, w :: base in n.ever && n.view.blocks == Written(base, w) && Midway(n.Cr(), n.disk, base, w)
  }

  /** Over every interleaving: if no commit has failed, then whenever diskMu is free the store is
      the exact image of memory; and whenever it is held, either that is so, or one pending write
      leads from the stored chain to the one in memory, the store being part-way between them. */
  lemma {:induction false} StoreFollowsMemory(ns: seq<Node>, acts: seq<Action>, i: nat)
    requires NodeRun(ns, acts) && i < |ns| && ns[i].up && ns[i].exact
    ensures ns[i].diskMu == Free ==> ns[i].disk == Image(ns[i].Cr(), ns[i].view.blocks)
    ensures ns[i].disk == Image(ns[i].Cr(), ns[i].view.blocks) || OneWriteApart(ns[i])
  {
    var n := ns[i];
    RunInv(ns, acts, i);
    hide NodeRun, Image, Written, Floor, Midway, GoodDisk, AllOk, Ideal;
    if !NoCommit(n) {
      var t :| t in n.pcs && n.pcs[t].Committing?;
      assert PendingOk(n, n.pcs[t]) && PendingExact(n.Cr(), n.disk, n.pcs[t]);
    }
  }

  /** Whatever failed or was cut short, loading succeeds and recovers a prefix of a chain that
      was once current. */
  lemma {:induction false} AlwaysRecovers(ns: seq<Node>, acts: seq<Action>, i: nat, bound: nat)
    requires NodeRun(ns, acts) && i < |ns| && Below(ns[i].disk.blocks, bound)
    ensures var r := LoadOf(ns[i].Cr(), Ascending(ns[i].disk.blocks, bound));
      r.Loaded? && |r.chain| > 0 && PrefixOfEver(r.chain, ns[i].ever)
  {
    RunInv(ns, acts, i);
    hide NodeRun, AllOk, Ideal, Sourced, LoadOf, Ascending, Below, PrefixOfEver, SyncedOk, Genesis;
    EmptySourced(ns[i].disk.blocks, ns[i].ever);
    LoadRecovers(ns[i].Cr(), ns[i].disk.blocks, bound, ns[i].ever);
  }

  /** In the protocol and not waiting for a lock that is taken. */
  ghost predicate CanGoOn(n: Node, p: Pc) {
    !p.Idle? && (p.Waiting? ==> n.mu == Free && n.readers == {})
  }

  /** `a` is a step of thread `t`. */
  predicate By(a: Action, t: nat) {
    match a
    case TakeDiskMu(u) => u == t
    case TakeMu(u) => u == t
    case Change(u, _) => u == t
    case Transaction(u) => u == t
    case Finish(u, _) => u == t
    case TakeMuOnly(u) => u == t
    case Other(u, _) => u == t
    case ReadLock(u) => u == t
    case ReadUnlock(u) => u == t
    case Crash => false
    case Restart(_, _) => false
  }

  ghost predicate Enabled(n: Node, t: nat) {
    exists a, n' :: By(a, t) && Next(n, a, n')
  }

  ghost predicate Inside(n: Node, t: nat) {
    t in n.pcs && !n.pcs[t].Idle?
  }

  /** An empty candidate leaves a node as it is. */
  lemma {:induction false} EmptyCandidate(v: View)
    requires |v.blocks| > 0
    ensures Step(v, AdoptOp(0, [], 0), v) && WriteOf(v, AdoptOp(0, [], 0)).NoWrite?
  {
    NothingToFill(v.rules.lwmaAct, Activation.LWMA_GATE, v.maxReorg);
    NothingToFill(v.rules.feeAct, Activation.FEE_GATE, v.maxReorg);
    hide Activation.Filled;
  }

  lemma {:induction false} Submission(v: View)
    requires |v.blocks| > 0
    ensures Step(v, SubmitOp, v)
  {
    NothingToFill(v.rules.lwmaAct, Activation.LWMA_GATE, v.maxReorg);
    NothingToFill(v.rules.feeAct, Activation.FEE_GATE, v.maxReorg);
    hide Activation.Filled;
  }

  /** A commit can end without having written anything. */
  lemma {:induction false} NothingWritten(cr: Crypto, before: Buckets, base: seq<Block>, w: DiskWrite)
    ensures Outcome(cr, before, before, base, w, false)
  {
    if Sound(cr, before, base, w) {
      OldIsMidway(cr, before, base, w);
    }
    hide Sound, Midway, Written, Keyed;
  }

  lemma {:induction false} CommitEnds(n: Node, t: nat)
    requires n.up && t in n.pcs && n.pcs[t].Committing?
    ensures Enabled(n, t)
  {
    var p := n.pcs[t];
    NothingWritten(n.Cr(), p.before, p.base, p.write);
    hide Outcome;
    var n' := n.(disk := p.before, diskMu := Free, pcs := n.pcs[t := Idle], exact := false);
    assert By(Finish(t, false), t) && Next(n, Finish(t, false), n');
  }

  lemma {:induction false} ChangeEnds(n: Node, t: nat)
    requires n.up && t in n.pcs && (n.pcs[t].Changing? || n.pcs[t].MuOnly?) && |n.view.blocks| > 0
    ensures Enabled(n, t)
  {
    EmptyCandidate(n.view);
    Submission(n.view);
    hide Step, WriteOf;
    if n.pcs[t].Changing? {
      var n' := n.(mu := Free, ever := n.ever + {n.view.blocks}, diskMu := Free, pcs := n.pcs[t := Idle]);
      assert By(Change(t, AdoptOp(0, [], 0)), t) && Next(n, Change(t, AdoptOp(0, [], 0)), n');
    } else {
      var n' := n.(mu := Free, pcs := n.pcs[t := Idle]);
      assert By(Other(t, SubmitOp), t) && Next(n, Other(t, SubmitOp), n');
    }
  }

  lemma {:induction false} GoesOn(n: Node, t: nat)
    requires n.up && t in n.pcs && CanGoOn(n, n.pcs[t]) && |n.view.blocks| > 0
    ensures Enabled(n, t)
  {
    match n.pcs[t]
    case Waiting =>
      var n' := n.(mu := HeldBy(t), pcs := n.pcs[t := Changing]);
      assert By(TakeMu(t), t) && Next(n, TakeMu(t), n');
    case Reading =>
      var n' := n.(readers := n.readers - {t}, pcs := n.pcs[t := Idle]);
      assert By(ReadUnlock(t), t) && Next(n, ReadUnlock(t), n');
    case Committing(_, _, _) =>
      hide *;
      CommitEnds(n, t);
    case _ =>
      hide *;
      ChangeEnds(n, t);
  }

  lemma {:induction false} SomeoneCanGoOn(n: Node, t: nat)
    requires LocksOk(n) && Inside(n, t)
    ensures exists u :: Inside(n, u) && CanGoOn(n, n.pcs[u])
  {
    if n.mu.HeldBy? {
      assert WritesMemory(n.pcs[n.mu.t]);
      assert Inside(n, n.mu.t);
    } else if n.readers != {} {
      var u :| u in n.readers;
      assert n.pcs[u].Reading? && Inside(n, u);
    } else {
      assert n.pcs[t].Waiting? ==> n.mu == Free;
    }
  }

  lemma {:induction false} UpAndNonempty(n: Node, t: nat)
    requires Inv(n) && Inside(n, t)
    ensures n.up && |n.view.blocks| > 0
  {
    hide SyncedOk, Ideal, GoodDisk;
    assert n.view.blocks in n.ever && ChainOk(n.Cr(), n.view.blocks);
  }

  /** The lock order never deadlocks: if a thread is inside the protocol, then some thread inside
      it has a step it can take, and a thread that is writing to disk does not hold mu. */
  lemma {:induction false} NoDeadlock(ns: seq<Node>, acts: seq<Action>, i: nat, t: nat)
    requires NodeRun(ns, acts) && i < |ns| && Inside(ns[i], t)
    ensures ns[i].pcs[t].Committing? ==> ns[i].mu != HeldBy(t)
    ensures exists u :: Inside(ns[i], u) && Enabled(ns[i], u)
  {
    var n := ns[i];
    RunInv(ns, acts, i);
    hide NodeRun, HistoryOk, SyncedOk, CanGoOn, Enabled;
    UpAndNonempty(n, t);
    SomeoneCanGoOn(n, t);
    var u :| Inside(n, u) && CanGoOn(n, n.pcs[u]);
    GoesOn(n, u);
  }
}
