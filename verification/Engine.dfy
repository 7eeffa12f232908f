/** The consensus engine (core/chain.go Chain): the class whose methods change the chain, its
    derived ledgers and its memos in place, proved against the folds of Ledger and the cache-free
    acceptance rules of Validation. */
module Engine {
  import opened Types
  import opened Ledger
  import opened MedianTime
  import opened Activation
  import opened Retarget
  import opened Validation
  import opened Epochs
  import opened Conservation
  import opened Memo
  import opened Recovery
  import opened Protocol
  import Mempool

  /** The header-only candidate work: ours, less the blocks disconnected, plus the candidate's. */
  method CandidateWork(blocks: seq<Block>, cum: nat, start: nat, nbs: seq<Block>) returns (work: int, ok: bool)
    requires start <= |blocks| && cum == WorkSum(blocks)
    ensures ok <==> forall i :: 0 <= i < |nbs| ==> nbs[i].targetOk
    ensures ok ==> work == WorkSum(blocks[..start] + nbs)
  {
    work := cum;
    for i := start to |blocks|
      invariant work == cum - SumWork(blocks, start, i)
    {
      work := work - WorkOf(blocks[i].hd.target);
    }
    SumWorkSplit(blocks, 0, start, |blocks|);
    SumWorkShared(blocks, blocks[..start], 0, start);
    ok := true;
    for i := 0 to |nbs|
      invariant work == SumWork(blocks, 0, start) + SumWork(nbs, 0, i)
      invariant forall k :: 0 <= k < i ==> nbs[k].targetOk
    {
      if !nbs[i].targetOk {
        return work, false;
      }
      work := work + WorkOf(nbs[i].hd.target);
    }
    WorkConcat(blocks[..start], nbs);
  }

  // --------------------------------------------------------------- body checks

  /** The body loop of validateBlock over its private state copy. A signature already in `sigOK`
      is not verified again. */
  method CheckBody(cr: Crypto, sigOK: SigKeys, prefix: seq<Block>, st: State, txs: seq<Tx>,
      minFee: u64) returns (ok: bool)
    requires Ideal(cr) && SigSound(cr, sigOK)
    ensures ok <==> BodyOk(cr, prefix, st, txs, minFee)
  {
    hide Ideal, ImmatureAt, BodyOk, TxOk, NewId;
    var work := st;
    var imm := ImmatureCoinbase(prefix, |prefix|);
    var seen: set<nat> := {};
    NoBody(cr, prefix, st, txs, minFee);
    for i := 0 to |txs|
      invariant BodyOk(cr, prefix, st, txs[..i], minFee)
      invariant work == ApplyTxs(st, txs[..i])
      invariant forall t :: NewId(cr, txs[..i], t) <==> cr.txId(t) !in seen
    {
      var t := txs[i];
      BodyStep(cr, prefix, st, txs, i, minFee);
      var good := CheckTx(cr, sigOK, work, t, Lookup(imm, t.From()), |prefix|);
      if t.IsCoinbase() || cr.txId(t) in seen || t.fee < minFee || !good {
        CoinbaseNotOk(cr, work, t, Lookup(imm, t.From()), |prefix|);
        assert !BodyOk(cr, prefix, st, txs[..i + 1], minFee);
        if BodyOk(cr, prefix, st, txs, minFee) {
          BodyOkPrefix(cr, prefix, st, txs, minFee, i + 1);
        }
        return false;
      }
      SeenStep(cr, txs, i, seen);
      seen := seen + {cr.txId(t)};
      work := ApplyTx(work, t);
    }
    assert txs[..|txs|] == txs;
    ok := true;
  }

  lemma {:induction false} NoBody(cr: Crypto, prefix: seq<Block>, st: State, txs: seq<Tx>, minFee: u64)
    ensures BodyOk(cr, prefix, st, txs[..0], minFee)
    ensures forall t :: NewId(cr, txs[..0], t)
  {
  }

  lemma {:induction false} CoinbaseNotOk(cr: Crypto, st: State, t: Tx, immature: u64, height: nat)
    ensures TxOk(cr, st, t, immature, height) ==> !t.IsCoinbase()
  {
  }

  lemma {:induction false} BodyStep(cr: Crypto, prefix: seq<Block>, st: State, txs: seq<Tx>, i: nat, minFee: u64)
    requires i < |txs|
    ensures BodyOk(cr, prefix, st, txs[..i + 1], minFee) <==>
      BodyOk(cr, prefix, st, txs[..i], minFee) && NewId(cr, txs[..i], txs[i]) && txs[i].fee >= minFee
      && TxOk(cr, ApplyTxs(st, txs[..i]), txs[i], ImmatureAt(prefix, |prefix|, txs[i].From()), |prefix|)
    ensures ApplyTxs(st, txs[..i + 1]) == ApplyTx(ApplyTxs(st, txs[..i]), txs[i])
  {
    assert txs[..i + 1][..i] == txs[..i];
    hide TxOk, NewId, ImmatureAt;
  }

  lemma {:induction false} SeenStep(cr: Crypto, txs: seq<Tx>, i: nat, seen: set<nat>)
    requires i < |txs| && forall t :: NewId(cr, txs[..i], t) <==> cr.txId(t) !in seen
    ensures forall t :: NewId(cr, txs[..i + 1], t) <==> cr.txId(t) !in seen + {cr.txId(txs[i])}
  {
    assert txs[..i + 1] == txs[..i] + [txs[i]];
    forall t ensures NewId(cr, txs[..i + 1], t) <==> cr.txId(t) !in seen + {cr.txId(txs[i])} {
      assert NewId(cr, txs[..i + 1], t) <==> NewId(cr, txs[..i], t) && cr.txId(txs[i]) != cr.txId(t);
    }
  }

  /** validateTxAgainstState */
  method CheckTx(cr: Crypto, sigOK: SigKeys, st: State, t: Tx, immature: u64, height: nat) returns (ok: bool)
    requires SigSound(cr, sigOK)
    ensures ok <==> TxOk(cr, st, t, immature, height)
  {
    if (cr.txId(t), height) !in sigOK {
      if !SigOk(cr, t, height) {
        return false;
      }
    }
    assert SigOk(cr, t, height);
    var acc := Get(st, t.From());
    if t.nonce != acc.nonce {
      return false;
    }
    var total := Add64(t.amount, t.fee);
    if total < t.amount {
      return false;
    }
    ok := Spendable(acc.balance, immature) >= total;
  }

  // -------------------------------------------------------------- class invariant

  /** The derived ledgers agree with the plain folds over the chain. */
  ghost predicate Derived(blocks: seq<Block>, state: State, totals: TotalsMap, cumWork: nat, supply: u64) {
    && Same(state, StateOf(blocks))
    && totals == TotalsOf(blocks)
    && cumWork == WorkSum(blocks)
    && supply == Total(StateOf(blocks))
  }

  lemma {:induction false} SupplyExact(cr: Crypto, blocks: seq<Block>, state: State, s: u64)
    requires ChainOk(cr, blocks) && Same(state, StateOf(blocks)) && s == Total(state) % TWO64
    ensures s == Total(StateOf(blocks))
  {
    hide Total, StateOf, ChainOk, Same;
    ChainConserves(cr, blocks);
    TotalSame(state, StateOf(blocks));
  }

  /** Applying one block to the running ledgers gives the folds over the longer chain. */
  lemma {:induction false} FoldStep(blocks: seq<Block>, state: State, totals: TotalsMap, b: Block)
    requires Same(state, StateOf(blocks)) && totals == TotalsOf(blocks)
    ensures Same(ApplyTxs(state, b.txs), StateOf(blocks + [b]))
    ensures CountTxs(totals, b.txs) == TotalsOf(blocks + [b])
    ensures WorkSum(blocks + [b]) == WorkSum(blocks) + WorkOf(b.hd.target)
    ensures IndexTxs(IndexOf(blocks), b.hd.height, b.txs) == IndexOf(blocks + [b])
  {
    assert (blocks + [b])[..|blocks|] == blocks;
    ApplyTxsSame(state, StateOf(blocks), b.txs);
    hide ApplyTxs, CountTxs, IndexTxs, WorkOf, Same;
    SumWorkShared(blocks + [b], blocks, 0, |blocks|);
  }

  lemma {:induction false} DerivedWhole(cr: Crypto, blocks: seq<Block>, state: State, totals: TotalsMap, work: nat,
      sum: u64)
    requires ChainOk(cr, blocks) && Same(state, StateOf(blocks)) && totals == TotalsOf(blocks) && work == WorkSum(blocks)
    requires sum == Total(state) % TWO64
    ensures Derived(blocks, state, totals, work, sum)
  {
    hide ChainOk, StateOf, TotalsOf, SumWork, WorkSum, Same, Total;
    SupplyExact(cr, blocks, state, sum);
  }

  lemma {:induction false} SubmitStep(v: View, v': View)
    requires |v.blocks| > 0
    requires v'.rules.feeAct == v.rules.feeAct || v'.rules.feeAct == Filled(v.rules.feeAct, v.blocks, FEE_GATE, v.maxReorg)
    requires v' == v.(rules := v.rules.(feeAct := v'.rules.feeAct))
    ensures Step(v, SubmitOp, v')
  {
    NothingToFill(v.rules.lwmaAct, LWMA_GATE, v.maxReorg);
    NothingToFill(v.rules.feeAct, FEE_GATE, v.maxReorg);
  }

  lemma {:induction false} DerivedSame(blocks: seq<Block>, state: State, next: State, totals: TotalsMap, work: nat,
      sum: u64)
    requires Derived(blocks, state, totals, work, sum) && Same(next, state)
    ensures Derived(blocks, next, totals, work, sum)
  {
    hide StateOf, TotalsOf, WorkSum, Total;
    assert forall a :: Get(next, a) == Get(state, a);
  }

  lemma {:induction false} StaleSame(mp: Mempool.TxMap, state: State, next: State)
    requires Mempool.NoStale(mp, state) && Same(next, state)
    ensures Mempool.NoStale(mp, next)
  {
    assert forall a :: Get(next, a) == Get(state, a);
  }

  lemma {:induction false} SubmittedFresh(cr: Crypto, mp: Mempool.TxMap, mp': Mempool.TxMap, t: Tx, state: State,
      next: State)
    requires Mempool.NoStale(mp, next) && Same(next, state)
    requires Mempool.Accepts(cr, mp, mp', t) && t.nonce >= Get(state, t.From()).nonce
    ensures Mempool.NoStale(mp', next)
  {
    assert Get(next, t.From()) == Get(state, t.From());
    forall id | id in mp' ensures mp'[id].nonce >= Get(next, mp'[id].From()).nonce {
      assert Mempool.AcceptsAt(cr, mp, mp', t, id);
    }
  }

  lemma {:induction false} DerivedStep(cr: Crypto, blocks: seq<Block>, state: State, totals: TotalsMap,
      cumWork: nat, supply: u64, b: Block, sum: u64)
    requires ChainOk(cr, blocks + [b]) && Derived(blocks, state, totals, cumWork, supply)
    requires sum == Total(ApplyTxs(state, b.txs)) % TWO64
    ensures Derived(blocks + [b], ApplyTxs(state, b.txs), CountTxs(totals, b.txs), cumWork + WorkOf(b.hd.target), sum)
  {
    hide ChainOk, StateOf, TotalsOf, SumWork, WorkOf, WorkSum, Same, IndexOf, Total, ApplyTxs, CountTxs, IndexTxs;
    FoldStep(blocks, state, totals, b);
    SupplyExact(cr, blocks + [b], ApplyTxs(state, b.txs), sum);
  }

  /** A VM is what its seed makes of it; the cache also stores the seed it was built for. */
  datatype Vm = Vm(seed: Seed)

  ghost predicate VmCacheOk(vmCache: map<nat, Vm>, vmSeed: map<nat, Seed>) {
    vmCache.Keys == vmSeed.Keys && forall e :: e in vmCache ==> vmCache[e].seed == vmSeed[e]
  }

  /** vmFor's eviction of epochs more than two behind. */
  method EvictOld(vmCache: map<nat, Vm>, vmSeed: map<nat, Seed>, epoch: nat) returns (c: map<nat, Vm>, s: map<nat,
      Seed>)
    requires VmCacheOk(vmCache, vmSeed)
    ensures VmCacheOk(c, s)
    ensures forall e :: e in c <==> e in vmCache && (|vmCache| <= 3 || e + 2 >= epoch)
    ensures forall e :: e in c ==> c[e] == vmCache[e] && s[e] == vmSeed[e]
  {
    c, s := vmCache, vmSeed;
    if |c| > 3 {
      var todo := c.Keys;
      while todo != {}
        invariant VmCacheOk(c, s) && todo <= vmCache.Keys
        invariant forall e :: e in c <==> e in vmCache && (e in todo || e + 2 >= epoch)
        invariant forall e :: e in c ==> c[e] == vmCache[e] && s[e] == vmSeed[e]
        decreases |todo|
      {
        var e :| e in todo;
        todo := todo - {e};
        if e + 2 < epoch {
          c, s := c - {e}, s - {e};
        }
      }
    }
  }

  /** Target required of the next block, given the activation decision. */
  method TargetOf(blocks: seq<Block>, lwmaActive: bool) returns (t: nat)
    ensures t == ExpectedTarget(blocks, lwmaActive)
  {
    if lwmaActive {
      t := LwmaTargetOf(blocks);
    } else {
      t := LegacyTargetOf(blocks);
    }
  }

  /** rebuildDerived: the ledgers of a whole chain. */
  method Replay(blocks: seq<Block>) returns (st: State, tot: TotalsMap, work: nat)
    ensures Same(st, StateOf(blocks)) && tot == TotalsOf(blocks) && work == WorkSum(blocks)
  {
    st, tot, work := map[], map[], 0;
    hide ApplyTxs, CountTxs, WorkOf;
    for i := 0 to |blocks|
      invariant Same(st, StateOf(blocks[..i])) && tot == TotalsOf(blocks[..i]) && work == WorkSum(blocks[..i])
    {
      FoldStep(blocks[..i], st, tot, blocks[i]);
      assert blocks[..i + 1] == blocks[..i] + [blocks[i]];
      st := ApplyBlockToState(st, blocks[i]);
      tot := ApplyBlockToTotals(tot, blocks[i]);
      work := work + WorkOf(blocks[i].hd.target);
    }
    assert blocks[..|blocks|] == blocks;
  }

  /** Blocks of a valid chain may be marked as verified without hashing them again. */
  lemma {:induction false} StoredVerified(cr: Crypto, blocks: seq<Block>, i: nat)
    requires Ideal(cr) && ChainOk(cr, blocks) && i < |blocks|
    ensures VerifiedSound(cr, {Hash(cr, blocks[i])})
  {
    if i > 0 {
      ChainOkPrefix(cr, blocks, i);
      ChainLinked(cr, blocks[..i]);
      assert CoreAt(cr, blocks, i);
      hide BodyOk, StateOf, Linked, ChainOk;
      FactFromOne(cr, blocks[..i], blocks[i]);
    } else {
      forall prefix, b | Hash(cr, b) in {Hash(cr, blocks[0])} ensures PowFact(cr, prefix, b) {
        assert b.hd == blocks[0].hd;
      }
    }
  }

  /** A valid chain starts with a block that counts as verified. */
  lemma {:induction false} LoadedValid(cr: Crypto, chain: seq<Block>)
    requires ChainOk(cr, chain)
    ensures WasValid(cr, Genesis(cr))
  {
    assert chain[0] == Genesis(cr);
    hide ChainOk;
  }

  /** Reading the store marks every block it holds as verified, those beyond the first break of
      linkage included. It is sound because each was once part of a valid chain. */
  method MarkStored(cr: Crypto, blocks: seq<Block>) returns (verified: set<nat>)
    requires Ideal(cr) && forall i :: 0 <= i < |blocks| ==> WasValid(cr, blocks[i])
    ensures VerifiedSound(cr, verified)
  {
    verified := {};
    hide ChainOk, PowFact, Ideal;
    for i := 0 to |blocks|
      invariant VerifiedSound(cr, verified)
    {
      assert WasValid(cr, blocks[i]);
      ghost var c, h: nat :| h < |c| && c[h] == blocks[i] && ChainOk(cr, c);
      StoredVerified(cr, c, h);
      verified := MarkVerified(cr, verified, Hash(cr, blocks[i]));
    }
  }

  // ------------------------------------------------ caches while a candidate is replayed

  /** From position `i` on, deciding with `cached'` is deciding with `cached`. */
  ghost predicate Neutral(cached: nat, cached': nat, base: seq<Block>, nbs: seq<Block>, i: nat, g: Gate)
    requires g.Valid()
  {
    forall k :: i <= k <= |nbs| ==> ActiveWith(cached', base + nbs[..k], g) == ActiveWith(cached, base + nbs[..k], g)
  }

  /** Looking up at block `i` keeps a replayed cache neutral and equal to one look-up on the
      longest chain looked up so far. */
  lemma {:induction false} ReplayCache(rules: Rules, cached: nat, mid: nat, next: nat, base: seq<Block>,
      nbs: seq<Block>, i: nat, now: nat, fee: bool, g: Gate, maxReorg: nat)
    requires g.Valid() && |base| > 0 && i < |nbs| && Neutral(cached, mid, base, nbs, i, g)
    requires mid == Filled(cached, LookedUp(rules, base, nbs, i, now, fee), g, maxReorg)
    requires next == if Looks(rules, base, nbs, i, now, fee) then Filled(mid, base + nbs[..i], g, maxReorg) else mid
    ensures Neutral(cached, next, base, nbs, i + 1, g)
    ensures next == Filled(cached, LookedUp(rules, base, nbs, i + 1, now, fee), g, maxReorg)
  {
    var full := base + nbs;
    hide ActiveWith, ActivationOf, Looks;
    assert full[..|base| + i] == base + nbs[..i];
    assert CacheStep(mid, next, base + nbs[..i], g, maxReorg);
    forall k | i + 1 <= k <= |nbs| ensures ActiveWith(next, base + nbs[..k], g) == ActiveWith(cached, base + nbs[..k], g) {
      assert full[..|base| + k] == base + nbs[..k];
      CacheFillNeutral(mid, next, full, |base| + i, |base| + k, g, maxReorg);
    }
    hide Filled;
    var p := LookedUp(rules, base, nbs, i, now, fee);
    if p != [] {
      var k :| 0 <= k < i && p == base + nbs[..k] && Looks(rules, base, nbs, k, now, fee);
      assert (base + nbs[..i])[..|p|] == p;
    }
    FilledTwice(cached, p, base + nbs[..i], g, maxReorg);
  }

  /** Once a block is refused nothing more is looked up. */
  lemma {:induction false} LookStops(rules: Rules, base: seq<Block>, nbs: seq<Block>, i: nat, n: nat, now: nat, fee: bool)
    requires |base| > 0 && i < n <= |nbs| && !CandidateAt(rules, base, nbs, i, now)
    ensures LookedUp(rules, base, nbs, n, now, fee) == LookedUp(rules, base, nbs, i + 1, now, fee)
    decreases n
  {
    hide CandidateAt, FeeAsked, HeaderPasses;
    if i + 1 < n {
      LookStops(rules, base, nbs, i, n - 1, now, fee);
      assert !Looks(rules, base, nbs, n - 1, now, fee);
    }
  }

  lemma {:induction false} LookOne(rules: Rules, base: seq<Block>, b: Block, now: nat, fee: bool)
    requires |base| > 0
    ensures LookedUp(rules, base, [b], 1, now, fee) ==
      if (if fee then FeeAsked(rules, base, b, now) else HeaderPasses(rules, base, b, now)) then base else []
  {
    hide FeeAsked, HeaderPasses;
    assert base + [b][..0] == base;
    assert LookedUp(rules, base, [b], 0, now, fee) == [];
  }

  lemma {:induction false} SameDecision(rules: Rules, now: nat, prefix: seq<Block>, b: Block, lwmaAct: nat,
      feeAct: nat)
    requires |prefix| > 0
    requires ActiveWith(lwmaAct, prefix, LWMA_GATE) == ActiveWith(rules.lwmaAct, prefix, LWMA_GATE)
    requires ActiveWith(feeAct, prefix, FEE_GATE) == ActiveWith(rules.feeAct, prefix, FEE_GATE)
    ensures var r := rules.(lwmaAct := lwmaAct, feeAct := feeAct);
      && NextOk(r, prefix, b, now) == NextOk(rules, prefix, b, now)
      && HeaderPasses(r, prefix, b, now) == HeaderPasses(rules, prefix, b, now)
      && FeeAsked(r, prefix, b, now) == FeeAsked(rules, prefix, b, now)
  {
    hide ActiveWith, HeaderOk, ShapeOk, PowOk, BodyOk, StateOf, ExpectedTarget, MinFee;
  }

  method IndexBlocks(addrTx: Index, ghost base: seq<Block>, nbs: seq<Block>) returns (idx: Index)
    requires addrTx == IndexOf(base)
    ensures idx == IndexOf(base + nbs)
  {
    idx := addrTx;
    assert base + nbs[..0] == base;
    hide IndexOf, IndexTxs;
    for i := 0 to |nbs|
      invariant idx == IndexOf(base + nbs[..i])
    {
      IndexStep(base + nbs[..i], nbs[i]);
      assert base + nbs[..i + 1] == base + nbs[..i] + [nbs[i]];
      idx := IndexBlock(idx, nbs[i]);
    }
    assert nbs[..|nbs|] == nbs;
  }

  lemma {:induction false} IndexStep(blocks: seq<Block>, b: Block)
    ensures IndexTxs(IndexOf(blocks), b.hd.height, b.txs) == IndexOf(blocks + [b])
  {
    assert (blocks + [b])[..|blocks|] == blocks;
    hide IndexTxs;
  }

  function AllTxs(nbs: seq<Block>): seq<Tx> {
    if nbs == [] then [] else AllTxs(nbs[..|nbs| - 1]) + nbs[|nbs| - 1].txs
  }

  lemma {:induction false} BeginReplay(rules: Rules, base: seq<Block>, nbs: seq<Block>, st: State, tot: TotalsMap,
      now: nat, maxReorg: nat)
    requires ChainOk(rules.cr, base) && Same(st, StateOf(base)) && tot == TotalsOf(base)
    ensures |base| > 0 && Replayed(rules, base, nbs, 0, base, st, tot)
    ensures CachesReplayed(rules, rules.lwmaAct, rules.feeAct, base, nbs, 0, now, maxReorg)
  {
    assert base + nbs[..0] == base;
    StartReplay(base, nbs);
    NothingToFill(rules.lwmaAct, LWMA_GATE, maxReorg);
    NothingToFill(rules.feeAct, FEE_GATE, maxReorg);
    hide Neutral, StateOf, TotalsOf, Same, Filled;
  }

  lemma {:induction false} EndReplay(rules: Rules, base: seq<Block>, nbs: seq<Block>, chain: seq<Block>, st: State,
      tot: TotalsMap)
    requires Replayed(rules, base, nbs, |nbs|, chain, st, tot)
    ensures chain == base + nbs && Same(st, StateOf(chain)) && tot == TotalsOf(chain) && ChainOk(rules.cr, chain)
  {
    assert nbs[..|nbs|] == nbs;
    hide ChainOk, StateOf, TotalsOf, Same;
  }

  lemma {:induction false} StartReplay(base: seq<Block>, nbs: seq<Block>)
    ensures forall c, g: Gate :: g.Valid() ==> Neutral(c, c, base, nbs, 0, g)
  {
  }

  lemma {:induction false} CandidateAtIs(rules: Rules, base: seq<Block>, nbs: seq<Block>, i: nat, now: nat)
    requires |base| > 0 && i < |nbs|
    ensures CandidateAt(rules, base, nbs, i, now) == NextOk(rules, base + nbs[..i], nbs[i], now)
  {
    hide NextOk;
  }

  /** The copies after the first `i` candidate blocks. */
  ghost predicate Replayed(rules: Rules, base: seq<Block>, nbs: seq<Block>, i: nat, chain: seq<Block>, st: State,
      tot: TotalsMap) {
    && |base| > 0 && i <= |nbs|
    && chain == base + nbs[..i] && ChainOk(rules.cr, chain)
    && Same(st, StateOf(chain)) && tot == TotalsOf(chain)
  }

  /** The caches then: neutral from block `i` on, and filled by the longest chain looked up. */
  ghost predicate CachesReplayed(rules: Rules, lwmaAct: nat, feeAct: nat, base: seq<Block>, nbs: seq<Block>, i: nat,
      now: nat, maxReorg: nat)
    requires |base| > 0 && i <= |nbs|
  {
    && Neutral(rules.lwmaAct, lwmaAct, base, nbs, i, LWMA_GATE)
    && lwmaAct == Filled(rules.lwmaAct, LookedUp(rules, base, nbs, i, now, false), LWMA_GATE, maxReorg)
    && Neutral(rules.feeAct, feeAct, base, nbs, i, FEE_GATE)
    && feeAct == Filled(rules.feeAct, LookedUp(rules, base, nbs, i, now, true), FEE_GATE, maxReorg)
  }

  /** The caches after a replay that ended, by a refusal or with the last block. */
  ghost predicate CachesFilled(rules: Rules, lwmaAct: nat, feeAct: nat, base: seq<Block>, nbs: seq<Block>, now: nat,
      maxReorg: nat)
    requires |base| > 0
  {
    && lwmaAct == Filled(rules.lwmaAct, LookedUp(rules, base, nbs, |nbs|, now, false), LWMA_GATE, maxReorg)
    && feeAct == Filled(rules.feeAct, LookedUp(rules, base, nbs, |nbs|, now, true), FEE_GATE, maxReorg)
  }

  lemma {:induction false} ReplayEnds(rules: Rules, lwmaAct: nat, feeAct: nat, base: seq<Block>, nbs: seq<Block>,
      i: nat, now: nat, maxReorg: nat)
    requires |base| > 0 && i < |nbs| && CachesReplayed(rules, lwmaAct, feeAct, base, nbs, i + 1, now, maxReorg)
    requires !CandidateAt(rules, base, nbs, i, now)
    ensures CachesFilled(rules, lwmaAct, feeAct, base, nbs, now, maxReorg)
  {
    hide Neutral, Filled, LookedUp, CandidateAt;
    LookStops(rules, base, nbs, i, |nbs|, now, false);
    LookStops(rules, base, nbs, i, |nbs|, now, true);
  }

  lemma {:induction false} ReplayEnded(rules: Rules, lwmaAct: nat, feeAct: nat, base: seq<Block>, nbs: seq<Block>,
      now: nat, maxReorg: nat)
    requires |base| > 0 && CachesReplayed(rules, lwmaAct, feeAct, base, nbs, |nbs|, now, maxReorg)
    ensures CachesFilled(rules, lwmaAct, feeAct, base, nbs, now, maxReorg)
  {
    hide Neutral, Filled, LookedUp;
  }

  lemma {:induction false} ReplayedStep(rules: Rules, base: seq<Block>, nbs: seq<Block>, i: nat, chain: seq<Block>,
      st: State, tot: TotalsMap)
    requires Replayed(rules, base, nbs, i, chain, st, tot) && i < |nbs| && CoreOk(rules.cr, chain, nbs[i])
    ensures Replayed(rules, base, nbs, i + 1, chain + [nbs[i]], ApplyTxs(st, nbs[i].txs), CountTxs(tot, nbs[i].txs))
  {
    hide ChainOk, StateOf, TotalsOf, CoreOk, Same, ApplyTxs, CountTxs, WorkSum, IndexOf;
    ChainOkExtend(rules.cr, chain, nbs[i]);
    FoldStep(chain, st, tot, nbs[i]);
    assert base + nbs[..i + 1] == chain + [nbs[i]];
  }

  lemma {:induction false} NeutralHere(cached: nat, cached': nat, base: seq<Block>, nbs: seq<Block>, i: nat, g: Gate)
    requires g.Valid() && i <= |nbs| && Neutral(cached, cached', base, nbs, i, g)
    ensures ActiveWith(cached', base + nbs[..i], g) == ActiveWith(cached, base + nbs[..i], g)
  {
    hide ActiveWith;
  }

  lemma {:induction false} EmptyMemos(cr: Crypto)
    ensures PowSound(cr, {}) && SigSound(cr, {}) && VmCacheOk(map[], map[])
    ensures forall st :: Mempool.NoStale(map[], st)
  {
  }

  class Chain {
    const cr: Crypto
    const maxReorg: nat
    const penalty: nat
    /** Without a block store the address index lives in memory. */
    const indexed: bool
    const pool: Mempool.Pool

    var blocks: seq<Block>
    var state: State
    var totals: TotalsMap
    var cumWork: nat
    var supply: u64
    var addrTx: Index

    var verifiedPow: set<nat>
    var powOK: PowKeys
    var sigOK: SigKeys
    var vmCache: map<nat, Vm>
    var vmSeed: map<nat, Seed>

    var feeAct: nat
    var lwmaAct: nat
    var drAct: nat
    var checkpoints: map<nat, nat>
    var authAnchor: Anchor

    /** Starting: every block read from the store counts as verified, the chain is cut at the first
        break of linkage, the ledgers are rebuilt and the sticky activation caches filled once, still
        under the default cap. Then the saved checkpoints and anchor are taken over, and last the
        operator's cap and penalty. `Recovery.LoadUsable` shows that what a node has stored meets the
        requirements. */
    constructor Load(cr: Crypto, maxReorg: nat, penalty: nat, indexed: bool, read: seq<Block>,
        savedCheckpoints: map<nat, nat>, savedAnchor: Anchor)
      requires Ideal(cr) && forall i :: 0 <= i < |read| ==> WasValid(cr, read[i])
      requires LoadOf(cr, read).Loaded? && ChainOk(cr, LoadOf(cr, read).chain)
      ensures Valid() && fresh(pool) && pool.mempool == map[]
      ensures this.cr == cr && this.maxReorg == maxReorg && this.penalty == penalty && this.indexed == indexed
      ensures forall v: View :: v.rules.cr == cr && v.rules.checkpoints == savedCheckpoints && v.anchor == savedAnchor ==>
        Restarted(v, LoadOf(cr, read).chain, ViewNow())
    {
      hide ChainOk, StateOf, TotalsOf, SumWork, WorkSum, Same, Ideal, CacheStep, IndexOf, Total, Derived;
      hide VerifiedSound, PowSound, SigSound, VmCacheOk, Mempool.PoolOk, Mempool.NoStale, ActivationOf, ActiveWith;
      hide Linked, CoreOk, Filled, WasValid;
      EmptyMemos(cr);
      var loaded := LoadBolt(cr, read);
      var stored := loaded.chain;
      hide LoadOf;
      LoadedValid(cr, stored);
      var verified := MarkStored(cr, if |read| == 0 then [Genesis(cr)] else read);
      var st, tot, work := Replay(stored);
      var sum := RecomputeSupply(st);
      DerivedWhole(cr, stored, st, tot, work, sum);
      var a;
      var lwma, fee;
      a, lwma := ActivationCached(0, stored, LWMA_GATE, DEFAULT_MAX_REORG);
      a, fee := ActivationCached(0, stored, FEE_GATE, DEFAULT_MAX_REORG);
      var idx: Index := map[];
      if indexed {
        idx := ReindexAddrTx(stored);
      }
      this.cr, this.indexed := cr, indexed;
      this.pool := new Mempool.Pool(cr);
      blocks, state, totals, cumWork, supply, addrTx := stored, st, tot, work, sum, idx;
      verifiedPow, powOK, sigOK, vmCache, vmSeed := verified, {}, {}, map[], map[];
      feeAct, lwmaAct, drAct := fee, lwma, 0;
      checkpoints, authAnchor := savedCheckpoints, savedAnchor;
      this.maxReorg, this.penalty := maxReorg, penalty;
    }

    ghost predicate MemosOk()
      reads `verifiedPow, `powOK, `sigOK, `vmCache, `vmSeed
    {
      && Ideal(cr)
      && VerifiedSound(cr, verifiedPow)
      && PowSound(cr, powOK)
      && SigSound(cr, sigOK)
      && VmCacheOk(vmCache, vmSeed)
    }

    ghost predicate LedgerOk()
      reads `blocks, `state, `totals, `cumWork, `supply, `addrTx
    {
      && ChainOk(cr, blocks)
      && Derived(blocks, state, totals, cumWork, supply)
      && (indexed ==> addrTx == IndexOf(blocks))
    }

    ghost predicate Valid()
      reads this, pool
    {
      MemosOk() && LedgerOk() && pool.cr == cr && pool.Valid() && Mempool.NoStale(pool.mempool, state)
    }

    ghost function RulesNow(): Rules
      reads this
    {
      Rules(cr, checkpoints, lwmaAct, feeAct)
    }

    ghost function ViewNow(): View
      reads this
    {
      View(RulesNow(), blocks, drAct, authAnchor, maxReorg, penalty)
    }

    /** vmFor: a cached VM is used only if it was built for the same seed. */
    method VmFor(prefix: seq<Block>, height: nat) returns (vm: Vm)
      requires height <= |prefix| && VmCacheOk(vmCache, vmSeed)
      modifies this`vmCache, this`vmSeed
      ensures vm.seed == SeedFor(cr, prefix, height) && SeedAt(cr, prefix, height, vm.seed)
      ensures VmCacheOk(vmCache, vmSeed)
    {
      SeedExact(cr, prefix, height, SeedFor(cr, prefix, height));
      hide SeedFor, SeedAt;
      var seed, epoch := SeedFor(cr, prefix, height), height / EPOCH_LENGTH;
      if epoch in vmCache && vmSeed[epoch] == seed {
        return vmCache[epoch];
      }
      vm := Vm(seed);
      vmCache := vmCache[epoch := vm];
      vmSeed := vmSeed[epoch := seed];
      vmCache, vmSeed := EvictOld(vmCache, vmSeed, epoch);
    }

    /** The proof-of-work step of validateBlock with its three memos. */
    method CheckPow(prefix: seq<Block>, b: Block) returns (ok: bool)
      requires MemosOk() && Linked(cr, prefix) && LinkOk(cr, prefix, b)
      modifies this`verifiedPow, this`vmCache, this`vmSeed
      ensures MemosOk()
      ensures ok <==> PowOk(cr, prefix, b)
    {
      hide Ideal, PowFact, SigSound, Linked, SeedFor, SeedAt;
      if Hash(cr, b) in verifiedPow {
        VerifiedUse(cr, verifiedPow, prefix, b);
        return true;
      }
      var seed := SeedFor(cr, prefix, b.hd.height);
      if (seed, Hash(cr, b)) !in powOK {
        var vm := VmFor(prefix, b.hd.height);
        if !(cr.pow(vm.seed, b.hd) <= b.hd.target) {
          return false;
        }
      }
      assert PowOk(cr, prefix, b);
      FactFromOne(cr, prefix, b);
      verifiedPow := MarkVerified(cr, verifiedPow, Hash(cr, b));
      ok := true;
    }

    /** The checks of validateBlock on the header alone. */
    method CheckHeader(prefix: seq<Block>, b: Block, now: nat) returns (ok: bool)
      requires |prefix| > 0
      ensures ok <==> HeaderPasses(RulesNow(), prefix, b, now)
      ensures ok ==> b.hd.height == |prefix|
    {
      hide Median;
      if b.hd.version != 1 || b.hd.height != |prefix| || !b.hexOk || !b.targetOk {
        return false;
      }
      if |prefix| in checkpoints && checkpoints[|prefix|] != Hash(cr, b) {
        return false;
      }
      if b.hd.prev != Hash(cr, prefix[|prefix| - 1]) {
        return false;
      }
      var median := MedianTimeOf(prefix);
      ok := b.hd.time > median && b.hd.time <= now + MAX_FUTURE_DRIFT;
    }

    /** validateBlock: with every memo and cache it accepts exactly what NextOk accepts. A block that
        passes everything else is accepted exactly when it is mined under the last block below its
        epoch. */
    method ValidateBlock(prefix: seq<Block>, st: State, b: Block, now: nat) returns (ok: bool)
      requires MemosOk() && Linked(cr, prefix) && Same(st, StateOf(prefix))
      modifies this`verifiedPow, this`vmCache, this`vmSeed, this`lwmaAct, this`feeAct
      ensures MemosOk()
      ensures ok <==> NextOk(old(RulesNow()), prefix, b, now)
      ensures ok <==> Unmined(old(RulesNow()), prefix, b, now) && Mined(cr, prefix, b.hd)
      ensures |prefix| > 0 && lwmaAct == if HeaderPasses(old(RulesNow()), prefix, b, now)
        then Filled(old(lwmaAct), prefix, LWMA_GATE, maxReorg) else old(lwmaAct)
      ensures feeAct == if FeeAsked(old(RulesNow()), prefix, b, now)
        then Filled(old(feeAct), prefix, FEE_GATE, maxReorg) else old(feeAct)
    {
      assert |prefix| > 0;
      hide MemosOk, Linked, StateOf, BodyOk, PowOk, ActiveWith, ExpectedTarget, Median, Same, ShapeOk, CacheStep;
      hide Filled, Mined;
      MinedIs(cr, prefix, b);
      var header := CheckHeader(prefix, b, now);
      if !header {
        return false;
      }
      hide HeaderOk, HeaderPasses;
      var want := ExpectedTargetC(prefix);
      if want != b.hd.target {
        return false;
      }
      var pow := CheckPow(prefix, b);
      if !pow || !ShapeOk(cr, b) {
        return false;
      }
      var minFee := 0;
      if b.hd.height >= MIN_FEE_HEIGHT {
        minFee := MinFeeForC(prefix);
      }
      BodyOkSame(cr, prefix, st, StateOf(prefix), b.txs[1..], minFee);
      ok := CheckBodyMemo(prefix, st, b.txs[1..], minFee);
    }

    /** expectedTargetC */
    method ExpectedTargetC(prefix: seq<Block>) returns (want: nat)
      requires MemosOk()
      modifies this`lwmaAct
      ensures MemosOk()
      ensures want == RequiredTarget(old(lwmaAct), prefix)
      ensures lwmaAct == Filled(old(lwmaAct), prefix, LWMA_GATE, maxReorg)
    {
      var a;
      a, lwmaAct := ActivationCached(lwmaAct, prefix, LWMA_GATE, maxReorg);
      want := TargetOf(prefix, a != 0 && |prefix| >= a);
    }

    /** minFeeForC */
    method MinFeeForC(prefix: seq<Block>) returns (fee: u64)
      requires MemosOk()
      modifies this`feeAct
      ensures MemosOk()
      ensures fee == MinFee(cr, prefix, ActiveWith(old(feeAct), prefix, FEE_GATE))
      ensures feeAct == Filled(old(feeAct), prefix, FEE_GATE, maxReorg)
    {
      var a;
      a, feeAct := ActivationCached(feeAct, prefix, FEE_GATE, maxReorg);
      fee := MinFeeOf(cr, prefix, a != 0 && |prefix| >= a);
    }

    method CheckBodyMemo(prefix: seq<Block>, st: State, txs: seq<Tx>, minFee: u64) returns (ok: bool)
      requires MemosOk()
      ensures ok <==> BodyOk(cr, prefix, st, txs, minFee)
    {
      ok := CheckBody(cr, sigOK, prefix, st, txs, minFee);
    }

    // ------------------------------------------------------------ extending the tip

    /** Chain, ledgers and pool are as they were. */
    twostate predicate LedgerUnchanged()
      reads this, pool
    {
      && blocks == old(blocks) && state == old(state) && totals == old(totals) && cumWork == old(cumWork)
      && supply == old(supply) && addrTx == old(addrTx)
      && pool.mempool == old(pool.mempool) && pool.bySender == old(pool.bySender)
    }

    /** The in-memory commit of one block onto the running ledgers. */
    method Append(b: Block)
      requires LedgerOk() && CoreOk(cr, blocks, b)
      modifies this`blocks, this`state, this`totals, this`cumWork, this`supply, this`addrTx
      ensures LedgerOk()
      ensures blocks == old(blocks) + [b]
      ensures state == ApplyTxs(old(state), b.txs)
    {
      hide ChainOk, CoreOk, Derived, IndexOf, Total, ApplyTxs, CountTxs, IndexTxs, WorkOf;
      ChainOkExtend(cr, blocks, b);
      IndexStep(blocks, b);
      if indexed {
        addrTx := IndexBlock(addrTx, b);
      }
      state := ApplyBlockToState(state, b);
      totals := ApplyBlockToTotals(totals, b);
      var sum := RecomputeSupply(state);
      DerivedStep(cr, blocks, old(state), old(totals), cumWork, supply, b, sum);
      supply := sum;
      cumWork := cumWork + WorkOf(b.hd.target);
      blocks := blocks + [b];
    }

    /** Removes a block's transactions from the pool. */
    method DropConfirmed(txs: seq<Tx>)
      requires pool.Valid() && pool.cr == cr
      modifies pool
      ensures pool.Valid()
      ensures pool.mempool == old(pool.mempool) - set t | t in txs :: cr.txId(t)
    {
      hide Mempool.PoolOk, Mempool.Dropped, Mempool.Position;
      for i := 0 to |txs|
        invariant pool.Valid()
        invariant pool.mempool == old(pool.mempool) - set t | t in txs[..i] :: cr.txId(t)
      {
        ghost var before := pool.mempool;
        pool.Del(cr.txId(txs[i]));
        assert txs[..i + 1] == txs[..i] + [txs[i]];
        DropOne(cr, old(pool.mempool), txs[..i], txs[i], before, pool.mempool);
      }
      assert txs[..|txs|] == txs;
    }

    /** The pool after a chain change: nothing confirmed by `txs`, nothing the state rules out. */
    ghost predicate Cleaned(before: Mempool.TxMap, txs: seq<Tx>)
      reads this, pool
    {
      forall id :: (id in pool.mempool <==>
        id in before && id !in (set t | t in txs :: cr.txId(t)) && Mempool.Keep(state, before[id]))
        && (id in pool.mempool ==> pool.mempool[id] == before[id])
    }

    method CleanPool(txs: seq<Tx>)
      requires LedgerOk() && pool.Valid() && pool.cr == cr
      modifies this`state, pool
      ensures LedgerOk() && pool.Valid()
      ensures Mempool.NoStale(pool.mempool, state)
      ensures Cleaned(old(pool.mempool), txs)
    {
      hide ChainOk, StateOf, TotalsOf, SumWork, WorkSum, Total, IndexOf, Mempool.PoolOk;
      DropConfirmed(txs);
      ghost var mid, before := pool.mempool, state;
      state := pool.Prune(state);
      assert forall a :: Get(state, a) == Get(before, a);
    }

    /** The in-memory part of AddBlock after validation. */
    method Connect(b: Block)
      requires Valid() && CoreOk(cr, blocks, b)
      modifies this`blocks, this`state, this`totals, this`cumWork, this`supply, this`addrTx, pool
      ensures Valid()
      ensures blocks == old(blocks) + [b] && Cleaned(old(pool.mempool), b.txs)
    {
      hide MemosOk, LedgerOk, CoreOk, Mempool.PoolOk, Mempool.NoStale, Cleaned;
      Append(b);
      CleanPool(b.txs);
    }

    /** What ValidateBlock needs of the chain itself. */
    lemma TipReady()
      requires LedgerOk()
      ensures |blocks| > 0 && Linked(cr, blocks) && Same(state, StateOf(blocks))
    {
      ChainLinked(cr, blocks);
    }

    lemma NonEmpty()
      requires LedgerOk()
      ensures |blocks| > 0
    {
    }

    /** AddBlock */
    method AddBlock(b: Block, now: nat) returns (ok: bool, write: DiskWrite)
      requires Valid()
      modifies this, pool
      ensures Valid()
      ensures ok <==> NextOk(old(RulesNow()), old(blocks), b, now)
      ensures ok ==> blocks == old(blocks) + [b] && write == Extend([b], cumWork) && Cleaned(old(pool.mempool), b.txs)
      ensures |old(blocks)| > 0 && write == WriteOf(old(ViewNow()), AddBlockOp(b, now))
      ensures !ok ==> LedgerUnchanged() && write == NoWrite
      ensures Step(old(ViewNow()), AddBlockOp(b, now), ViewNow())
    {
      hide MemosOk, LedgerOk, Linked, CoreOk, Mempool.PoolOk, Mempool.NoStale, Cleaned;
      hide StateOf, Same, NextOk, ActivationOf, Filled, HeaderPasses, FeeAsked, LookedUp;
      TipReady();
      AddLooks(ViewNow(), b, now);
      if !b.hexOk || b.hd.prev != Hash(cr, blocks[|blocks| - 1]) {
        NotLinked(RulesNow(), blocks, b, now);
        return false, NoWrite;
      }
      ok := ValidateBlock(blocks, state, b, now);
      if !ok {
        return false, NoWrite;
      }
      NextIsCore(old(RulesNow()), blocks, b, now);
      Connect(b);
      write := Extend([b], cumWork);
      LedgerWork();
    }

    // ------------------------------------------------------------ adopting a candidate

    /** One candidate block: validate it on the replayed chain and apply it to the copies. */
    method ReplayStep(ghost rules: Rules, ghost base: seq<Block>, nbs: seq<Block>, i: nat, chain: seq<Block>,
        st: State, tot: TotalsMap, now: nat)
      returns (good: bool, st': State, tot': TotalsMap)
      requires MemosOk() && i < |nbs| && Replayed(rules, base, nbs, i, chain, st, tot)
      requires forall k :: 0 <= k < i ==> CandidateAt(rules, base, nbs, k, now)
      requires rules.cr == cr && rules.checkpoints == checkpoints
      requires CachesReplayed(rules, lwmaAct, feeAct, base, nbs, i, now, maxReorg)
      modifies this`verifiedPow, this`vmCache, this`vmSeed, this`lwmaAct, this`feeAct
      ensures MemosOk() && CachesReplayed(rules, lwmaAct, feeAct, base, nbs, i + 1, now, maxReorg)
      ensures good <==> CandidateAt(rules, base, nbs, i, now)
      ensures good ==> Replayed(rules, base, nbs, i + 1, chain + [nbs[i]], st', tot')
    {
      hide MemosOk, ChainOk, StateOf, TotalsOf, SumWork, IndexOf, NextOk, CoreOk, Linked, Same, ApplyTxs, CountTxs;
      hide IndexTxs, CacheStep, ActiveWith, Neutral, CandidateAt, WorkSum, HeaderPasses, FeeAsked, Filled, LookedUp;
      st', tot' := st, tot;
      var b := nbs[i];
      ghost var lwma, fee := lwmaAct, feeAct;
      ChainLinked(cr, chain);
      good := ValidateBlock(chain, st, b, now);
      NeutralHere(rules.lwmaAct, lwma, base, nbs, i, LWMA_GATE);
      NeutralHere(rules.feeAct, fee, base, nbs, i, FEE_GATE);
      SameDecision(rules, now, chain, b, lwma, fee);
      CandidateAtIs(rules, base, nbs, i, now);
      ReplayCache(rules, rules.lwmaAct, lwma, lwmaAct, base, nbs, i, now, false, LWMA_GATE, maxReorg);
      ReplayCache(rules, rules.feeAct, fee, feeAct, base, nbs, i, now, true, FEE_GATE, maxReorg);
      if good {
        NextIsCore(rules, chain, b, now);
        ReplayedStep(rules, base, nbs, i, chain, st, tot);
        st' := ApplyBlockToState(st, b);
        tot' := ApplyBlockToTotals(tot, b);
      }
    }

    /** Validates the candidate blocks one after another on top of `base`, with running copies of
        the ledgers, and leaves the live ones alone. */
    method ReplayCandidate(base: seq<Block>, st0: State, tot0: TotalsMap, nbs: seq<Block>, now: nat)
      returns (ok: bool, chain: seq<Block>, st: State, tot: TotalsMap)
      requires MemosOk() && ChainOk(cr, base) && Same(st0, StateOf(base)) && tot0 == TotalsOf(base)
      modifies this`verifiedPow, this`vmCache, this`vmSeed, this`lwmaAct, this`feeAct
      ensures MemosOk()
      ensures |base| > 0 && (ok <==> CandidateOk(old(RulesNow()), base, nbs, now))
      ensures ok ==> chain == base + nbs && Same(st, StateOf(chain)) && tot == TotalsOf(chain) && ChainOk(cr, chain)
      ensures CachesFilled(old(RulesNow()), lwmaAct, feeAct, base, nbs, now, maxReorg)
    {
      hide MemosOk, CandidateAt, Replayed, CachesReplayed, ChainOk, StateOf, TotalsOf, Same;
      ghost var rules := RulesNow();
      chain, st, tot := base, st0, tot0;
      BeginReplay(rules, base, nbs, st, tot, now, maxReorg);
      for i := 0 to |nbs|
        invariant MemosOk() && Replayed(rules, base, nbs, i, chain, st, tot)
        invariant forall k :: 0 <= k < i ==> CandidateAt(rules, base, nbs, k, now)
        invariant CachesReplayed(rules, lwmaAct, feeAct, base, nbs, i, now, maxReorg)
      {
        var good;
        good, st, tot := ReplayStep(rules, base, nbs, i, chain, st, tot, now);
        if !good {
          ReplayEnds(rules, lwmaAct, feeAct, base, nbs, i, now, maxReorg);
          ok := false;
          return;
        }
        chain := chain + [nbs[i]];
      }
      EndReplay(rules, base, nbs, chain, st, tot);
      ReplayEnded(rules, lwmaAct, feeAct, base, nbs, now, maxReorg);
      ok := true;
    }

    /** deepRecoveryActiveC */
    method DeepRecoveryActive() returns (active: bool)
      modifies this`drAct
      ensures active == ActiveWith(old(drAct), blocks, RECOVERY_GATE)
      ensures drAct == Filled(old(drAct), blocks, RECOVERY_GATE, maxReorg)
    {
      var a;
      a, drAct := ActivationCached(drAct, blocks, RECOVERY_GATE, maxReorg);
      active := a != 0 && |blocks| >= a;
    }

    /** The break-glass guard: does the candidate discard a held checkpoint without reaching it? */
    method DiscardsCheckpoint(start: nat, count: nat) returns (yes: bool)
      requires |blocks| > 0
      ensures yes <==> DropsCheckpoint(checkpoints, |blocks|, start, count)
    {
      var todo := checkpoints.Keys;
      while todo != {}
        invariant todo <= checkpoints.Keys
        invariant forall h :: h in checkpoints && h !in todo && start <= h < |blocks| ==> h < start + count
        decreases |todo|
      {
        var h :| h in todo;
        todo := todo - {h};
        if h >= start && h <= |blocks| - 1 && h > start + count - 1 {
          return true;
        }
      }
      yes := false;
    }

    /** Replaces chain and ledgers by validated ones; `txs` are the transactions to take out of
        the pool. */
    method Install(chain: seq<Block>, st: State, tot: TotalsMap, work: nat, idx: Index, txs: seq<Tx>)
      requires Valid() && ChainOk(cr, chain) && Same(st, StateOf(chain)) && tot == TotalsOf(chain) && work == WorkSum(chain)
      requires indexed ==> idx == IndexOf(chain)
      modifies this`blocks, this`state, this`totals, this`cumWork, this`supply, this`addrTx, pool
      ensures Valid()
      ensures blocks == chain && cumWork == work && Cleaned(old(pool.mempool), txs)
    {
      hide MemosOk, LedgerOk, ChainOk, StateOf, TotalsOf, WorkSum, IndexOf, Same;
      hide Mempool.PoolOk, Mempool.NoStale, Cleaned;
      InstallLedger(chain, st, tot, work, idx);
      CleanPool(txs);
    }

    method InstallLedger(chain: seq<Block>, st: State, tot: TotalsMap, work: nat, idx: Index)
      requires ChainOk(cr, chain) && Same(st, StateOf(chain)) && tot == TotalsOf(chain) && work == WorkSum(chain)
      requires indexed ==> idx == IndexOf(chain)
      modifies this`blocks, this`state, this`totals, this`cumWork, this`supply, this`addrTx
      ensures LedgerOk() && blocks == chain && cumWork == work
    {
      hide ChainOk, Derived, StateOf, TotalsOf, WorkSum, SumWork, IndexOf, Total, Same, Ideal;
      blocks, totals, cumWork, state := chain, tot, work, st;
      if indexed {
        addrTx := idx;
      }
      supply := RecomputeSupply(state);
      DerivedWhole(cr, blocks, state, totals, cumWork, supply);
    }

    /** The extension path: replay on copies of the live ledgers, then install. */
    method ExtendTip(nbs: seq<Block>, work: nat, now: nat) returns (ok: bool)
      requires Valid() && work == WorkSum(blocks + nbs)
      modifies this, pool
      ensures Valid() && |old(blocks)| > 0
      ensures ok <==> CandidateOk(old(RulesNow()), old(blocks), nbs, now)
      ensures ok ==> blocks == old(blocks) + nbs && cumWork == work && Cleaned(old(pool.mempool), AllTxs(nbs))
      ensures !ok ==> LedgerUnchanged()
      ensures checkpoints == old(checkpoints) && authAnchor == old(authAnchor) && drAct == old(drAct)
      ensures CachesFilled(old(RulesNow()), lwmaAct, feeAct, old(blocks), nbs, now, maxReorg)
    {
      hide MemosOk, ChainOk, StateOf, TotalsOf, SumWork, WorkSum, IndexOf, Total, Same, Mempool.PoolOk;
      hide Mempool.NoStale, Cleaned;
      hide CandidateOk, CachesFilled, AllTxs, Linked;
      var chain, st, tot;
      ok, chain, st, tot := ReplayCandidate(blocks, state, totals, nbs, now);
      if !ok {
        return;
      }
      var idx := addrTx;
      if indexed {
        idx := IndexBlocks(addrTx, blocks, nbs);
      }
      Install(chain, st, tot, work, idx, AllTxs(nbs));
    }

    /** The reorg path: rebuild the ledgers of the kept prefix, replay, then install. */
    method Reorganise(start: nat, nbs: seq<Block>, work: nat, now: nat) returns (ok: bool)
      requires Valid() && 0 < start <= |blocks| && work == WorkSum(blocks[..start] + nbs)
      modifies this, pool
      ensures Valid()
      ensures ok <==> CandidateOk(old(RulesNow()), old(blocks)[..start], nbs, now)
      ensures ok ==> blocks == old(blocks)[..start] + nbs && cumWork == work && Cleaned(old(pool.mempool), [])
      ensures !ok ==> LedgerUnchanged()
      ensures checkpoints == old(checkpoints) && authAnchor == old(authAnchor) && drAct == old(drAct)
      ensures CachesFilled(old(RulesNow()), lwmaAct, feeAct, old(blocks)[..start], nbs, now, maxReorg)
    {
      hide MemosOk, ChainOk, StateOf, TotalsOf, SumWork, WorkSum, IndexOf, Total, Same, Mempool.PoolOk;
      hide Mempool.NoStale, Cleaned;
      hide CandidateOk, CachesFilled, Linked;
      var base := blocks[..start];
      ChainOkPrefix(cr, blocks, start);
      var st, tot, w := Replay(base);
      var chain;
      ok, chain, st, tot := ReplayCandidate(base, st, tot, nbs, now);
      if !ok {
        return;
      }
      var idx := addrTx;
      if indexed {
        idx := ReindexAddrTx(chain);
      }
      Install(chain, st, tot, work, idx, []);
    }

    /** The guards of TryAdoptChain, in their order; `Adopted` when none refuses. */
    method Screen(start: nat, nbs: seq<Block>, ghost now: nat) returns (verdict: Verdict, candWork: int)
      requires Valid()
      modifies this`drAct
      ensures Valid() && |blocks| > 0
      ensures drAct == RecoveryAfter(old(ViewNow()), AdoptOp(start, nbs, now))
      ensures !verdict.Adopted? ==> verdict !in {Adopted, InvalidBlock} && verdict == Judge(old(ViewNow()), start, nbs, now)
      ensures verdict.Adopted? ==> 0 < start <= |blocks| && candWork == WorkSum(blocks[..start] + nbs)
      ensures verdict.Adopted? ==>
        Judge(old(ViewNow()), start, nbs, now)
        == if CandidateOk(old(RulesNow()), blocks[..start], nbs, now) then Adopted else InvalidBlock
    {
      hide MemosOk, LedgerOk, Mempool.PoolOk, Mempool.NoStale, ActiveWith, ActivationOf, CandidateOk, Filled;
      hide MeetsAnchor, TieBreak, WorkSum, StateOf, Same, ChainOk, CoreOk, Linked, IndexOf, TotalsOf, DropsCheckpoint;
      NonEmpty();
      ghost var v := ViewNow();
      candWork := 0;
      if |nbs| == 0 {
        return Empty, candWork;
      }
      if start == 0 || start > |blocks| {
        return BadForkPoint, candWork;
      }
      var depth := |blocks| - start;
      if maxReorg > 0 && depth > maxReorg {
        var active := DeepRecoveryActive();
        if !active || !MeetsAnchor(cr, authAnchor, start, nbs) {
          return TooDeep, candWork;
        }
      }
      var drops := DiscardsCheckpoint(start, |nbs|);
      if drops {
        return ConflictsCheckpoint, candWork;
      }
      assert cumWork == WorkSum(blocks) by {
        LedgerWork();
      }
      var good;
      candWork, good := CandidateWork(blocks, cumWork, start, nbs);
      if !good {
        return BadTarget, candWork;
      }
      if candWork <= Threshold(cumWork, depth, penalty) && !TieBreak(cr, blocks, start, nbs, candWork, cumWork) {
        return LacksWork, candWork;
      }
      assert Outweighs(v, start, nbs);
      verdict := Adopted;
    }

    /** TryAdoptChain: the verdict is `Judge`'s, an adopted candidate replaces exactly the blocks
        from the fork point on, and a rejected one changes neither chain, ledgers nor pool. */
    method TryAdoptChain(start: nat, nbs: seq<Block>, now: nat) returns (verdict: Verdict, write: DiskWrite)
      requires Valid()
      modifies this, pool
      ensures Valid()
      ensures verdict == Judge(old(ViewNow()), start, nbs, now)
      ensures verdict.Adopted? ==> start <= |old(blocks)| && blocks == old(blocks)[..start] + nbs
      ensures verdict.Adopted? ==> write == if start == |old(blocks)| then Extend(nbs, cumWork) else Rewrite(start, nbs, cumWork)
      ensures verdict.Adopted? ==> Cleaned(old(pool.mempool), if start == |old(blocks)| then AllTxs(nbs) else [])
      ensures !verdict.Adopted? ==> LedgerUnchanged() && write == NoWrite
      ensures |old(blocks)| > 0 && write == WriteOf(old(ViewNow()), AdoptOp(start, nbs, now))
      ensures Step(old(ViewNow()), AdoptOp(start, nbs, now), ViewNow())
    {
      hide MemosOk, LedgerOk, Mempool.PoolOk, Mempool.NoStale, Cleaned, Judge, CandidateOk, WorkSum, AllTxs;
      hide CachesFilled, RecoveryAfter, Step, LwmaAfter, FeeAfter;
      write := NoWrite;
      ghost var v := ViewNow();
      var work;
      verdict, work := Screen(start, nbs, now);
      if !verdict.Adopted? {
        RefusedStep(v, ViewNow(), start, nbs, now);
        return;
      }
      var ok;
      if start == |blocks| {
        assert blocks[..start] == blocks;
        ok := ExtendTip(nbs, work, now);
        if ok {
          write := Extend(nbs, cumWork);
        }
      } else {
        ok := Reorganise(start, nbs, work, now);
        if ok {
          write := Rewrite(start, blocks[start..], cumWork);
        }
      }
      verdict := if ok then Adopted else InvalidBlock;
      LedgerWork();
      ReplayedAdopt(v, ViewNow(), start, nbs, now);
    }

    // ------------------------------------------------------------ other operations

    /** AddTx */
    method AddTx(t: Tx) returns (r: Mempool.Outcome)
      requires Valid()
      modifies this`state, this`feeAct, pool
      ensures Valid() && Same(state, old(state))
      ensures r == Mempool.Decision(cr, blocks, old(state), old(feeAct), old(pool.mempool), old(pool.bySender), t)
      ensures r.Refused? ==> pool.mempool == old(pool.mempool) && pool.bySender == old(pool.bySender)
      ensures r.Accepted? ==> Mempool.Accepts(cr, old(pool.mempool), pool.mempool, t)
      ensures Step(old(ViewNow()), SubmitOp, ViewNow())
    {
      hide MemosOk, ChainOk, Derived, Same, IndexOf, Step, Mempool.PoolOk, Mempool.NoStale, Mempool.Accepts;
      hide Mempool.Decision, ActivationOf, StateOf;
      var next;
      r, next, feeAct := pool.AddTx(blocks, state, feeAct, maxReorg, t);
      DerivedSame(blocks, state, next, totals, cumWork, supply);
      StaleSame(old(pool.mempool), state, next);
      if r.Accepted? {
        SubmittedFresh(cr, old(pool.mempool), pool.mempool, t, state, next);
      }
      NonEmpty();
      state := next;
      SubmitStep(old(ViewNow()), ViewNow());
    }

    /** ApplyCheckpoint */
    method ApplyCheckpoint(cp: Anchor) returns (ok: bool)
      requires Valid()
      modifies this`checkpoints
      ensures Valid()
      ensures ok <==> Holds(cr, blocks, cp)
      ensures Step(old(ViewNow()), CheckpointOp(cp), ViewNow())
    {
      hide MemosOk, LedgerOk, Mempool.PoolOk, Mempool.NoStale;
      NonEmpty();
      if cp.height == 0 || cp.height >= |blocks| {
        return false;
      }
      if Hash(cr, blocks[cp.height]) != cp.hash {
        return false;
      }
      if cp.height in checkpoints && checkpoints[cp.height] == cp.hash {
        assert checkpoints == checkpoints[cp.height := cp.hash];
        return true;
      }
      checkpoints := checkpoints[cp.height := cp.hash];
      ok := true;
    }

    /** SetAuthorityAnchor, for an anchor whose signature the caller verified. */
    method SetAuthorityAnchor(a: Anchor)
      requires Valid()
      modifies this`authAnchor
      ensures Valid()
      ensures Step(old(ViewNow()), AnchorOp(a), ViewNow())
    {
      hide MemosOk, LedgerOk, Mempool.PoolOk, Mempool.NoStale;
      NonEmpty();
      if a.height > authAnchor.height {
        authAnchor := a;
      }
    }

    /** PreVerifyPoW followed by PreVerifySigs, as sync runs them before adopting. */
    method PreVerify(start: nat, nbs: seq<Block>)
      requires Valid()
      modifies this`powOK, this`sigOK
      ensures Valid()
    {
      hide LedgerOk, Ideal, VerifiedSound, PowSound, SigSound, VmCacheOk, Mempool.PoolOk, Mempool.NoStale;
      powOK := PreVerifyPow(cr, blocks, powOK, start, nbs);
      sigOK := PreVerifySigs(cr, sigOK, start, nbs);
    }

    lemma LedgerWork()
      requires LedgerOk()
      ensures cumWork == WorkSum(blocks)
    {
      hide ChainOk, StateOf, TotalsOf, SumWork, WorkSum, IndexOf, Total, Same;
    }
  }

  lemma {:induction false} RefusedStep(v: View, v': View, start: nat, nbs: seq<Block>, now: nat)
    requires |v.blocks| > 0 && v' == v.(drAct := v'.drAct) && !IsReplayed(v, start, nbs, now)
    requires v'.drAct == RecoveryAfter(v, AdoptOp(start, nbs, now))
    ensures Step(v, AdoptOp(start, nbs, now), v')
  {
    hide Judge, Filled;
    NothingToFill(v.rules.lwmaAct, LWMA_GATE, v.maxReorg);
    NothingToFill(v.rules.feeAct, FEE_GATE, v.maxReorg);
  }

  lemma {:induction false} ReplayedAdopt(v: View, v': View, start: nat, nbs: seq<Block>, now: nat)
    requires 0 < start <= |v.blocks| && IsReplayed(v, start, nbs, now)
    requires v'.rules.cr == v.rules.cr && v'.maxReorg == v.maxReorg && v'.penalty == v.penalty
    requires v'.rules.checkpoints == v.rules.checkpoints && v'.anchor == v.anchor
    requires v'.blocks == if Judge(v, start, nbs, now).Adopted? then v.blocks[..start] + nbs else v.blocks
    requires CachesFilled(v.rules, v'.rules.lwmaAct, v'.rules.feeAct, v.blocks[..start], nbs, now, v.maxReorg)
    requires v'.drAct == RecoveryAfter(v, AdoptOp(start, nbs, now))
    ensures Step(v, AdoptOp(start, nbs, now), v')
  {
    hide Judge, Filled, LookedUp;
  }

  lemma {:induction false} NotLinked(rules: Rules, prefix: seq<Block>, b: Block, now: nat)
    requires |prefix| > 0 && (!b.hexOk || b.hd.prev != Hash(rules.cr, prefix[|prefix| - 1]))
    ensures !NextOk(rules, prefix, b, now) && !HeaderPasses(rules, prefix, b, now) && !FeeAsked(rules, prefix, b, now)
  {
  }

  /** What AddBlock looks up: the node's own chain, when the block gets that far. */
  lemma {:induction false} AddLooks(v: View, b: Block, now: nat)
    requires |v.blocks| > 0
    ensures LwmaAfter(v, AddBlockOp(b, now)) == if HeaderPasses(v.rules, v.blocks, b, now)
      then Filled(v.rules.lwmaAct, v.blocks, LWMA_GATE, v.maxReorg) else v.rules.lwmaAct
    ensures Filled(v.rules.feeAct, LookUp(v, AddBlockOp(b, now), true), FEE_GATE, v.maxReorg)
      == if FeeAsked(v.rules, v.blocks, b, now) then Filled(v.rules.feeAct, v.blocks, FEE_GATE, v.maxReorg)
      else v.rules.feeAct
  {
    hide FeeAsked, HeaderPasses, Filled;
    LookOne(v.rules, v.blocks, b, now, false);
    LookOne(v.rules, v.blocks, b, now, true);
    NothingToFill(v.rules.lwmaAct, LWMA_GATE, v.maxReorg);
    NothingToFill(v.rules.feeAct, FEE_GATE, v.maxReorg);
  }

  lemma {:induction false} DropOne(cr: Crypto, all: Mempool.TxMap, done: seq<Tx>, t: Tx, before: Mempool.TxMap,
      after: Mempool.TxMap)
    requires before == all - set x | x in done :: cr.txId(x)
    requires after == if cr.txId(t) in before then before - {cr.txId(t)} else before
    ensures after == all - set x | x in done + [t] :: cr.txId(x)
  {
    assert (set x | x in done + [t] :: cr.txId(x)) == (set x | x in done :: cr.txId(x)) + {cr.txId(t)};
  }

  lemma {:induction false} VerifiedUse(cr: Crypto, verified: set<nat>, prefix: seq<Block>, b: Block)
    requires VerifiedSound(cr, verified) && Hash(cr, b) in verified && Linked(cr, prefix)
    requires LinkOk(cr, prefix, b)
    ensures PowOk(cr, prefix, b)
  {
    assert PowFact(cr, prefix, b);
  }
}
