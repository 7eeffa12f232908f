/** Paged address history: History's walk over the in-memory index (core/chain.go) and
    addrHistory's reverse cursor scan (core/bbolt_store.go) both return one page of the plain scan
    of the chain, newest block first and transactions in order inside a block. */
module History {
  import opened Types
  import opened Ledger
  import opened Store

  // ----------------------------------------------------------------- the plain scan

  /** The transactions of block `bi` below index `n` that touch `a`. */
  function BlockRefs(b: Block, bi: nat, n: nat, a: Text): seq<HistRef>
    requires n <= |b.txs|
  {
    if n == 0 then []
    else BlockRefs(b, bi, n - 1, a) + if a in Touched(b.txs[n - 1]) then [HistRef(bi, n - 1)] else []
  }

  /** Newest block first, transaction order inside a block. */
  function Scan(blocks: seq<Block>, a: Text): seq<HistRef> {
    if |blocks| == 0 then []
    else
      var n := |blocks| - 1;
      BlockRefs(blocks[n], n, |blocks[n].txs|, a) + Scan(blocks[..n], a)
  }

  /** The same references oldest first, as the indexes keep them. */
  function Oldest(blocks: seq<Block>, a: Text): seq<HistRef> {
    if |blocks| == 0 then []
    else
      var n := |blocks| - 1;
      Oldest(blocks[..n], a) + BlockRefs(blocks[n], n, |blocks[n].txs|, a)
  }

  function Min(x: int, y: int): int { if x < y then x else y }

  /** Rows [offset, offset + limit) of `s`. */
  function PageOf<T>(s: seq<T>, offset: nat, limit: nat): seq<T> {
    s[Min(offset, |s|)..Min(offset + limit, |s|)]
  }

  // ----------------------------------------------- block runs, from the newest end

  /** The length of `refs` without its last run of references to one block. */
  function RunStart(refs: seq<HistRef>): (k: nat)
    ensures k <= |refs| && (|refs| > 0 ==> k < |refs|)
    ensures forall i :: k <= i < |refs| ==> refs[i].bi == refs[|refs| - 1].bi
    ensures k > 0 ==> refs[k - 1].bi != refs[|refs| - 1].bi
  {
    if |refs| == 0 then 0
    else if |refs| == 1 || refs[|refs| - 2].bi != refs[|refs| - 1].bi then |refs| - 1
    else RunStart(refs[..|refs| - 1])
  }

  /** The runs in reverse order, each in its own order. */
  function Runs(refs: seq<HistRef>): seq<HistRef> {
    if |refs| == 0 then []
    else var k := RunStart(refs); refs[k..] + Runs(refs[..k])
  }

  lemma {:induction false} BlockRefsAt(b: Block, bi: nat, n: nat, a: Text)
    requires n <= |b.txs|
    ensures forall r :: r in BlockRefs(b, bi, n, a) <==> r.bi == bi && r.ti < n && a in Touched(b.txs[r.ti])
  {
    if n > 0 {
      BlockRefsAt(b, bi, n - 1, a);
    }
  }

  lemma {:induction false} OldestAt(blocks: seq<Block>, a: Text)
    ensures forall r :: r in Oldest(blocks, a) <==> r.bi < |blocks| && r.ti < |blocks[r.bi].txs| && a in Touched(blocks[r.bi].txs[r.ti])
  {
    if |blocks| > 0 {
      var n := |blocks| - 1;
      OldestAt(blocks[..n], a);
      BlockRefsAt(blocks[n], n, |blocks[n].txs|, a);
      hide Touched, BlockRefs;
      forall r: HistRef | r.bi < n ensures blocks[..n][r.bi] == blocks[r.bi] {
      }
    }
  }

  lemma {:induction false} RunStartIs(refs: seq<HistRef>, k: nat)
    requires k < |refs|
    requires forall i :: k <= i < |refs| ==> refs[i].bi == refs[|refs| - 1].bi
    requires k > 0 ==> refs[k - 1].bi != refs[|refs| - 1].bi
    ensures RunStart(refs) == k
  {
  }

  /** Walking the oldest-first index run by run from its end is the plain scan. */
  lemma {:induction false} RunsOfOldest(blocks: seq<Block>, a: Text)
    ensures Runs(Oldest(blocks, a)) == Scan(blocks, a)
  {
    if |blocks| > 0 {
      var n := |blocks| - 1;
      var before, last := Oldest(blocks[..n], a), BlockRefs(blocks[n], n, |blocks[n].txs|, a);
      var refs := before + last;
      RunsOfOldest(blocks[..n], a);
      BlockRefsAt(blocks[n], n, |blocks[n].txs|, a);
      OldestAt(blocks[..n], a);
      hide Touched, BlockRefs, RunStart;
      if |last| > 0 {
        assert refs[|refs| - 1] == last[|last| - 1] && last[|last| - 1] in last;
        forall i | |before| <= i < |refs| ensures refs[i].bi == n {
          assert refs[i] == last[i - |before|] && refs[i] in last;
        }
        if |before| > 0 {
          assert refs[|before| - 1] == before[|before| - 1] && refs[|before| - 1] in before;
        }
        RunStartIs(refs, |before|);
        assert refs[|before|..] == last && refs[..|before|] == before;
      } else {
        assert refs == before;
      }
    }
  }

  // ------------------------------------------------------- the in-memory index

  lemma {:induction false} IndexTxRefs(idx: Index, r: HistRef, t: Tx, a: Text)
    ensures Refs(IndexTx(idx, r, t), a) == Refs(idx, a) + if a in Touched(t) then [r] else []
  {
  }

  lemma {:induction false} IndexTxsRefs(idx: Index, b: Block, n: nat, a: Text)
    requires n <= |b.txs|
    ensures Refs(IndexTxs(idx, b.hd.height, b.txs[..n]), a) == Refs(idx, a) + BlockRefs(b, b.hd.height, n, a)
  {
    if n == 0 {
      assert b.txs[..0] == [];
    } else {
      assert b.txs[..n][..n - 1] == b.txs[..n - 1];
      IndexTxsRefs(idx, b, n - 1, a);
      IndexTxRefs(IndexTxs(idx, b.hd.height, b.txs[..n - 1]), HistRef(b.hd.height, n - 1), b.txs[n - 1], a);
    }
  }

  /** The in-memory index lists exactly the transactions that touch an address, oldest first. */
  lemma {:induction false} IndexIsOldest(blocks: seq<Block>, a: Text)
    requires Heights(blocks)
    ensures Refs(IndexOf(blocks), a) == Oldest(blocks, a)
  {
    if |blocks| > 0 {
      var n := |blocks| - 1;
      var b := blocks[n];
      assert Heights(blocks[..n]) && b.hd.height == n;
      IndexIsOldest(blocks[..n], a);
      IndexTxsRefs(IndexOf(blocks[..n]), b, |b.txs|, a);
      assert b.txs[..|b.txs|] == b.txs;
    }
  }

  // ------------------------------------------------------------------- paging

  predicate InChainAt(blocks: seq<Block>, r: HistRef) {
    r.bi < |blocks| && r.ti < |blocks[r.bi].txs|
  }

  predicate AllIn(blocks: seq<Block>, rs: seq<HistRef>) {
    forall i :: 0 <= i < |rs| ==> InChainAt(blocks, rs[i])
  }

  function ItemAt(cr: Crypto, blocks: seq<Block>, r: HistRef): HistoryItem
    requires InChainAt(blocks, r)
  {
    ItemOf(cr, blocks[r.bi], r.ti)
  }

  function Items(cr: Crypto, blocks: seq<Block>, rs: seq<HistRef>): (s: seq<HistoryItem>)
    requires AllIn(blocks, rs)
    ensures |s| == |rs|
  {
    if |rs| == 0 then [] else Items(cr, blocks, rs[..|rs| - 1]) + [ItemAt(cr, blocks, rs[|rs| - 1])]
  }

  /** The rows of one page of the plain scan. */
  function HistoryPage(cr: Crypto, blocks: seq<Block>, a: Text, offset: nat, limit: nat): seq<HistoryItem> {
    ScanIn(blocks, a);
    Items(cr, blocks, PageOf(Scan(blocks, a), offset, limit))
  }

  lemma {:induction false} ScanIn(blocks: seq<Block>, a: Text)
    ensures AllIn(blocks, Scan(blocks, a))
  {
    if |blocks| > 0 {
      var n := |blocks| - 1;
      ScanIn(blocks[..n], a);
      var last, rest := BlockRefs(blocks[n], n, |blocks[n].txs|, a), Scan(blocks[..n], a);
      BlockRefsAt(blocks[n], n, |blocks[n].txs|, a);
      hide Touched, BlockRefs;
      forall i | 0 <= i < |last + rest| ensures InChainAt(blocks, (last + rest)[i]) {
        if i < |last| {
          assert last[i] in last;
        } else {
          assert InChainAt(blocks[..n], rest[i - |last|]);
        }
      }
    }
  }

  /** `out` is the page of the references seen so far, `skipped` how many went into the offset. */
  ghost predicate Paged(cr: Crypto, blocks: seq<Block>, seen: seq<HistRef>, offset: nat, limit: nat, skipped: nat,
      out: seq<HistoryItem>) {
    && AllIn(blocks, seen)
    && skipped == Min(offset, |seen|)
    && out == Items(cr, blocks, PageOf(seen, offset, limit))
  }

  lemma {:induction false} Skip(cr: Crypto, blocks: seq<Block>, seen: seq<HistRef>, r: HistRef, offset: nat,
      limit: nat, skipped: nat, out: seq<HistoryItem>)
    requires Paged(cr, blocks, seen, offset, limit, skipped, out) && InChainAt(blocks, r) && skipped < offset
    ensures Paged(cr, blocks, seen + [r], offset, limit, skipped + 1, out)
  {
  }

  lemma {:induction false} Emit(cr: Crypto, blocks: seq<Block>, seen: seq<HistRef>, r: HistRef, offset: nat,
      limit: nat, skipped: nat, out: seq<HistoryItem>)
    requires Paged(cr, blocks, seen, offset, limit, skipped, out) && InChainAt(blocks, r) && skipped >= offset && |out| < limit
    ensures Paged(cr, blocks, seen + [r], offset, limit, skipped, out + [ItemAt(cr, blocks, r)])
  {
    var page, more := PageOf(seen, offset, limit), PageOf(seen + [r], offset, limit);
    assert more == page + [r];
    assert more[..|more| - 1] == page;
  }

  /** A full page, or everything seen: no later reference can change the page. */
  lemma {:induction false} PageDone(cr: Crypto, blocks: seq<Block>, seen: seq<HistRef>, a: Text, offset: nat,
      limit: nat, skipped: nat, out: seq<HistoryItem>)
    requires Paged(cr, blocks, seen, offset, limit, skipped, out) && seen <= Scan(blocks, a)
    requires |out| < limit ==> seen == Scan(blocks, a)
    ensures out == HistoryPage(cr, blocks, a, offset, limit)
  {
    var s := Scan(blocks, a);
    ScanIn(blocks, a);
    hide Scan;
    if |out| >= limit && limit > 0 {
      assert PageOf(s, offset, limit) == PageOf(seen, offset, limit);
    } else if limit == 0 {
      assert PageOf(s, offset, limit) == PageOf(seen, offset, limit) == [];
    }
  }

  lemma {:induction false} NextRun(refs: seq<HistRef>, j: nat, k: nat)
    requires k <= j < |refs|
    requires forall i :: k <= i <= j ==> refs[i].bi == refs[j].bi
    requires k > 0 ==> refs[k - 1].bi != refs[j].bi
    ensures Runs(refs[..j + 1]) == refs[k..j + 1] + Runs(refs[..k])
  {
    var s := refs[..j + 1];
    RunStartIs(s, k);
    assert s[k..] == refs[k..j + 1] && s[..k] == refs[..k];
  }

  lemma {:induction false} NoneYet(cr: Crypto, blocks: seq<Block>, offset: nat, limit: nat)
    ensures Paged(cr, blocks, [], offset, limit, 0, [])
  {
  }

  lemma {:induction false} IndexedIn(blocks: seq<Block>, a: Text)
    ensures AllIn(blocks, Oldest(blocks, a))
  {
    OldestAt(blocks, a);
    hide Touched, Oldest;
    forall i | 0 <= i < |Oldest(blocks, a)| ensures InChainAt(blocks, Oldest(blocks, a)[i]) {
      assert Oldest(blocks, a)[i] in Oldest(blocks, a);
    }
  }

  /** The loop of History over the references of one block. */
  method EmitRun(cr: Crypto, blocks: seq<Block>, run: seq<HistRef>, limit: nat, offset: nat, skipped0: nat,
      out0: seq<HistoryItem>,
                 ghost before: seq<HistRef>, ghost rest: seq<HistRef>, ghost total: seq<HistRef>)
    returns (skipped: nat, out: seq<HistoryItem>, ghost seen: seq<HistRef>)
    requires AllIn(blocks, run) && Paged(cr, blocks, before, offset, limit, skipped0, out0)
    requires total == before + (run + rest)
    ensures Paged(cr, blocks, seen, offset, limit, skipped, out)
    ensures seen <= total && (|out| < limit ==> total == seen + rest)
  {
    hide PageOf, Paged, Items, InChainAt;
    skipped, out, seen := skipped0, out0, before;
    var m := 0;
    assert before + run[..0] == before;
    while m < |run| && |out| < limit
      invariant 0 <= m <= |run|
      invariant seen == before + run[..m] && Paged(cr, blocks, seen, offset, limit, skipped, out)
    {
      var r := run[m];
      assert InChainAt(blocks, r);
      assert before + run[..m + 1] == before + run[..m] + [r];
      if skipped < offset {
        Skip(cr, blocks, seen, r, offset, limit, skipped, out);
        skipped := skipped + 1;
      } else {
        Emit(cr, blocks, seen, r, offset, limit, skipped, out);
        out := out + [ItemAt(cr, blocks, r)];
      }
      seen := seen + [r];
      m := m + 1;
    }
    AfterRun(before, seen, run, rest, total);
  }

  lemma {:induction false} AllInSlice(blocks: seq<Block>, rs: seq<HistRef>, lo: nat, hi: nat)
    requires AllIn(blocks, rs) && lo <= hi <= |rs|
    ensures AllIn(blocks, rs[lo..hi])
  {
  }

  lemma {:induction false} AfterRun<T>(before: seq<T>, seen: seq<T>, run: seq<T>, rest: seq<T>, total: seq<T>)
    requires total == before + (run + rest) && seen <= before + run
    ensures seen <= total && (seen == before + run ==> total == seen + rest)
  {
    assert total == (before + run) + rest;
    assert total[..|seen|] == (before + run)[..|seen|] == seen;
  }

  /** The loop of History that finds where the run of one block starts. */
  method BelowRun(refs: seq<HistRef>, j: nat) returns (k: int)
    requires j < |refs|
    ensures -1 <= k < j && Runs(refs[..j + 1]) == refs[k + 1..j + 1] + Runs(refs[..k + 1])
  {
    hide Runs;
    var bi := refs[j].bi;
    k := j;
    while k >= 0 && refs[k].bi == bi
      invariant -1 <= k <= j
      invariant forall i :: k < i <= j ==> refs[i].bi == bi
    {
      k := k - 1;
    }
    NextRun(refs, j, k + 1);
  }

  lemma {:induction false} NoRuns(refs: seq<HistRef>)
    requires refs == []
    ensures Runs(refs) == []
  {
  }

  /** The index, read run by run from its end, is the scan. */
  lemma {:induction false} IndexScans(blocks: seq<Block>, a: Text, refs: seq<HistRef>)
    requires Heights(blocks) && refs == Refs(IndexOf(blocks), a)
    ensures AllIn(blocks, refs) && Scan(blocks, a) == [] + Runs(refs[..|refs|])
  {
    IndexIsOldest(blocks, a);
    RunsOfOldest(blocks, a);
    IndexedIn(blocks, a);
    assert refs[..|refs|] == refs;
  }

  /** The part of History that serves a node without a block store. */
  method FromIndex(cr: Crypto, blocks: seq<Block>, addrTx: Index, a: Text, limit: nat,
      from: int) returns (out: seq<HistoryItem>)
    requires Heights(blocks) && addrTx == IndexOf(blocks)
    ensures out == HistoryPage(cr, blocks, a, if from < 0 then 0 else from, limit)
  {
    var offset := if from < 0 then 0 else from;
    var refs := Refs(addrTx, a);
    hide *;
    IndexScans(blocks, a, refs);
    out := [];
    var skipped, j := 0, |refs| - 1;
    ghost var seen: seq<HistRef>, total := [], Scan(blocks, a);
    NoneYet(cr, blocks, offset, limit);
    while j >= 0 && |out| < limit
      invariant -1 <= j < |refs|
      invariant seen <= total && Paged(cr, blocks, seen, offset, limit, skipped, out)
      invariant |out| < limit ==> total == seen + Runs(refs[..j + 1])
    {
      var k := BelowRun(refs, j);
      AllInSlice(blocks, refs, k + 1, j + 1);
      skipped, out, seen := EmitRun(cr, blocks, refs[k + 1..j + 1], limit, offset, skipped, out, seen, Runs(refs[..k + 1]), total);
      j := k;
    }
    NoRuns(refs[..0]);
    PageDone(cr, blocks, seen, a, offset, limit, skipped, out);
  }
}
