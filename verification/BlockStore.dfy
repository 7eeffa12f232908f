/** The store's transactions (core/bbolt_store.go). A bbolt transaction is one assignment to
    `db`; a crash or a failing disk is the point where `commits`, the number of transactions
    that still succeed, runs out. As `commits` is arbitrary, what a method ensures when it
    returns false holds of every state a crash can leave behind. */
module BlockStore {
  import opened Types
  import opened Validation
  import opened Identity
  import opened Store

  const BATCH := 1000

  // ------------------------------------------------- the body of a transaction

  lemma {:induction false} AddrKeysStep(b: Block, i: nat)
    requires i < |b.txs|
    ensures AddrKeys(b, i + 1) == AddrKeys(b, i) + (set a | a in Touched(b.txs[i]) :: AddrKey(a, b.hd.height, i))
  {
  }

  /** The rows of transaction `i` alone. */
  function RowsOf(cr: Crypto, b: Block, i: nat): map<AddrKey, Cell>
    requires i < |b.txs|
  {
    map a | a in Touched(b.txs[i]) :: AddrKey(a, b.hd.height, i) := Row(ItemOf(cr, b, i))
  }

  lemma {:induction false} AddrRowsStep(cr: Crypto, b: Block, i: nat)
    requires i < |b.txs|
    ensures AddrRows(cr, b, i + 1) == AddrRows(cr, b, i) + RowsOf(cr, b, i)
  {
    AddrKeysStep(b, i);
    hide Touched;
    var l, r := AddrRows(cr, b, i + 1), AddrRows(cr, b, i) + RowsOf(cr, b, i);
    assert l.Keys == r.Keys;
    forall k | k in l ensures l[k] == r[k] {
      if k in RowsOf(cr, b, i) {
        assert k.idx == i;
      }
    }
  }

  lemma {:induction false} MergeAssoc<K, V>(x: map<K, V>, y: map<K, V>, z: map<K, V>)
    ensures x + y + z == x + (y + z)
  {
  }

  lemma {:induction false} RowsGrow(cr: Crypto, at0: map<AddrKey, Cell>, b: Block, i: nat)
    requires i < |b.txs|
    ensures at0 + AddrRows(cr, b, i) + RowsOf(cr, b, i) == at0 + AddrRows(cr, b, i + 1)
  {
    hide *;
    AddrRowsStep(cr, b, i);
    MergeAssoc(at0, AddrRows(cr, b, i), RowsOf(cr, b, i));
  }

  method PutRowsOf(cr: Crypto, at0: map<AddrKey, Cell>, b: Block, i: nat) returns (at: map<AddrKey, Cell>)
    requires i < |b.txs|
    ensures at == at0 + RowsOf(cr, b, i)
  {
    at := at0;
    var t, row := b.txs[i], Row(ItemOf(cr, b, i));
    match t.sender {
      case NoSender => at := at[AddrKey(t.to, b.hd.height, i) := row];
      case BadKey =>
      case Key(from) =>
        at := at[AddrKey(from, b.hd.height, i) := row];
        if t.to != from {
          at := at[AddrKey(t.to, b.hd.height, i) := row];
        }
    }
  }

  /** putAddrRows */
  method PutAddrRows(cr: Crypto, at0: map<AddrKey, Cell>, b: Block) returns (at: map<AddrKey, Cell>)
    ensures at == at0 + AddrRows(cr, b, |b.txs|)
  {
    at := at0;
    assert AddrRows(cr, b, 0) == map[];
    hide *;
    var i := 0;
    while i < |b.txs|
      invariant 0 <= i <= |b.txs|
      invariant at == at0 + AddrRows(cr, b, i)
    {
      at := PutRowsOf(cr, at, b, i);
      RowsGrow(cr, at0, b, i);
      i := i + 1;
    }
  }

  lemma {:induction false} MergeOne<K, V>(x: map<K, V>, y: map<K, V>, k: K, v: V)
    ensures (x + y)[k := v] == x + y[k := v]
  {
  }

  /** putBlockTx */
  method PutBlockTx(cr: Crypto, d: Buckets, b: Block) returns (r: Buckets)
    ensures r == Put(cr, d, b)
  {
    hide Hash, AddrRows, TxKeys;
    var txi := d.txIndex;
    var i := 0;
    while i < |b.txs|
      invariant 0 <= i <= |b.txs|
      invariant txi == d.txIndex + TxRows(cr, b, i)
    {
      MergeOne(d.txIndex, TxRows(cr, b, i), cr.txId(b.txs[i]), Loc(b.hd.height, i));
      txi := txi[cr.txId(b.txs[i]) := Loc(b.hd.height, i)];
      i := i + 1;
    }
    var at := PutAddrRows(cr, d.addrTx, b);
    r := Buckets(d.blocks[b.hd.height := b], d.blockHash[Hash(cr, b) := b.hd.height], txi, at);
  }

  /** deleteBlockTx: the mirror of putBlockTx, with the same skip of a sender that has no address. */
  method DeleteBlockTx(cr: Crypto, d: Buckets, b: Block) returns (r: Buckets)
    ensures r == Delete(cr, d, b)
  {
    var txi, at := d.txIndex, d.addrTx;
    var i := 0;
    while i < |b.txs|
      invariant 0 <= i <= |b.txs|
      invariant txi == d.txIndex - TxKeys(cr, b, i)
      invariant at == d.addrTx - AddrKeys(b, i)
    {
      var t := b.txs[i];
      AddrKeysStep(b, i);
      txi := txi - {cr.txId(t)};
      match t.sender {
        case NoSender => at := at - {AddrKey(t.to, b.hd.height, i)};
        case BadKey =>
        case Key(from) =>
          at := at - {AddrKey(from, b.hd.height, i)};
          if t.to != from {
            at := at - {AddrKey(t.to, b.hd.height, i)};
          }
      }
      i := i + 1;
    }
    r := Buckets(d.blocks - {b.hd.height}, d.blockHash - {Hash(cr, b)}, txi, at);
  }

  /** What deleteRangeTx does: delete whatever is stored at lo .. hi-1, lowest first. */
  function DeleteStored(cr: Crypto, d: Buckets, lo: nat, hi: nat): Buckets
    decreases hi
  {
    if lo >= hi then d
    else
      var e := DeleteStored(cr, d, lo, hi - 1);
      if hi - 1 in e.blocks then Delete(cr, e, e.blocks[hi - 1]) else e
  }

  method DeleteRangeTx(cr: Crypto, d: Buckets, lo: nat, hi: nat) returns (r: Buckets)
    requires lo <= hi + 1
    ensures r == DeleteStored(cr, d, lo, hi + 1)
  {
    hide Delete;
    r := d;
    var h := lo;
    while h <= hi
      invariant lo <= h <= hi + 1
      invariant r == DeleteStored(cr, d, lo, h)
    {
      if h in r.blocks {
        r := DeleteBlockTx(cr, r, r.blocks[h]);
      }
      h := h + 1;
    }
  }

  lemma {:induction false} PutBlocks(cr: Crypto, d: Buckets, b: Block)
    ensures Put(cr, d, b).blocks == d.blocks[b.hd.height := b]
  {
  }

  method PutAll(cr: Crypto, d: Buckets, bs: seq<Block>, ghost base: seq<Block>, ghost lo: nat) returns (r: Buckets)
    ensures d == Image(cr, base) ==> r == Image(cr, base + bs)
    ensures Mixed(d.blocks, r.blocks, lo, bs)
  {
    hide Put, Image;
    r := d;
    var i := 0;
    assert base + bs[..0] == base;
    while i < |bs|
      invariant 0 <= i <= |bs|
      invariant d == Image(cr, base) ==> r == Image(cr, base + bs[..i])
      invariant Mixed(d.blocks, r.blocks, lo, bs)
    {
      assert base + bs[..i + 1] == base + bs[..i] + [bs[i]];
      ImageStep(cr, base + bs[..i], bs[i]);
      ghost var e := r;
      r := PutBlockTx(cr, r, bs[i]);
      PutBlocks(cr, e, bs[i]);
      i := i + 1;
    }
    assert bs[..|bs|] == bs;
  }

  ghost predicate Keyed(blocks: map<nat, Block>) {
    forall h :: h in blocks ==> blocks[h].hd.height == h
  }

  /** Every block stored now was stored before, or is one of `bs` under its own height; and no
      height below `lo` was lost. */
  ghost predicate Mixed(before: map<nat, Block>, after: map<nat, Block>, lo: nat, bs: seq<Block>) {
    && (forall h :: h in after ==> (h in before && after[h] == before[h]) || (after[h] in bs && after[h].hd.height == h))
    && (Keyed(before) ==> forall h :: h in before && h < lo ==> h in after)
  }

  ghost predicate IsTop(blocks: map<nat, Block>, tip: nat) {
    tip in blocks && forall h :: h in blocks ==> h <= tip
  }

  method LastKey(blocks: map<nat, Block>) returns (have: bool, tip: nat)
    ensures have == (blocks.Keys != {})
    ensures have ==> tip in blocks && forall h :: h in blocks ==> h <= tip
  {
    var rest := blocks.Keys;
    have, tip := false, 0;
    while rest != {}
      invariant rest <= blocks.Keys
      invariant !have ==> rest == blocks.Keys
      invariant have ==> tip in blocks && forall h :: h in blocks ==> h in rest || h <= tip
      decreases |rest|
    {
      var h :| h in rest;
      if !have || h > tip {
        have, tip := true, h;
      }
      rest := rest - {h};
    }
  }

  /** putMeta */
  method PutMeta(d: Buckets, meta: Db, work: nat) returns (r: Db)
    ensures r.buckets == d && r.cumWork == work
    ensures d.blocks.Keys == {} ==> r.tip == meta.tip
    ensures d.blocks.Keys != {} ==> r.tip >= 0 && IsTop(d.blocks, r.tip)
  {
    var have, tip := LastKey(d.blocks);
    r := Db(d, if have then tip else meta.tip, work);
  }

  // ------------------------------------------------ deleting on an exact store

  lemma {:induction false} DeleteStoredBlocks(cr: Crypto, d: Buckets, lo: nat, hi: nat)
    requires forall h :: h in d.blocks ==> d.blocks[h].hd.height == h
    ensures var e := DeleteStored(cr, d, lo, hi);
      e.blocks == map h | h in d.blocks && !(lo <= h < hi) :: d.blocks[h]
    decreases hi
  {
    if lo < hi {
      DeleteStoredBlocks(cr, d, lo, hi - 1);
    }
  }

  lemma {:induction false} StoredIsRange(cr: Crypto, d: Buckets, chain: seq<Block>, n: nat, lo: nat, hi: nat)
    requires lo <= hi <= n <= |chain| && Heights(chain) && Covered(cr, d, chain[..n])
    ensures DeleteStored(cr, d, lo, hi) == DeleteRange(cr, d, chain, lo, hi)
    decreases hi
  {
    if lo < hi {
      var e := DeleteStored(cr, d, lo, hi - 1);
      StoredIsRange(cr, d, chain, n, lo, hi - 1);
      DeleteStoredBlocks(cr, d, lo, hi - 1);
      hide Delete, InChain, Hash;
      assert hi - 1 in e.blocks && e.blocks[hi - 1] == chain[..n][hi - 1] == chain[hi - 1];
    }
  }

  /** deleteRangeTx on an exact store leaves the exact store of the shorter chain. */
  lemma {:induction false} DeletesTop(cr: Crypto, chain: seq<Block>, lo: nat, hi: nat)
    requires Ideal(cr) && ChainOk(cr, chain) && NoncesFit(chain) && lo <= hi <= |chain|
    ensures DeleteStored(cr, Image(cr, chain[..hi]), lo, hi) == Image(cr, chain[..lo])
  {
    ChainHeights(cr, chain);
    hide ChainOk, Ideal, NoncesFit, Image, Covered, DeleteStored, DeleteRange, Heights;
    PrefixCovered(cr, chain, hi);
    TruncateImage(cr, chain, lo, hi);
    StoredIsRange(cr, Image(cr, chain[..hi]), chain, hi, lo, hi);
  }

  // ------------------------------------------------------------------ the store

  /** The store held exactly `chain` before the call, `start` is one of its heights, and the
      kept prefix with the branch is a chain keyed by height. */
  ghost predicate Reorg(cr: Crypto, d: Buckets, chain: seq<Block>, start: nat, branch: seq<Block>) {
    && Ideal(cr) && ChainOk(cr, chain) && NoncesFit(chain) && d == Image(cr, chain)
    && 1 <= start <= |chain| && Heights(chain[..start] + branch)
  }

  /** The exact image of a prefix of the old chain that keeps `start` blocks, or of the kept
      blocks and a prefix of the branch. */
  ghost predicate Between(cr: Crypto, d: Buckets, chain: seq<Block>, start: nat, branch: seq<Block>)
    requires start <= |chain|
  {
    || (exists n :: start <= n <= |chain| && d == Image(cr, chain[..n]))
    || (exists n :: 0 <= n <= |branch| && d == Image(cr, chain[..start] + branch[..n]))
  }

  lemma {:induction false} MixedLess(before: map<nat, Block>, after: map<nat, Block>, lo: nat, start: nat)
    requires start <= lo && Mixed(before, after, lo, [])
    ensures Mixed(before, after, start, [])
  {
  }

  lemma {:induction false} DeletesOnly(cr: Crypto, d: Buckets, lo: nat, hi: nat)
    ensures Mixed(d.blocks, DeleteStored(cr, d, lo, hi).blocks, lo, [])
    decreases hi
  {
    if lo < hi {
      DeletesOnly(cr, d, lo, hi - 1);
    }
  }

  lemma {:induction false} MixedTrans(a: map<nat, Block>, b: map<nat, Block>, c: map<nat, Block>, lo: nat,
      xs: seq<Block>, ys: seq<Block>, bs: seq<Block>)
    requires Mixed(a, b, lo, xs) && Mixed(b, c, lo, ys)
    requires (forall x :: x in xs ==> x in bs) && (forall y :: y in ys ==> y in bs)
    ensures Mixed(a, c, lo, bs)
  {
  }

  /** The highest key of an exact store is its chain's last height. */
  lemma {:induction false} LastOfImage(cr: Crypto, chain: seq<Block>)
    requires Heights(chain) && |chain| > 0
    ensures Image(cr, chain).blocks.Keys != {}
    ensures forall k: nat :: IsTop(Image(cr, chain).blocks, k) ==> k == |chain| - 1
  {
    hide Image, Heights;
    ImageCovered(cr, chain);
    assert |chain| - 1 in Image(cr, chain).blocks;
  }

  ghost function Kept(chain: seq<Block>, start: nat): seq<Block> {
    if start <= |chain| then chain[..start] else []
  }

  /** What the metadata transaction of a finished reorg stamps. */
  lemma {:induction false} Stamp(cr: Crypto, d: Buckets, chain: seq<Block>, start: nat, branch: seq<Block>)
    requires Reorg(cr, d, chain, start, branch)
    ensures start <= |chain|
    ensures var e := Image(cr, chain[..start] + branch);
      e.blocks.Keys != {} && forall k: nat :: IsTop(e.blocks, k) ==> k == start + |branch| - 1
  {
    hide ChainOk, Ideal, NoncesFit, Image, Heights, IsTop;
    LastOfImage(cr, chain[..start] + branch);
  }

  lemma {:induction false} Appending(cr: Crypto, d: Buckets, chain: seq<Block>, start: nat, branch: seq<Block>,
      n: nat)
    requires start <= |chain| && n <= |branch| && d == Image(cr, chain[..start] + branch[..n])
    ensures Between(cr, d, chain, start, branch)
  {
  }

  lemma {:induction false} SameMixed(m: map<nat, Block>, lo: nat, bs: seq<Block>)
    ensures Mixed(m, m, lo, bs)
  {
  }

  lemma {:induction false} NothingMixed(m: map<nat, Block>, lo: nat)
    ensures Mixed(m, m, lo, [])
  {
  }

  lemma {:induction false} TipOfExact(cr: Crypto, d: Buckets, chain: seq<Block>, start: nat, branch: seq<Block>,
      tip: nat)
    requires Reorg(cr, d, chain, start, branch)
    requires d.blocks.Keys != {} ==> IsTop(d.blocks, tip)
    ensures d.blocks.Keys != {} && tip == |chain| - 1 && Image(cr, chain[..tip + 1]) == d
    ensures start <= |chain| && Between(cr, d, chain, start, branch)
  {
    ChainHeights(cr, chain);
    hide ChainOk, Ideal, NoncesFit, Image, Heights;
    LastOfImage(cr, chain);
    assert chain[..|chain|] == chain;
  }

  lemma {:induction false} StillExact(cr: Crypto, d: Buckets, chain: seq<Block>, start: nat, branch: seq<Block>,
      lo: nat, hi: nat)
    requires Reorg(cr, d, chain, start, branch) && start <= lo <= hi <= |chain|
    ensures DeleteStored(cr, Image(cr, chain[..hi]), lo, hi) == Image(cr, chain[..lo])
    ensures Between(cr, Image(cr, chain[..lo]), chain, start, branch)
  {
    hide ChainOk, Ideal, NoncesFit, Image, Heights, DeleteStored;
    DeletesTop(cr, chain, lo, hi);
  }

  lemma {:induction false} EmptyImage(cr: Crypto, before: map<nat, Block>)
    ensures EMPTY == Image(cr, []) && Mixed(before, EMPTY.blocks, 0, [])
  {
  }

  /** `d` is `full` with some address rows above height `n` still empty. */
  ghost predicate Partial(d: Buckets, full: Buckets, n: nat) {
    && d.blocks == full.blocks && d.blockHash == full.blockHash && d.txIndex == full.txIndex
    && d.addrTx.Keys == full.addrTx.Keys
    && forall k :: k in d.addrTx ==> d.addrTx[k] == full.addrTx[k] || (d.addrTx[k] == NoRow && k.height >= n)
  }

  lemma {:induction false} PartialLess(d: Buckets, full: Buckets, n: nat)
    requires Partial(d, full, n)
    ensures Partial(d, full, 0)
  {
  }

  lemma {:induction false} PartialFull(cr: Crypto, d: Buckets, chain: seq<Block>)
    requires Partial(d, Image(cr, chain), |chain|) && Exact(cr, Image(cr, chain), chain)
    ensures d == Image(cr, chain)
  {
    hide Image, AllExact, KeysFrom;
    assert d.addrTx == Image(cr, chain).addrTx;
  }

  lemma {:induction false} PartialStep(cr: Crypto, d: Buckets, chain: seq<Block>, j: nat)
    requires Partial(d, Image(cr, chain), j) && j < |chain| && Exact(cr, Image(cr, chain), chain) && Heights(chain)
    ensures Partial(d.(addrTx := d.addrTx + AddrRows(cr, chain[j], |chain[j].txs|)), Image(cr, chain), j + 1)
  {
    hide Image, AddrKeys, Covered;
    var b, full := chain[j], Image(cr, chain);
    assert ExactAt(cr, full, b);
    var at := d.addrTx + AddrRows(cr, b, |b.txs|);
    assert at.Keys == d.addrTx.Keys;
    forall k | k in at ensures at[k] == full.addrTx[k] || (at[k] == NoRow && k.height >= j + 1) {
      if k in AddrKeys(b, |b.txs|) {
        assert at[k] == Row(ItemOf(cr, b, k.idx)) by {
          AddrRowIs(cr, b, k);
        }
      } else {
        assert k in AddrKeys(chain[k.height], |chain[k.height].txs|);
      }
    }
  }

  lemma {:induction false} AddrRowIs(cr: Crypto, b: Block, k: AddrKey)
    requires k in AddrKeys(b, |b.txs|)
    ensures k.idx < |b.txs| && AddrRows(cr, b, |b.txs|)[k] == Row(ItemOf(cr, b, k.idx))
  {
  }

  class BoltStore {
    const cr: Crypto
    var db: Db
    var commits: nat

    constructor (cr: Crypto, db: Db)
      ensures this.cr == cr && this.db == db
    {
      this.cr := cr;
      this.db := db;
      this.commits := 0;
    }

    /** db.Update: all of it or nothing. */
    method Update(d: Db) returns (ok: bool)
      modifies this
      ensures ok == (old(commits) > 0)
      ensures db == if ok then d else old(db)
    {
      ok := commits > 0;
      if ok {
        db, commits := d, commits - 1;
      }
    }

    method TipHeight() returns (have: bool, tip: nat)
      ensures have == (db.buckets.blocks.Keys != {})
      ensures have ==> IsTop(db.buckets.blocks, tip)
    {
      have, tip := LastKey(db.buckets.blocks);
    }

    /** appendBlocks: one transaction, so either the chain grew by all of `bs` or nothing moved. */
    method AppendBlocks(bs: seq<Block>, work: nat, ghost base: seq<Block>, ghost lo: nat) returns (ok: bool)
      modifies this
      ensures !ok ==> db == old(db)
      ensures Mixed(old(db).buckets.blocks, db.buckets.blocks, lo, bs)
      ensures ok && old(db).buckets == Image(cr, base) && Heights(base + bs) && |base| > 0
        ==> db == Db(Image(cr, base + bs), |base + bs| - 1, work)
    {
      hide Image, Heights;
      var d := PutAll(cr, db.buckets, bs, base, lo);
      var next := PutMeta(d, db, work);
      if db.buckets == Image(cr, base) && Heights(base + bs) && |base| > 0 {
        LastOfImage(cr, base + bs);
      }
      ok := Update(next);
    }

    /** One delete batch. */
    method DropBatch(lo: nat, hi: nat) returns (ok: bool)
      requires lo <= hi
      modifies this
      ensures Mixed(old(db).buckets.blocks, db.buckets.blocks, lo, [])
      ensures db.buckets == if ok then DeleteStored(cr, old(db).buckets, lo, hi + 1) else old(db).buckets
    {
      hide *;
      DeletesOnly(cr, db.buckets, lo, hi + 1);
      NothingMixed(db.buckets.blocks, lo);
      var d := DeleteRangeTx(cr, db.buckets, lo, hi);
      ok := Update(db.(buckets := d));
    }

    /** The delete batches of truncateAndAppend: from the top down to `start`. */
    method DropDown(start: nat, tip: nat, have: bool, ghost chain: seq<Block>,
        ghost branch: seq<Block>) returns (ok: bool)
      requires have == (db.buckets.blocks.Keys != {})
      requires have ==> IsTop(db.buckets.blocks, tip)
      modifies this
      ensures Mixed(old(db).buckets.blocks, db.buckets.blocks, start, [])
      ensures Reorg(cr, old(db).buckets, chain, start, branch) ==>
        start <= |chain| && Between(cr, db.buckets, chain, start, branch) && (ok ==> db.buckets == Image(cr, chain[..start]))
    {
      hide Reorg, Image, DeleteStored, ChainOk, Ideal, NoncesFit, Heights, Mixed, Between, IsTop;
      ghost var exact := Reorg(cr, db.buckets, chain, start, branch);
      var hi: int := tip;
      if exact {
        TipOfExact(cr, db.buckets, chain, start, branch, tip);
      }
      NothingMixed(db.buckets.blocks, start);
      ghost var origin := db.buckets;
      while have && hi >= start
        invariant Mixed(origin.blocks, db.buckets.blocks, start, [])
        invariant exact ==> have && start - 1 <= hi < |chain| && db.buckets == Image(cr, chain[..hi + 1])
        invariant exact ==> Between(cr, db.buckets, chain, start, branch)
        decreases hi
      {
        var lo := hi - BATCH + 1;
        if lo < start {
          lo := start;
        }
        if exact {
          StillExact(cr, origin, chain, start, branch, lo, hi + 1);
        }
        ghost var before := db.buckets.blocks;
        var committed := DropBatch(lo, hi);
        MixedLess(before, db.buckets.blocks, lo, start);
        MixedTrans(origin.blocks, before, db.buckets.blocks, start, [], [], []);
        if !committed {
          return false;
        }
        hi := lo - 1;
      }
      ok := true;
    }

    /** One append batch. */
    method PutBatch(bs: seq<Block>, ghost base: seq<Block>, ghost lo: nat) returns (ok: bool)
      modifies this
      ensures Mixed(old(db).buckets.blocks, db.buckets.blocks, lo, bs)
      ensures !ok ==> db == old(db)
      ensures ok && old(db).buckets == Image(cr, base) ==> db.buckets == Image(cr, base + bs)
    {
      hide *;
      SameMixed(db.buckets.blocks, lo, bs);
      var d := PutAll(cr, db.buckets, bs, base, lo);
      ok := Update(db.(buckets := d));
    }

    /** The append batches of truncateAndAppend and rebuild, in height order. */
    method AppendUp(blocks: seq<Block>, ghost base: seq<Block>, ghost lo: nat) returns (ok: bool)
      modifies this
      ensures Mixed(old(db).buckets.blocks, db.buckets.blocks, lo, blocks)
      ensures old(db).buckets == Image(cr, base) ==>
        exists n :: 0 <= n <= |blocks| && db.buckets == Image(cr, base + blocks[..n]) && (ok ==> n == |blocks|)
    {
      hide Image, Mixed;
      ghost var origin := db.buckets;
      SameMixed(origin.blocks, lo, blocks);
      var i := 0;
      assert base + blocks[..0] == base;
      while i < |blocks|
        invariant 0 <= i <= |blocks|
        invariant Mixed(origin.blocks, db.buckets.blocks, lo, blocks)
        invariant origin == Image(cr, base) ==> db.buckets == Image(cr, base + blocks[..i])
      {
        var end := if i + BATCH > |blocks| then |blocks| else i + BATCH;
        ghost var before := db.buckets.blocks;
        var committed := PutBatch(blocks[i..end], base + blocks[..i], lo);
        assert base + blocks[..i] + blocks[i..end] == base + blocks[..end];
        MixedTrans(origin.blocks, before, db.buckets.blocks, lo, blocks, blocks[i..end], blocks);
        if !committed {
          return false;
        }
        i := end;
      }
      ok := true;
    }

    /** The common case of truncateAndAppend: delete, append and stamp in one transaction. */
    method OneTransaction(start: nat, tip: nat, toDelete: nat, branch: seq<Block>, work: nat,
        ghost chain: seq<Block>) returns (ok: bool)
      requires db.buckets.blocks.Keys != {} ==> IsTop(db.buckets.blocks, tip)
      requires toDelete == if db.buckets.blocks.Keys != {} && tip >= start then tip - start + 1 else 0
      modifies this
      ensures Mixed(old(db).buckets.blocks, db.buckets.blocks, start, branch)
      ensures Reorg(cr, old(db).buckets, chain, start, branch) ==> start <= |chain| && Between(cr, db.buckets, chain, start, branch)
      ensures !ok ==> db == old(db)
      ensures Reorg(cr, old(db).buckets, chain, start, branch) && ok ==>
        start <= |chain| && db == Db(Image(cr, chain[..start] + branch), start + |branch| - 1, work)
    {
      hide Reorg, Image, DeleteStored, ChainOk, Ideal, NoncesFit, Heights, Mixed, Between, IsTop;
      var d := db.buckets;
      ghost var origin := d;
      if Reorg(cr, d, chain, start, branch) {
        TipOfExact(cr, d, chain, start, branch, tip);
        StillExact(cr, d, chain, start, branch, start, tip + 1);
      }
      SameMixed(d.blocks, start, branch);
      NothingMixed(d.blocks, start);
      if toDelete > 0 {
        DeletesOnly(cr, d, start, tip + 1);
        d := DeleteRangeTx(cr, d, start, tip);
      }
      ghost var deleted := d.blocks;
      ghost var kept := Kept(chain, start);
      if Reorg(cr, origin, chain, start, branch) {
        Stamp(cr, origin, chain, start, branch);
        assert branch[..|branch|] == branch;
        Appending(cr, Image(cr, kept + branch), chain, start, branch, |branch|);
      }
      d := PutAll(cr, d, branch, kept, start);
      MixedTrans(origin.blocks, deleted, d.blocks, start, [], branch, branch);
      var next := PutMeta(d, db, work);
      ok := Update(next);
    }

    /** A large job of truncateAndAppend: delete batches, append batches, metadata. */
    method Batched(start: nat, tip: nat, have: bool, branch: seq<Block>, work: nat,
        ghost chain: seq<Block>) returns (ok: bool)
      requires have == (db.buckets.blocks.Keys != {})
      requires have ==> IsTop(db.buckets.blocks, tip)
      modifies this
      ensures Mixed(old(db).buckets.blocks, db.buckets.blocks, start, branch)
      ensures Reorg(cr, old(db).buckets, chain, start, branch) ==> start <= |chain| && Between(cr, db.buckets, chain, start, branch)
      ensures Reorg(cr, old(db).buckets, chain, start, branch) && ok ==>
        start <= |chain| && db == Db(Image(cr, chain[..start] + branch), start + |branch| - 1, work)
    {
      hide Reorg, Image, DeleteStored, ChainOk, Ideal, NoncesFit, Heights, Mixed, Between, IsTop;
      ghost var origin := db.buckets;
      ghost var exact := Reorg(cr, origin, chain, start, branch);
      if exact {
        Stamp(cr, origin, chain, start, branch);
      }
      ok := DropDown(start, tip, have, chain, branch);
      ghost var dropped := db.buckets.blocks;
      if !ok {
        NothingMixed(dropped, start);
        MixedTrans(origin.blocks, dropped, dropped, start, [], [], branch);
        return;
      }
      ok := AppendUp(branch, Kept(chain, start), start);
      MixedTrans(origin.blocks, dropped, db.buckets.blocks, start, [], branch, branch);
      if exact {
        var n :| 0 <= n <= |branch| && db.buckets == Image(cr, Kept(chain, start) + branch[..n]) && (ok ==> n == |branch|);
        Appending(cr, db.buckets, chain, start, branch, n);
        assert branch[..|branch|] == branch;
      }
      if !ok {
        return;
      }
      var next := PutMeta(db.buckets, db, work);
      ok := Update(next);
    }

    /** truncateAndAppend. Whatever the store held, it now holds only blocks it held before or
        blocks of the branch. If it held exactly `chain`, then it still holds the exact rows of
        a prefix of `chain` or of the kept blocks and a prefix of the branch; when the call
        succeeds it is the whole branch, with the tip and the work stamped. */
    method TruncateAndAppend(start: nat, branch: seq<Block>, work: nat, ghost chain: seq<Block>) returns (ok: bool)
      modifies this
      ensures Mixed(old(db).buckets.blocks, db.buckets.blocks, start, branch)
      ensures Reorg(cr, old(db).buckets, chain, start, branch) ==> start <= |chain| && Between(cr, db.buckets, chain, start, branch)
      ensures Reorg(cr, old(db).buckets, chain, start, branch) && ok ==>
        start <= |chain| && db == Db(Image(cr, chain[..start] + branch), start + |branch| - 1, work)
    {
      hide *;
      var have, tip := TipHeight();
      var toDelete := if have && tip >= start then tip - start + 1 else 0;
      if toDelete + |branch| <= BATCH {
        ok := OneTransaction(start, tip, toDelete, branch, work, chain);
      } else {
        ok := Batched(start, tip, have, branch, work, chain);
      }
    }

    /** rebuild: clear the buckets, write the whole chain in batches, stamp last. */
    method Rebuild(blocks: seq<Block>, work: nat) returns (ok: bool)
      modifies this
      ensures Mixed(old(db).buckets.blocks, db.buckets.blocks, 0, blocks)
      ensures db == old(db) || exists n :: 0 <= n <= |blocks| && db.buckets == Image(cr, blocks[..n])
      ensures ok && Heights(blocks) && |blocks| > 0 ==> db == Db(Image(cr, blocks), |blocks| - 1, work)
    {
      hide Image, Mixed, IsTop, Heights;
      ghost var origin := db.buckets.blocks;
      SameMixed(origin, 0, blocks);
      EmptyImage(cr, origin);
      ok := Update(db.(buckets := EMPTY));
      if !ok {
        return;
      }
      ok := AppendUp(blocks, [], 0);
      MixedTrans(origin, EMPTY.blocks, db.buckets.blocks, 0, [], blocks, blocks);
      ghost var n :| 0 <= n <= |blocks| && db.buckets == Image(cr, [] + blocks[..n]) && (ok ==> n == |blocks|);
      assert [] + blocks[..n] == blocks[..n] && blocks[..|blocks|] == blocks;
      if !ok {
        return;
      }
      if Heights(blocks) && |blocks| > 0 {
        LastOfImage(cr, blocks);
      }
      var next := PutMeta(db.buckets, db, work);
      ok := Update(next);
    }

    /** backfillRows: an exact store some of whose address rows are still empty. After every
        transaction that still holds; when the call succeeds no row is empty. */
    method BackfillRows(blocks: seq<Block>) returns (ok: bool)
      requires Exact(cr, Image(cr, blocks), blocks) && Heights(blocks)
      requires Partial(db.buckets, Image(cr, blocks), 0)
      modifies this
      ensures Partial(db.buckets, Image(cr, blocks), 0)
      ensures ok ==> db.buckets == Image(cr, blocks)
      ensures db.tip == old(db).tip && db.cumWork == old(db).cumWork
    {
      hide Image, Exact, AddrRows, Heights, Partial;
      var i := 0;
      while i < |blocks|
        invariant 0 <= i <= |blocks|
        invariant Partial(db.buckets, Image(cr, blocks), i)
        invariant db.tip == old(db).tip && db.cumWork == old(db).cumWork
      {
        var end := if i + 500 > |blocks| then |blocks| else i + 500;
        var at, j := db.buckets.addrTx, i;
        ghost var before := db;
        PartialLess(db.buckets, Image(cr, blocks), i);
        assert db.buckets.(addrTx := at) == db.buckets;
        while j < end
          invariant i <= j <= end && db == before
          invariant Partial(db.buckets.(addrTx := at), Image(cr, blocks), j)
        {
          PartialStep(cr, db.buckets.(addrTx := at), blocks, j);
          at := PutAddrRows(cr, at, blocks[j]);
          j := j + 1;
        }
        PartialLess(db.buckets.(addrTx := at), Image(cr, blocks), end);
        ok := Update(db.(buckets := db.buckets.(addrTx := at)));
        if !ok {
          return;
        }
        i := end;
      }
      PartialLess(db.buckets, Image(cr, blocks), i);
      PartialFull(cr, db.buckets, blocks);
      ok := true;
    }
  }
}
