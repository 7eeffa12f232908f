/** The block store (core/bbolt_store.go): a block and its index rows are written and deleted
    together, and a reorg is persisted in transactions each of which leaves a usable chain. */
module Store {
  import opened Types
  import opened Validation
  import opened Identity

  // -------------------------------------------------------------------- rows

  const COINBASE_FROM: Text := [99, 111, 105, 110, 98, 97, 115, 101] // "coinbase"

  /** A wallet-facing history row. */
  datatype HistoryItem = HistoryItem(txId: nat, height: u64, time: u64, from: Text, to: Text, amount: u64, fee: u64)

  datatype Loc = Loc(height: nat, idx: nat)

  datatype AddrKey = AddrKey(addr: Text, height: nat, idx: nat)

  /** The value under an address key: nothing (schema 1) or a materialised row (schema 2). */
  datatype Cell = NoRow | Row(item: HistoryItem)

  function SenderName(t: Tx): Text {
    if t.IsCoinbase() then COINBASE_FROM else t.From()
  }

  function ItemOf(cr: Crypto, b: Block, i: nat): HistoryItem
    requires i < |b.txs|
  {
    var t := b.txs[i];
    HistoryItem(cr.txId(t), b.hd.height, b.hd.time, SenderName(t), t.to, t.amount, t.fee)
  }

  /** The addresses a transaction is indexed under. */
  function Touched(t: Tx): set<Text> {
    match t.sender
    case NoSender => {t.to}
    case BadKey => {}
    case Key(from) => {from, t.to}
  }

  function TxKeys(cr: Crypto, b: Block, n: nat): set<nat>
    requires n <= |b.txs|
  {
    set i | 0 <= i < n :: cr.txId(b.txs[i])
  }

  function AddrKeys(b: Block, n: nat): set<AddrKey>
    requires n <= |b.txs|
  {
    set i, a | 0 <= i < n && a in Touched(b.txs[i]) :: AddrKey(a, b.hd.height, i)
  }

  function TxRows(cr: Crypto, b: Block, n: nat): (m: map<nat, Loc>)
    requires n <= |b.txs|
    ensures m.Keys == TxKeys(cr, b, n)
  {
    if n == 0 then map[] else TxRows(cr, b, n - 1)[cr.txId(b.txs[n - 1]) := Loc(b.hd.height, n - 1)]
  }

  function AddrRows(cr: Crypto, b: Block, n: nat): (m: map<AddrKey, Cell>)
    requires n <= |b.txs|
    ensures m.Keys == AddrKeys(b, n)
  {
    map k | k in AddrKeys(b, n) :: Row(ItemOf(cr, b, k.idx))
  }

  // ----------------------------------------------------------------- buckets

  /** The four buckets that image the chain, and the metadata beside them. */
  datatype Buckets = Buckets(blocks: map<nat, Block>, blockHash: map<nat, nat>, txIndex: map<nat, Loc>, addrTx: map<AddrKey, Cell>)

  datatype Db = Db(buckets: Buckets, tip: int, cumWork: nat)

  const EMPTY := Buckets(map[], map[], map[], map[])

  function Put(cr: Crypto, d: Buckets, b: Block): Buckets {
    Buckets(d.blocks[b.hd.height := b], d.blockHash[Hash(cr, b) := b.hd.height],
            d.txIndex + TxRows(cr, b, |b.txs|), d.addrTx + AddrRows(cr, b, |b.txs|))
  }

  function Delete(cr: Crypto, d: Buckets, b: Block): Buckets {
    Buckets(d.blocks - {b.hd.height}, d.blockHash - {Hash(cr, b)},
            d.txIndex - TxKeys(cr, b, |b.txs|), d.addrTx - AddrKeys(b, |b.txs|))
  }

  /** What writing a whole chain into empty buckets produces. */
  function Image(cr: Crypto, chain: seq<Block>): Buckets {
    if |chain| == 0 then EMPTY else Put(cr, Image(cr, chain[..|chain| - 1]), chain[|chain| - 1])
  }

  lemma {:induction false} ImageStep(cr: Crypto, chain: seq<Block>, b: Block)
    ensures Image(cr, chain + [b]) == Put(cr, Image(cr, chain), b)
  {
    assert (chain + [b])[..|chain|] == chain;
  }

  /** Every row of an image comes from one of its blocks. */
  ghost predicate Covered(cr: Crypto, d: Buckets, chain: seq<Block>) {
    && (forall h :: h in d.blocks <==> 0 <= h < |chain|)
    && (forall h :: 0 <= h < |chain| ==> d.blocks[h] == chain[h])
    && (forall k :: k in d.blockHash ==> exists h :: 0 <= h < |chain| && Hash(cr, chain[h]) == k)
    && (forall k :: k in d.txIndex ==> InChain(cr, chain, k))
    && (forall k :: k in d.addrTx ==> k.height < |chain|)
  }

  ghost predicate InChain(cr: Crypto, chain: seq<Block>, id: nat) {
    exists h, i :: 0 <= h < |chain| && 0 <= i < |chain[h].txs| && cr.txId(chain[h].txs[i]) == id
  }

  ghost predicate Heights(chain: seq<Block>) {
    forall h :: 0 <= h < |chain| ==> chain[h].hd.height == h
  }

  lemma {:induction false} ChainHeights(cr: Crypto, chain: seq<Block>)
    requires ChainOk(cr, chain)
    ensures Heights(chain)
  {
    forall h | 0 <= h < |chain| ensures chain[h].hd.height == h {
      ChainSealed(cr, chain, h);
    }
  }

  lemma {:induction false} InChainLonger(cr: Crypto, chain: seq<Block>, n: nat, id: nat)
    requires n <= |chain| && InChain(cr, chain[..n], id)
    ensures InChain(cr, chain, id)
  {
    var h, i :| 0 <= h < n && 0 <= i < |chain[..n][h].txs| && cr.txId(chain[..n][h].txs[i]) == id;
    assert chain[h] == chain[..n][h];
  }

  lemma {:induction false} ImageCovered(cr: Crypto, chain: seq<Block>)
    requires Heights(chain)
    ensures Covered(cr, Image(cr, chain), chain)
  {
    if |chain| > 0 {
      var n := |chain| - 1;
      var c, b := chain[..n], chain[n];
      assert Heights(c) && b.hd.height == n;
      ImageCovered(cr, c);
      assert Image(cr, chain) == Put(cr, Image(cr, c), b);
      hide Image, Heights;
      PutCovered(cr, Image(cr, c), c, b);
      assert c + [b] == chain;
    }
  }

  lemma {:induction false} PutCovered(cr: Crypto, e: Buckets, c: seq<Block>, b: Block)
    requires Covered(cr, e, c) && b.hd.height == |c|
    ensures Covered(cr, Put(cr, e, b), c + [b])
  {
    hide TxRows, AddrRows, Touched, Hash;
    var n, chain, d := |c|, c + [b], Put(cr, e, b);
    forall k | k in d.blockHash ensures exists h :: 0 <= h < |chain| && Hash(cr, chain[h]) == k {
      if k in e.blockHash {
        var h :| 0 <= h < n && Hash(cr, c[h]) == k;
        assert Hash(cr, chain[h]) == k;
      } else {
        assert Hash(cr, chain[n]) == k;
      }
    }
    forall k | k in d.txIndex ensures InChain(cr, chain, k) {
      if k in e.txIndex {
        assert chain[..n] == c;
        InChainLonger(cr, chain, n, k);
      } else {
        var i :| 0 <= i < |b.txs| && cr.txId(b.txs[i]) == k;
        assert cr.txId(chain[n].txs[i]) == k;
      }
    }
  }

  // ------------------------------------------- deletion is the inverse of writing

  /** Block `b` shares no key with the buckets. */
  ghost predicate Fresh(cr: Crypto, d: Buckets, b: Block) {
    && b.hd.height !in d.blocks && Hash(cr, b) !in d.blockHash
    && d.txIndex.Keys !! TxKeys(cr, b, |b.txs|)
    && d.addrTx.Keys !! AddrKeys(b, |b.txs|)
  }

  lemma {:induction false} DeleteInvertsPut(cr: Crypto, d: Buckets, b: Block)
    requires Fresh(cr, d, b)
    ensures Delete(cr, Put(cr, d, b), b) == d
  {
    hide TxRows, AddrRows, TxKeys, AddrKeys;
    var r := Delete(cr, Put(cr, d, b), b);
    assert r.blocks == d.blocks;
    assert r.blockHash == d.blockHash;
    MergeRemove(d.txIndex, TxRows(cr, b, |b.txs|));
    MergeRemove(d.addrTx, AddrRows(cr, b, |b.txs|));
  }

  lemma {:induction false} MergeRemove<K, V>(m: map<K, V>, r: map<K, V>)
    requires m.Keys !! r.Keys
    ensures m + r - r.Keys == m
  {
    assert (m + r - r.Keys).Keys == m.Keys;
  }

  lemma {:induction false} FreshHash(cr: Crypto, chain: seq<Block>, n: nat)
    requires Ideal(cr) && ChainOk(cr, chain) && n < |chain|
    ensures forall h :: 0 <= h < n ==> Hash(cr, chain[h]) != Hash(cr, chain[n])
  {
    hide ChainOk, Ideal, Hash;
    forall h: nat | h < n ensures Hash(cr, chain[h]) != Hash(cr, chain[n]) {
      if Hash(cr, chain[h]) == Hash(cr, chain[n]) {
        HashesUnique(cr, chain, h, n);
      }
    }
  }

  lemma {:induction false} FreshIds(cr: Crypto, chain: seq<Block>, n: nat, k: nat)
    requires Ideal(cr) && ChainOk(cr, chain) && NoncesFit(chain) && n < |chain|
    requires k in TxKeys(cr, chain[n], |chain[n].txs|)
    ensures !InChain(cr, chain[..n], k)
  {
    hide ChainOk, Ideal, NoncesFit;
    var c := chain[..n];
    var j: nat :| j < |chain[n].txs| && cr.txId(chain[n].txs[j]) == k;
    forall h: nat, i: nat | h < |c| && i < |c[h].txs| ensures cr.txId(c[h].txs[i]) != k {
      assert c[h] == chain[h];
      if cr.txId(chain[h].txs[i]) == k {
        IdsUnique(cr, chain, h, i, n, j);
      }
    }
  }

  /** In a valid chain the tip shares no key with the image of the blocks before it. */
  lemma {:induction false} TipFresh(cr: Crypto, chain: seq<Block>, n: nat)
    requires Ideal(cr) && ChainOk(cr, chain) && NoncesFit(chain) && n < |chain|
    ensures Fresh(cr, Image(cr, chain[..n]), chain[n])
  {
    var c, b := chain[..n], chain[n];
    ChainHeights(cr, chain);
    assert Heights(c);
    ImageCovered(cr, c);
    var d := Image(cr, c);
    FreshHash(cr, chain, n);
    assert b.hd.height == n;
    hide Image, ChainOk, Ideal, TxRows, AddrRows, TxKeys, Heights, InChain, NoncesFit, Hash;
    forall k | k in TxKeys(cr, b, |b.txs|) ensures k !in d.txIndex {
      FreshIds(cr, chain, n, k);
    }
  }

  /** deleteRangeTx on buckets: blocks lo .. hi-1 of `chain`, in ascending order. */
  function DeleteRange(cr: Crypto, d: Buckets, chain: seq<Block>, lo: nat, hi: nat): Buckets
    requires lo <= hi <= |chain|
    decreases hi
  {
    if lo == hi then d else Delete(cr, DeleteRange(cr, d, chain, lo, hi - 1), chain[hi - 1])
  }

  lemma {:induction false} DeleteCommutes(cr: Crypto, d: Buckets, a: Block, b: Block)
    ensures Delete(cr, Delete(cr, d, a), b) == Delete(cr, Delete(cr, d, b), a)
  {
    hide TxKeys, AddrKeys;
  }

  lemma {:induction false} DeleteThrough(cr: Crypto, d: Buckets, chain: seq<Block>, lo: nat, hi: nat, b: Block)
    requires lo <= hi <= |chain|
    ensures Delete(cr, DeleteRange(cr, d, chain, lo, hi), b) == DeleteRange(cr, Delete(cr, d, b), chain, lo, hi)
    decreases hi
  {
    hide Delete;
    if lo < hi {
      DeleteThrough(cr, d, chain, lo, hi - 1, b);
      DeleteCommutes(cr, DeleteRange(cr, d, chain, lo, hi - 1), chain[hi - 1], b);
    }
  }

  /** Deleting the top of a valid chain, lowest block first, leaves exactly the rows of the rest. */
  lemma {:induction false} TruncateImage(cr: Crypto, chain: seq<Block>, lo: nat, hi: nat)
    requires Ideal(cr) && ChainOk(cr, chain) && NoncesFit(chain) && lo <= hi <= |chain|
    ensures DeleteRange(cr, Image(cr, chain[..hi]), chain, lo, hi) == Image(cr, chain[..lo])
    decreases hi
  {
    hide ChainOk, Ideal, NoncesFit, Image, Delete, Put, Fresh;
    if lo < hi {
      var b, d := chain[hi - 1], Image(cr, chain[..hi - 1]);
      TipDeleted(cr, chain, hi - 1);
      TruncateImage(cr, chain, lo, hi - 1);
      DeleteThrough(cr, Image(cr, chain[..hi]), chain, lo, hi - 1, b);
      assert DeleteRange(cr, Image(cr, chain[..hi]), chain, lo, hi)
        == Delete(cr, DeleteRange(cr, Image(cr, chain[..hi]), chain, lo, hi - 1), b);
    }
  }

  lemma {:induction false} TipDeleted(cr: Crypto, chain: seq<Block>, n: nat)
    requires Ideal(cr) && ChainOk(cr, chain) && NoncesFit(chain) && n < |chain|
    ensures Delete(cr, Image(cr, chain[..n + 1]), chain[n]) == Image(cr, chain[..n])
  {
    TipFresh(cr, chain, n);
    hide ChainOk, Ideal, NoncesFit, Image, Delete, Put, Fresh;
    assert chain[..n + 1] == chain[..n] + [chain[n]];
    ImageStep(cr, chain[..n], chain[n]);
    DeleteInvertsPut(cr, Image(cr, chain[..n]), chain[n]);
  }

  // ------------------------------------------------- the image, row by row

  /** The buckets hold exactly the rows of `chain`: every block, hash, transaction and address
      row is there under its key, and no other key is. */
  ghost predicate Exact(cr: Crypto, d: Buckets, chain: seq<Block>) {
    Covered(cr, d, chain) && AllExact(cr, d, chain) && KeysFrom(d.addrTx, chain)
  }

  ghost predicate AllExact(cr: Crypto, d: Buckets, chain: seq<Block>) {
    forall h :: 0 <= h < |chain| ==> ExactAt(cr, d, chain[h])
  }

  ghost predicate KeysFrom(rows: map<AddrKey, Cell>, chain: seq<Block>) {
    forall k :: k in rows ==> k.height < |chain| && k in AddrKeys(chain[k.height], |chain[k.height].txs|)
  }

  ghost predicate ExactAt(cr: Crypto, d: Buckets, b: Block) {
    && Hash(cr, b) in d.blockHash && d.blockHash[Hash(cr, b)] == b.hd.height
    && (forall i :: 0 <= i < |b.txs| ==> TxRowAt(cr, d, b, i))
    && (forall k :: k in AddrKeys(b, |b.txs|) ==> k in d.addrTx && d.addrTx[k] == Row(ItemOf(cr, b, k.idx)))
  }

  ghost predicate TxRowAt(cr: Crypto, d: Buckets, b: Block, i: nat)
    requires i < |b.txs|
  {
    cr.txId(b.txs[i]) in d.txIndex && d.txIndex[cr.txId(b.txs[i])] == Loc(b.hd.height, i)
  }

  lemma {:induction false} TxRowsAt(cr: Crypto, b: Block, n: nat, i: nat)
    requires i < n <= |b.txs|
    requires forall x, y :: 0 <= x < y < |b.txs| ==> cr.txId(b.txs[x]) != cr.txId(b.txs[y])
    ensures cr.txId(b.txs[i]) in TxRows(cr, b, n) && TxRows(cr, b, n)[cr.txId(b.txs[i])] == Loc(b.hd.height, i)
    decreases n
  {
    var id, id' := cr.txId(b.txs[i]), cr.txId(b.txs[n - 1]);
    var rows := TxRows(cr, b, n - 1);
    assert TxRows(cr, b, n) == rows[id' := Loc(b.hd.height, n - 1)];
    hide TxRows, TxKeys;
    if i < n - 1 {
      TxRowsAt(cr, b, n - 1, i);
      assert id != id';
    }
  }

  lemma {:induction false} OwnIds(cr: Crypto, chain: seq<Block>, n: nat)
    requires Ideal(cr) && ChainOk(cr, chain) && NoncesFit(chain) && n < |chain|
    ensures forall x, y :: 0 <= x < y < |chain[n].txs| ==> cr.txId(chain[n].txs[x]) != cr.txId(chain[n].txs[y])
  {
    hide ChainOk, Ideal, NoncesFit;
    forall x: nat, y: nat | x < y < |chain[n].txs| ensures cr.txId(chain[n].txs[x]) != cr.txId(chain[n].txs[y]) {
      if cr.txId(chain[n].txs[x]) == cr.txId(chain[n].txs[y]) {
        IdsUnique(cr, chain, n, x, n, y);
      }
    }
  }

  lemma {:induction false} PutExactAt(cr: Crypto, d: Buckets, b: Block)
    requires forall x, y :: 0 <= x < y < |b.txs| ==> cr.txId(b.txs[x]) != cr.txId(b.txs[y])
    ensures ExactAt(cr, Put(cr, d, b), b)
  {
    forall i: nat | i < |b.txs| ensures TxRowAt(cr, Put(cr, d, b), b, i) {
      TxRowsAt(cr, b, |b.txs|, i);
    }
    hide TxRows, Touched;
  }

  lemma {:induction false} PutKeepsExactAt(cr: Crypto, d: Buckets, b: Block, x: Block)
    requires Fresh(cr, d, b) && ExactAt(cr, d, x)
    ensures ExactAt(cr, Put(cr, d, b), x)
  {
    hide TxRows, AddrRows, AddrKeys, TxKeys, Hash;
    var d' := Put(cr, d, b);
    forall i: nat | i < |x.txs| ensures TxRowAt(cr, d', x, i) {
      assert TxRowAt(cr, d, x, i);
    }
  }

  lemma {:induction false} PutExact(cr: Crypto, d: Buckets, c: seq<Block>, b: Block)
    requires AllExact(cr, d, c) && Fresh(cr, d, b)
    requires forall x, y :: 0 <= x < y < |b.txs| ==> cr.txId(b.txs[x]) != cr.txId(b.txs[y])
    ensures AllExact(cr, Put(cr, d, b), c + [b])
  {
    hide Put, Fresh, ExactAt;
    PutExactAt(cr, d, b);
    forall h: nat | h < |c| + 1 ensures ExactAt(cr, Put(cr, d, b), (c + [b])[h]) {
      if h < |c| {
        PutKeepsExactAt(cr, d, b, c[h]);
      }
    }
  }

  /** The image of a valid chain is exact, row by row. */
  lemma {:induction false} ImageExact(cr: Crypto, chain: seq<Block>, n: nat)
    requires Ideal(cr) && ChainOk(cr, chain) && NoncesFit(chain) && n <= |chain|
    ensures Exact(cr, Image(cr, chain[..n]), chain[..n])
  {
    hide ChainOk, Ideal, NoncesFit, Image, Put, Fresh, Covered, AllExact, KeysFrom, Heights, Sealed, ExactAt;
    hide AddrKeys, TxKeys, TxRows, AddrRows, Hash;
    PrefixCovered(cr, chain, n);
    if n > 0 {
      var c, b := chain[..n - 1], chain[n - 1];
      ImageExact(cr, chain, n - 1);
      TipFresh(cr, chain, n - 1);
      OwnIds(cr, chain, n - 1);
      assert chain[..n] == c + [b];
      ImageStep(cr, c, b);
      PutExact(cr, Image(cr, c), c, b);
      ChainSealed(cr, chain, n - 1);
      AddressKeys(cr, Image(cr, c), c, b);
    } else {
      NoRows(cr, chain[..0]);
    }
  }

  lemma {:induction false} NoRows(cr: Crypto, chain: seq<Block>)
    requires |chain| == 0
    ensures AllExact(cr, Image(cr, chain), chain) && KeysFrom(Image(cr, chain).addrTx, chain)
  {
  }

  lemma {:induction false} PrefixCovered(cr: Crypto, chain: seq<Block>, n: nat)
    requires ChainOk(cr, chain) && n <= |chain|
    ensures Covered(cr, Image(cr, chain[..n]), chain[..n])
  {
    ChainHeights(cr, chain);
    hide ChainOk, Image, Covered;
    ImageCovered(cr, chain[..n]);
  }

  lemma {:induction false} AddressKeys(cr: Crypto, d: Buckets, c: seq<Block>, b: Block)
    requires b.hd.height == |c| && KeysFrom(d.addrTx, c)
    ensures KeysFrom(Put(cr, d, b).addrTx, c + [b])
  {
    hide TxRows, Touched;
  }
}
