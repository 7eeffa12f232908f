/** Transactions are never repeated: in a valid chain every transaction id and every block hash
    occurs once. The store's index updates rely on it. */
module Identity {
  import opened Types
  import opened Ledger
  import opened Validation
  import opened Conservation
  import Mempool

  /** Below this length no account can have used up the uint64 nonces. */
  ghost predicate NoncesFit(blocks: seq<Block>) {
    MAX_BLOCK_TXS * |blocks| < TWO64
  }

  /** Every body transaction of `txs` used a nonce from `st` on and below the one in `after`. */
  ghost predicate Used(st: State, txs: seq<Tx>, after: State) {
    forall i :: 0 <= i < |txs| ==> UsedAt(st, txs[i], after)
  }

  ghost predicate UsedAt(st: State, t: Tx, after: State) {
    t.IsCoinbase() || Get(st, t.From()).nonce <= t.nonce < Get(after, t.From()).nonce
  }

  ghost predicate Advanced(st: State, after: State, n: nat) {
    forall a :: Get(st, a).nonce <= Get(after, a).nonce <= Get(st, a).nonce + n
  }

  ghost predicate NonceRoom(st: State, n: nat) {
    forall a :: Get(st, a).nonce + n < TWO64
  }

  lemma {:induction false} TxNonces(st: State, mid: State, t: Tx, n: nat)
    requires !t.IsCoinbase() && NonceRoom(st, n + 1) && Advanced(st, mid, n)
    requires t.nonce == Get(mid, t.From()).nonce
    ensures Advanced(mid, ApplyTx(mid, t), 1) && Advanced(st, ApplyTx(mid, t), n + 1)
    ensures UsedAt(st, t, ApplyTx(mid, t))
  {
    var from, next := t.From(), ApplyTx(mid, t);
    assert Get(mid, from).nonce <= Get(st, from).nonce + n;
    assert Get(st, from).nonce + (n + 1) < TWO64;
    assert forall a :: Get(next, a).nonce == Get(mid, a).nonce + if a == from then 1 else 0;
    forall a ensures Get(st, a).nonce <= Get(next, a).nonce <= Get(st, a).nonce + (n + 1) {
      assert Get(st, a).nonce <= Get(mid, a).nonce <= Get(st, a).nonce + n;
    }
  }

  lemma {:induction false} BodyLast(cr: Crypto, prefix: seq<Block>, st: State, txs: seq<Tx>)
    requires BodyOk(cr, prefix, st, txs, 0) && |txs| > 0
    ensures BodyOk(cr, prefix, st, txs[..|txs| - 1], 0)
    ensures !txs[|txs| - 1].IsCoinbase()
    ensures txs[|txs| - 1].nonce == Get(ApplyTxs(st, txs[..|txs| - 1]), txs[|txs| - 1].From()).nonce
  {
  }

  lemma {:induction false} UsedLater(st: State, txs: seq<Tx>, mid: State, after: State, n: nat)
    requires Used(st, txs, mid) && Advanced(mid, after, n)
    ensures Used(st, txs, after)
  {
    forall i | 0 <= i < |txs| ensures UsedAt(st, txs[i], after) {
      assert UsedAt(st, txs[i], mid);
      assert Get(mid, txs[i].From()).nonce <= Get(after, txs[i].From()).nonce;
    }
  }

  lemma {:induction false} UsedStep(st: State, rest: seq<Tx>, mid: State, t: Tx)
    requires NonceRoom(st, |rest| + 1) && Advanced(st, mid, |rest|) && Used(st, rest, mid)
    requires !t.IsCoinbase() && t.nonce == Get(mid, t.From()).nonce
    ensures Advanced(st, ApplyTx(mid, t), |rest| + 1)
    ensures Used(st, rest + [t], ApplyTx(mid, t))
  {
    hide ApplyTx, UsedAt;
    TxNonces(st, mid, t, |rest|);
    UsedLater(st, rest, mid, ApplyTx(mid, t), 1);
  }

  lemma {:induction false} LessRoom(st: State, n: nat, m: nat)
    requires NonceRoom(st, n) && m <= n
    ensures NonceRoom(st, m)
  {
    forall a ensures Get(st, a).nonce + m < TWO64 {
      assert Get(st, a).nonce + n < TWO64;
    }
  }

  lemma {:induction false} BodyNonces(cr: Crypto, prefix: seq<Block>, st: State, txs: seq<Tx>)
    requires BodyOk(cr, prefix, st, txs, 0) && NonceRoom(st, |txs|)
    ensures Advanced(st, ApplyTxs(st, txs), |txs|)
    ensures Used(st, txs, ApplyTxs(st, txs))
  {
    if |txs| > 0 {
      hide BodyOk, Advanced, Used, NonceRoom;
      var rest, t := txs[..|txs| - 1], txs[|txs| - 1];
      BodyLast(cr, prefix, st, txs);
      LessRoom(st, |txs|, |rest|);
      BodyNonces(cr, prefix, st, rest);
      UsedStep(st, rest, ApplyTxs(st, rest), t);
      assert txs == rest + [t];
    }
  }

  lemma {:induction false} RicherNonces(plain: State, after: State, m: Text, c: u64)
    requires Richer(after, plain, m, c)
    ensures Advanced(plain, after, 0)
  {
    forall a ensures Get(plain, a).nonce <= Get(after, a).nonce <= Get(plain, a).nonce + 0 {
      assert Get(after, a).nonce == Get(plain, a).nonce;
    }
  }

  lemma {:induction false} AdvancedBoth(st: State, plain: State, after: State, n: nat, m: nat)
    requires Advanced(st, plain, n) && Advanced(plain, after, 0) && n <= m
    ensures Advanced(st, after, m)
  {
    forall a ensures Get(st, a).nonce <= Get(after, a).nonce <= Get(st, a).nonce + m {
      assert Get(plain, a).nonce <= Get(after, a).nonce <= Get(plain, a).nonce + 0;
    }
  }

  lemma {:induction false} BlockShape(cr: Crypto, prefix: seq<Block>, b: Block)
    requires |prefix| > 0 && CoreOk(cr, prefix, b)
    ensures 1 <= |b.txs| <= MAX_BLOCK_TXS && b.txs[0].IsCoinbase() && b.txs[0].nonce == |prefix|
    ensures BodyOk(cr, prefix, StateOf(prefix), b.txs[1..], 0)
  {
    hide StateOf, BodyOk, PowOk;
  }

  /** Block `b`'s effect on nonces, with the coinbase applied first as the node does. */
  lemma {:induction false} BlockNonces(cr: Crypto, prefix: seq<Block>, b: Block)
    requires |prefix| > 0 && ChainOk(cr, prefix) && CoreOk(cr, prefix, b) && NonceRoom(StateOf(prefix), MAX_BLOCK_TXS)
    ensures Advanced(StateOf(prefix), ApplyTxs(StateOf(prefix), b.txs), MAX_BLOCK_TXS)
    ensures Used(StateOf(prefix), b.txs, ApplyTxs(StateOf(prefix), b.txs))
  {
    hide *;
    BlockShape(cr, prefix, b);
    ChainConserves(cr, prefix);
    BlockEffect(cr, prefix, b);
    var st, body := StateOf(prefix), b.txs[1..];
    var after, plain := ApplyTxs(st, b.txs), ApplyTxs(st, body);
    LessRoom(st, MAX_BLOCK_TXS, |body|);
    BodyNonces(cr, prefix, st, body);
    RicherNonces(plain, after, b.txs[0].to, b.txs[0].amount);
    AdvancedBoth(st, plain, after, |body|, MAX_BLOCK_TXS);
    UsedLater(st, body, plain, after, 0);
    UsedCoinbase(st, b.txs[0], body, after);
    assert b.txs == [b.txs[0]] + body;
  }

  lemma {:induction false} UsedCoinbase(st: State, cb: Tx, body: seq<Tx>, after: State)
    requires cb.IsCoinbase() && Used(st, body, after)
    ensures Used(st, [cb] + body, after)
  {
    forall i | 0 <= i < |[cb] + body| ensures UsedAt(st, ([cb] + body)[i], after) {
      if i > 0 {
        assert UsedAt(st, body[i - 1], after);
      }
    }
  }

  /** All transactions of the first `n` blocks have nonces below the account's next one. */
  lemma {:induction false} NoncesSpent(cr: Crypto, blocks: seq<Block>)
    requires ChainOk(cr, blocks) && NoncesFit(blocks)
    ensures forall a :: Get(StateOf(blocks), a).nonce <= MAX_BLOCK_TXS * (|blocks| - 1)
    ensures forall h, i :: 0 <= h < |blocks| && 0 <= i < |blocks[h].txs| ==> UsedAt(map[], blocks[h].txs[i], StateOf(blocks))
    decreases |blocks|
  {
    var n := |blocks| - 1;
    if n == 0 {
      GenesisLedger(cr, blocks);
      assert forall a :: Get(StateOf(blocks), a) == Get(map[], a);
    } else {
      var prefix, b := blocks[..n], blocks[n];
      var before, after := StateOf(prefix), StateOf(blocks);
      assert ChainOk(cr, prefix) && CoreOk(cr, prefix, b) by {
        ChainOkPrefix(cr, blocks, n);
        assert CoreAt(cr, blocks, n);
      }
      assert after == ApplyTxs(before, b.txs);
      hide CoreOk, ChainOk, StateOf, ApplyTxs;
      NoncesSpent(cr, prefix);
      BlockNonces(cr, prefix, b);
      SpentGrows(blocks, n, before, after);
    }
  }

  /** One more block: earlier transactions stay below the nonces, which grow by its length. */
  lemma {:induction false} SpentGrows(blocks: seq<Block>, n: nat, before: State, after: State)
    requires |blocks| == n + 1 && n > 0
    requires forall a :: Get(before, a).nonce <= MAX_BLOCK_TXS * (n - 1)
    requires forall h, i :: 0 <= h < n && 0 <= i < |blocks[..n][h].txs| ==> UsedAt(map[], blocks[..n][h].txs[i], before)
    requires Used(before, blocks[n].txs, after) && Advanced(before, after, MAX_BLOCK_TXS)
    ensures forall a :: Get(after, a).nonce <= MAX_BLOCK_TXS * n
    ensures forall h, i :: 0 <= h < |blocks| && 0 <= i < |blocks[h].txs| ==> UsedAt(map[], blocks[h].txs[i], after)
  {
    hide Get;
    forall a ensures Get(after, a).nonce <= MAX_BLOCK_TXS * n {
      assert Get(before, a).nonce <= MAX_BLOCK_TXS * (n - 1);
    }
    forall h, i | 0 <= h < |blocks| && 0 <= i < |blocks[h].txs|
      ensures UsedAt(map[], blocks[h].txs[i], after)
    {
      var t := blocks[h].txs[i];
      NothingUsed(t.From());
      if h < n {
        assert t == blocks[..n][h].txs[i] && UsedAt(map[], blocks[..n][h].txs[i], before);
        assert Get(before, t.From()).nonce <= Get(after, t.From()).nonce;
      } else {
        assert UsedAt(before, blocks[n].txs[i], after);
      }
    }
  }

  lemma {:induction false} NothingUsed(a: Text)
    ensures Get(map[], a).nonce == 0
  {
  }

  /** No transaction of a valid next block, coinbase included, is already in the chain. */
  lemma {:induction false} NextIsFresh(cr: Crypto, blocks: seq<Block>, b: Block, h: nat, i: nat, j: nat)
    requires Ideal(cr) && ChainOk(cr, blocks) && CoreOk(cr, blocks, b) && NoncesFit(blocks + [b])
    requires h < |blocks| && i < |blocks[h].txs| && j < |b.txs|
    ensures cr.txId(blocks[h].txs[i]) != cr.txId(b.txs[j])
  {
    var past, t := blocks[h].txs[i], b.txs[j];
    NoncesSpent(cr, blocks);
    assert UsedAt(map[], past, StateOf(blocks));
    assert CoinbaseFirstOnly(cr, blocks, h, i) by {
      CoinbasePosition(cr, blocks, h, i);
    }
    if j == 0 {
      if past.IsCoinbase() {
        assert past.nonce == h && t.nonce == |blocks|;
      }
    } else {
      assert !t.IsCoinbase() by {
        BodyMember(cr, blocks, StateOf(blocks), b.txs[1..], j - 1);
      }
      BlockNonces(cr, blocks, b) by {
        assert forall a :: Get(StateOf(blocks), a).nonce <= MAX_BLOCK_TXS * (|blocks| - 1);
      }
      assert UsedAt(StateOf(blocks), b.txs[j], ApplyTxs(StateOf(blocks), b.txs));
    }
  }

  lemma {:induction false} BodyMember(cr: Crypto, prefix: seq<Block>, st: State, txs: seq<Tx>, j: nat)
    requires BodyOk(cr, prefix, st, txs, 0) && j < |txs|
    ensures !txs[j].IsCoinbase() && txs[j].sender.Key? && ValidAddr(txs[j].to)
    ensures NewId(cr, txs[..j], txs[j])
    decreases |txs|
  {
    if j < |txs| - 1 {
      BodyMember(cr, prefix, st, txs[..|txs| - 1], j);
      assert txs[..|txs| - 1][..j] == txs[..j];
    }
  }

  /** Only the first transaction of a block is a coinbase, and its nonce is the height. */
  ghost predicate CoinbaseFirstOnly(cr: Crypto, blocks: seq<Block>, h: nat, i: nat)
    requires h < |blocks| && i < |blocks[h].txs|
  {
    blocks[h].txs[i].IsCoinbase() <==> (i == 0 && blocks[h].txs[i].nonce == h)
  }

  lemma {:induction false} CoinbasePosition(cr: Crypto, blocks: seq<Block>, h: nat, i: nat)
    requires ChainOk(cr, blocks) && h < |blocks| && i < |blocks[h].txs|
    ensures CoinbaseFirstOnly(cr, blocks, h, i)
  {
    if h > 0 {
      assert CoreAt(cr, blocks, h);
      if i > 0 {
        BodyMember(cr, blocks[..h], StateOf(blocks[..h]), blocks[h].txs[1..], i - 1);
      }
    }
  }

  lemma {:induction false} BlockIdsDistinct(cr: Crypto, blocks: seq<Block>, h: nat, i: nat, j: nat)
    requires Ideal(cr) && ChainOk(cr, blocks) && h < |blocks| && i < j < |blocks[h].txs|
    ensures cr.txId(blocks[h].txs[i]) != cr.txId(blocks[h].txs[j])
  {
    assert h > 0;
    assert CoreAt(cr, blocks, h);
    var body := blocks[h].txs[1..];
    BlockShape(cr, blocks[..h], blocks[h]);
    hide ChainOk, CoreOk, BodyOk;
    BodyMember(cr, blocks[..h], StateOf(blocks[..h]), body, j - 1);
    if i > 0 {
      assert body[i - 1] == body[..j - 1][i - 1];
    } else {
      CoinbasePosition(cr, blocks, h, 0);
      CoinbasePosition(cr, blocks, h, j);
    }
  }

  /** Transaction ids are unique across a valid chain. */
  lemma {:induction false} IdsUnique(cr: Crypto, blocks: seq<Block>, h: nat, i: nat, h': nat, i': nat)
    requires Ideal(cr) && ChainOk(cr, blocks) && NoncesFit(blocks)
    requires h <= h' < |blocks| && i < |blocks[h].txs| && i' < |blocks[h'].txs|
    requires cr.txId(blocks[h].txs[i]) == cr.txId(blocks[h'].txs[i'])
    ensures h == h' && i == i'
  {
    if h < h' {
      var prefix := blocks[..h'];
      ChainOkPrefix(cr, blocks, h');
      assert CoreAt(cr, blocks, h');
      hide CoreOk, ChainOk;
      NextIsFresh(cr, prefix, blocks[h'], h, i, i');
    } else if i < i' {
      BlockIdsDistinct(cr, blocks, h, i, i');
    } else if i' < i {
      BlockIdsDistinct(cr, blocks, h, i', i);
    }
  }

  /** So are block hashes, because a header contains its height. */
  lemma {:induction false} HashesUnique(cr: Crypto, blocks: seq<Block>, h: nat, h': nat)
    requires Ideal(cr) && ChainOk(cr, blocks) && h < |blocks| && h' < |blocks|
    requires Hash(cr, blocks[h]) == Hash(cr, blocks[h'])
    ensures h == h'
  {
    ChainSealed(cr, blocks, h);
    ChainSealed(cr, blocks, h');
  }

  /** A pooled transaction is never one that the chain already contains. */
  lemma {:induction false} PooledUnconfirmed(cr: Crypto, blocks: seq<Block>, mp: Mempool.TxMap, qs: Mempool.Queues,
      st: State, h: nat, i: nat)
    requires Ideal(cr) && ChainOk(cr, blocks) && NoncesFit(blocks) && Same(st, StateOf(blocks))
    requires Mempool.PoolOk(cr, mp, qs) && Mempool.NoStale(mp, st)
    requires h < |blocks| && i < |blocks[h].txs|
    ensures cr.txId(blocks[h].txs[i]) !in mp
  {
    hide ChainOk, StateOf, NoncesFit, Mempool.QueueOk;
    NoncesSpent(cr, blocks);
    var t := blocks[h].txs[i];
    assert UsedAt(map[], t, StateOf(blocks));
    assert cr.txId(t) in mp ==> Mempool.Pooled(cr, mp, qs, cr.txId(t));
  }
}
