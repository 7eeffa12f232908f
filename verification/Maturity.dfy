/** Coinbase maturity: from one maturity window after MATURITY_HEIGHT on, every account still
    holds all of its immature coinbases, so `Spendable` never clamps. */
module Maturity {
  import opened Types
  import opened Ledger
  import opened Validation
  import opened Conservation

  /** The mathematical sum of the coinbases paid to `a` at heights lo .. hi-1. */
  ghost function Rewards(blocks: seq<Block>, lo: nat, hi: nat, a: Text): nat
    requires hi <= |blocks|
    decreases hi
  {
    if lo >= hi then 0 else Rewards(blocks, lo, hi - 1, a) + CoinbaseTo(blocks[hi - 1], a)
  }

  lemma {:induction false} RewardsShared(xs: seq<Block>, ys: seq<Block>, lo: nat, hi: nat, a: Text)
    requires hi <= |xs| && hi <= |ys| && xs[..hi] == ys[..hi]
    ensures Rewards(xs, lo, hi, a) == Rewards(ys, lo, hi, a)
    decreases hi
  {
    if lo < hi {
      assert xs[hi - 1] == xs[..hi][hi - 1] == ys[hi - 1];
      assert xs[..hi - 1] == xs[..hi][..hi - 1] == ys[..hi - 1];
      RewardsShared(xs, ys, lo, hi - 1, a);
    }
  }

  lemma {:induction false} RewardsNarrow(blocks: seq<Block>, lo: nat, lo': nat, hi: nat, a: Text)
    requires hi <= |blocks| && lo <= lo'
    ensures Rewards(blocks, lo', hi, a) <= Rewards(blocks, lo, hi, a)
    decreases hi
  {
    if lo' < hi {
      RewardsNarrow(blocks, lo, lo', hi - 1, a);
    }
  }

  lemma {:induction false} CoinbaseCapped(cr: Crypto, blocks: seq<Block>, i: nat, a: Text)
    requires ChainOk(cr, blocks) && i < |blocks|
    ensures CoinbaseTo(blocks[i], a) <= COINBASE_LIMIT
  {
    if i > 0 {
      assert CoreAt(cr, blocks, i);
      ChainOkPrefix(cr, blocks, i);
      ChainConserves(cr, blocks[..i]);
      BlockEffect(cr, blocks[..i], blocks[i]);
      SubsidySmall(i);
    }
  }

  lemma {:induction false} RewardsBound(cr: Crypto, blocks: seq<Block>, lo: nat, hi: nat, a: Text)
    requires ChainOk(cr, blocks) && lo <= hi <= |blocks|
    ensures Rewards(blocks, lo, hi, a) <= (hi - lo) * COINBASE_LIMIT
    decreases hi
  {
    if lo < hi {
      RewardsBound(cr, blocks, lo, hi - 1, a);
      CoinbaseCapped(cr, blocks, hi - 1, a);
      hide ChainOk, CoinbaseTo, COINBASE_LIMIT;
      assert (hi - lo) * COINBASE_LIMIT == (hi - 1 - lo) * COINBASE_LIMIT + COINBASE_LIMIT;
    }
  }

  lemma {:induction false} WindowSmall(k: nat)
    requires k <= COINBASE_MATURITY
    ensures k * COINBASE_LIMIT < TWO64
  {
  }

  /** Over a maturity window the uint64 sum of `immatureCoinbase` does not wrap. */
  lemma {:induction false} CoinbaseSumExact(cr: Crypto, blocks: seq<Block>, lo: nat, hi: nat, a: Text)
    requires ChainOk(cr, blocks) && hi <= |blocks| && hi <= lo + COINBASE_MATURITY
    ensures CoinbaseSum(blocks, lo, hi, a) == Rewards(blocks, lo, hi, a)
    decreases hi
  {
    if lo < hi {
      CoinbaseSumExact(cr, blocks, lo, hi - 1, a);
      RewardsBound(cr, blocks, lo, hi, a);
      WindowSmall(hi - lo);
      hide ChainOk, CoinbaseTo, COINBASE_LIMIT;
    }
  }

  /** The start of the window, counting only coinbases mined under the rule. */
  ghost function WindowStart(height: nat): nat
    requires height >= MATURITY_HEIGHT
  {
    if ImmatureFrom(height) < MATURITY_HEIGHT then MATURITY_HEIGHT else ImmatureFrom(height)
  }

  /** No transfer takes an account below an amount that counts as immature for it. */
  lemma {:induction false} TransferKeeps(cr: Crypto, st: State, t: Tx, imm: u64, height: nat, a: Text, floor: nat)
    requires TxOk(cr, st, t, imm, height) && Total(st) < TWO64
    requires floor <= Get(st, a).balance && (a == t.From() ==> floor <= imm)
    ensures floor <= Get(ApplyTx(st, t), a).balance
  {
    TransferTotal(st, t);
  }

  lemma {:induction false} BodyKeeps(cr: Crypto, prefix: seq<Block>, st: State, txs: seq<Tx>, a: Text, floor: nat)
    requires BodyOk(cr, prefix, st, txs, 0) && Total(st) < TWO64
    requires floor <= Get(st, a).balance && floor <= ImmatureAt(prefix, |prefix|, a)
    ensures floor <= Get(ApplyTxs(st, txs), a).balance
  {
    if |txs| > 0 {
      var rest, t := txs[..|txs| - 1], txs[|txs| - 1];
      BodyKeeps(cr, prefix, st, rest, a, floor);
      BodyTotal(cr, prefix, st, rest, 0);
      TransferKeeps(cr, ApplyTxs(st, rest), t, ImmatureAt(prefix, |prefix|, t.From()), |prefix|, a, floor);
    }
  }

  lemma {:induction false} ImmatureCovers(cr: Crypto, blocks: seq<Block>, a: Text)
    requires ChainOk(cr, blocks) && |blocks| >= MATURITY_HEIGHT
    ensures ImmatureAt(blocks, |blocks|, a) == Rewards(blocks, ImmatureFrom(|blocks|), |blocks|, a)
    ensures Rewards(blocks, WindowStart(|blocks|), |blocks|, a) <= ImmatureAt(blocks, |blocks|, a)
  {
    CoinbaseSumExact(cr, blocks, ImmatureFrom(|blocks|), |blocks|, a);
    RewardsNarrow(blocks, ImmatureFrom(|blocks|), WindowStart(|blocks|), |blocks|, a);
  }

  lemma {:induction false} BlockKeepsRewards(cr: Crypto, prefix: seq<Block>, b: Block, a: Text, floor: nat)
    requires ChainOk(cr, prefix) && CoreOk(cr, prefix, b)
    requires floor <= Get(StateOf(prefix), a).balance && floor <= ImmatureAt(prefix, |prefix|, a)
    ensures floor + CoinbaseTo(b, a) <= Get(ApplyTxs(StateOf(prefix), b.txs), a).balance
  {
    ChainConserves(cr, prefix);
    BlockEffect(cr, prefix, b);
    BodyKeeps(cr, prefix, StateOf(prefix), b.txs[1..], a, floor);
    assert Get(ApplyTxs(StateOf(prefix), b.txs), a).nonce == Get(ApplyTxs(StateOf(prefix), b.txs[1..]), a).nonce;
  }

  /** In every valid chain of at least MATURITY_HEIGHT blocks each balance covers the account's
      coinbases of the maturity window that were mined at MATURITY_HEIGHT or later. */
  lemma {:induction false} HoldsRewards(cr: Crypto, blocks: seq<Block>, a: Text)
    requires ChainOk(cr, blocks) && |blocks| >= MATURITY_HEIGHT
    ensures Rewards(blocks, WindowStart(|blocks|), |blocks|, a) <= Get(StateOf(blocks), a).balance
    decreases |blocks|
  {
    if |blocks| > MATURITY_HEIGHT {
      var n := |blocks| - 1;
      ChainOkPrefix(cr, blocks, n);
      HoldsRewards(cr, blocks[..n], a);
      NextHolds(cr, blocks, a);
    }
  }

  /** The block after `prefix` adds its coinbase to what the window holds. */
  lemma {:induction false} NextHolds(cr: Crypto, blocks: seq<Block>, a: Text)
    requires |blocks| > MATURITY_HEIGHT && ChainOk(cr, blocks) && ChainOk(cr, blocks[..|blocks| - 1])
    requires var n := |blocks| - 1; Rewards(blocks[..n], WindowStart(n), n, a) <= Get(StateOf(blocks[..n]), a).balance
    ensures Rewards(blocks, WindowStart(|blocks|), |blocks|, a) <= Get(StateOf(blocks), a).balance
  {
    var n := |blocks| - 1;
    var prefix, b := blocks[..n], blocks[n];
    var floor := Rewards(prefix, WindowStart(n), n, a);
    ImmatureCovers(cr, prefix, a);
    assert CoreAt(cr, blocks, n);
    hide ChainOk, CoreOk, ImmatureAt, CoinbaseTo;
    BlockKeepsRewards(cr, prefix, b, a, floor);
    WindowGrows(prefix, blocks, a);
    hide Rewards;
    assert StateOf(blocks) == ApplyTxs(StateOf(prefix), b.txs);
  }

  lemma {:induction false} WindowGrows(prefix: seq<Block>, blocks: seq<Block>, a: Text)
    requires |blocks| > MATURITY_HEIGHT && prefix == blocks[..|blocks| - 1]
    ensures var n := |blocks| - 1;
      Rewards(blocks, WindowStart(n + 1), n + 1, a)
      <= Rewards(prefix, WindowStart(n), n, a) + CoinbaseTo(blocks[n], a)
  {
    var n := |blocks| - 1;
    RewardsShared(prefix, blocks, WindowStart(n), n, a);
    RewardsNarrow(blocks, WindowStart(n), WindowStart(n + 1), n, a);
    hide CoinbaseTo;
  }

  /** One window after activation the immature amount is always covered and `Spendable` is an
      exact subtraction for every account. */
  lemma {:induction false} ClampNeverFires(cr: Crypto, blocks: seq<Block>, a: Text)
    requires ChainOk(cr, blocks) && |blocks| >= MATURITY_HEIGHT + COINBASE_MATURITY - 1
    ensures ImmatureAt(blocks, |blocks|, a) <= Get(StateOf(blocks), a).balance
    ensures Spendable(Get(StateOf(blocks), a).balance, ImmatureAt(blocks, |blocks|, a))
      == Get(StateOf(blocks), a).balance - Rewards(blocks, |blocks| - COINBASE_MATURITY + 1, |blocks|, a)
  {
    HoldsRewards(cr, blocks, a);
    ImmatureCovers(cr, blocks, a);
  }

  /** What the coinbases below height `k` that are less than a hundred blocks old at `height` pay to
      `a`. */
  ghost function Young(blocks: seq<Block>, height: nat, k: nat, a: Text): nat
    requires k <= |blocks|
  {
    if k == 0 then 0 else
      var b := blocks[k - 1];
      Young(blocks, height, k - 1, a) +
        if height - (k - 1) < 100 && |b.txs| > 0 && b.txs[0].sender.NoSender? && b.txs[0].to == a then b.txs[0].amount else 0
  }

  lemma {:induction false} YoungRewards(blocks: seq<Block>, k: nat, a: Text)
    requires k <= |blocks| && |blocks| > 100
    ensures Young(blocks, |blocks|, k, a) == Rewards(blocks, |blocks| - 99, k, a)
  {
    if k > 0 {
      YoungRewards(blocks, k - 1, a);
    }
  }

  /** What an account may spend in the next block: from height 500 on its balance less every
      coinbase it was paid in the last 99 blocks, those mined below height 500 included, and before
      that its whole balance. */
  lemma {:induction false} SpendsExactly(cr: Crypto, blocks: seq<Block>, st: State, t: Tx)
    requires ChainOk(cr, blocks)
    ensures var acc := Get(st, t.From());
      var young := if |blocks| < 500 then 0 else Young(blocks, |blocks|, |blocks|, t.From());
      TxOk(cr, st, t, ImmatureAt(blocks, |blocks|, t.From()), |blocks|) <==>
        SigOk(cr, t, |blocks|) && t.nonce == acc.nonce && t.amount + t.fee + young <= acc.balance
  {
    var a := t.From();
    assert SigOk(cr, t, |blocks|) ==> t.amount > 0;
    if |blocks| >= 500 {
      CoinbaseSumExact(cr, blocks, |blocks| - 99, |blocks|, a);
      YoungRewards(blocks, |blocks|, a);
    }
    hide ChainOk, SigOk, CoinbaseSum, Young, Rewards;
  }
}
