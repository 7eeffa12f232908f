/** Conservation of coins: the balances of every valid chain add up to the subsidies issued,
    and no uint64 operation along the way wraps. */
module Conservation {
  import opened Types
  import opened Ledger
  import opened Validation

  const SUPPLY_CAP := 2 * INITIAL_REWARD * HALVING_INTERVAL

  ghost function SubsidySum(height: nat): nat {
    if height == 0 then 0 else SubsidySum(height - 1) + BlockSubsidy(height)
  }

  /** The reward of `height` before the 33-halving cut-off, which only makes it smaller. */
  ghost function Reward(height: nat): nat {
    ShiftRight(INITIAL_REWARD, height / HALVING_INTERVAL)
  }

  lemma {:induction false} SubsidyBudget(height: nat)
    ensures SubsidySum(height) + (2 * HALVING_INTERVAL - height % HALVING_INTERVAL - 1) * Reward(height) <= SUPPLY_CAP
  {
    if height > 0 {
      var r, s := (height - 1) % HALVING_INTERVAL, Reward(height - 1);
      SubsidyBudget(height - 1);
      if r + 1 < HALVING_INTERVAL {
        assert height / HALVING_INTERVAL == (height - 1) / HALVING_INTERVAL && height % HALVING_INTERVAL == r + 1;
        assert (2 * HALVING_INTERVAL - r - 1) * s == (2 * HALVING_INTERVAL - r - 2) * s + s;
      } else {
        assert height / HALVING_INTERVAL == (height - 1) / HALVING_INTERVAL + 1 && height % HALVING_INTERVAL == 0;
        assert Reward(height) == s / 2;
      }
    }
  }

  lemma {:induction false} NonNegative(x: nat, y: nat)
    ensures x * y >= 0
  {
  }

  lemma {:induction false} SubsidyBound(height: nat)
    ensures SubsidySum(height) <= SUPPLY_CAP
  {
    SubsidyBudget(height);
    NonNegative(2 * HALVING_INTERVAL - height % HALVING_INTERVAL - 1, Reward(height));
  }

  // ------------------------------------------------------------ exact arithmetic

  /** The mathematical sum of the fees that `TotalFees` adds up modulo 2^64. */
  ghost function FeeSum(txs: seq<Tx>): nat {
    if |txs| == 0 then 0 else
      FeeSum(txs[..|txs| - 1]) + if txs[|txs| - 1].IsCoinbase() then 0 else txs[|txs| - 1].fee
  }

  lemma {:induction false} TotalFeesExact(txs: seq<Tx>)
    requires FeeSum(txs) < TWO64
    ensures TotalFees(txs) == FeeSum(txs)
  {
    if |txs| > 0 {
      TotalFeesExact(txs[..|txs| - 1]);
    }
  }

  lemma {:induction false} FeeSumCons(cb: Tx, txs: seq<Tx>)
    requires cb.IsCoinbase()
    ensures FeeSum([cb] + txs) == FeeSum(txs)
  {
    if |txs| == 0 {
      assert [cb] + txs == [cb];
    } else {
      FeeSumCons(cb, txs[..|txs| - 1]);
      assert ([cb] + txs)[..|txs|] == [cb] + txs[..|txs| - 1];
    }
  }

  /** No uint64 operation of ApplyTx wraps. */
  ghost predicate ExactTx(st: State, t: Tx) {
    if t.IsCoinbase() then Get(st, t.to).balance + t.amount < TWO64
    else
      && t.amount + t.fee < TWO64
      && t.amount + t.fee <= Get(st, t.From()).balance
      && Get(Debit(st, t.From(), Add64(t.amount, t.fee)), t.to).balance + t.amount < TWO64
  }

  ghost predicate ExactTxs(st: State, txs: seq<Tx>) {
    |txs| == 0 || (ExactTxs(st, txs[..|txs| - 1]) && ExactTx(ApplyTxs(st, txs[..|txs| - 1]), txs[|txs| - 1]))
  }

  lemma {:induction false} ExactConcat(st: State, xs: seq<Tx>, ys: seq<Tx>)
    requires ExactTxs(st, xs) && ExactTxs(ApplyTxs(st, xs), ys)
    ensures ExactTxs(st, xs + ys)
  {
    if |ys| == 0 {
      assert xs + ys == xs;
    } else {
      ExactConcat(st, xs, ys[..|ys| - 1]);
      assert (xs + ys)[..|xs + ys| - 1] == xs + ys[..|ys| - 1];
      ApplyTxsConcat(st, xs, ys[..|ys| - 1]);
    }
  }

  lemma {:induction false} DebitTotal(st: State, a: Text, v: u64)
    requires v <= Get(st, a).balance
    ensures Total(Debit(st, a, v)) == Total(st) - v
  {
    TotalUpdate(st, a, Account(Sub64(Get(st, a).balance, v), Add64(Get(st, a).nonce, 1)));
  }

  lemma {:induction false} CreditTotal(st: State, a: Text, v: u64)
    requires Total(st) + v < TWO64
    ensures Get(st, a).balance + v < TWO64
    ensures Total(Credit(st, a, v)) == Total(st) + v
  {
    BalanceInTotal(st, a);
    TotalUpdate(st, a, Account(Add64(Get(st, a).balance, v), Get(st, a).nonce));
  }

  lemma {:induction false} BalanceInTotal(st: State, a: Text)
    ensures Get(st, a).balance <= Total(st)
  {
    TotalUpdate(st, a, Account(0, 0));
  }

  lemma {:induction false} MoveTotal(st: State, from: Text, to: Text, amount: u64, spent: u64)
    requires amount <= spent <= Get(st, from).balance && Total(st) < TWO64
    ensures Get(Debit(st, from, spent), to).balance + amount < TWO64
    ensures Total(Credit(Debit(st, from, spent), to, amount)) == Total(st) - spent + amount
  {
    BalanceInTotal(st, from);
    DebitTotal(st, from, spent);
    CreditTotal(Debit(st, from, spent), to, amount);
  }

  /** A transfer moves `amount` and takes `fee` out of circulation. */
  lemma {:induction false} TransferTotal(st: State, t: Tx)
    requires !t.IsCoinbase() && Total(st) < TWO64 && t.amount + t.fee <= Get(st, t.From()).balance
    ensures ExactTx(st, t)
    ensures Total(ApplyTx(st, t)) == Total(st) - t.fee
  {
    MoveTotal(st, t.From(), t.to, t.amount, Add64(t.amount, t.fee));
  }

  lemma {:induction false} BodyTotal(cr: Crypto, prefix: seq<Block>, st: State, txs: seq<Tx>, minFee: u64)
    requires BodyOk(cr, prefix, st, txs, minFee) && Total(st) < TWO64
    ensures Total(ApplyTxs(st, txs)) == Total(st) - FeeSum(txs)
  {
    if |txs| > 0 {
      var rest, t := txs[..|txs| - 1], txs[|txs| - 1];
      BodyTotal(cr, prefix, st, rest, minFee);
      TransferTotal(ApplyTxs(st, rest), t);
    }
  }

  // --------------------------- validated without the coinbase, applied after it

  /** `s` is `t` with `c` more coins on account `m`. */
  ghost predicate Richer(s: State, t: State, m: Text, c: u64) {
    forall a :: Get(s, a).nonce == Get(t, a).nonce
      && Get(s, a).balance == Get(t, a).balance + if a == m then c else 0
  }

  lemma {:induction false} RicherDebit(s: State, t: State, m: Text, c: u64, a: Text, v: u64)
    requires Richer(s, t, m, c) && v <= Get(t, a).balance
    ensures Richer(Debit(s, a, v), Debit(t, a, v), m, c)
  {
    forall x ensures Get(Debit(s, a, v), x).nonce == Get(Debit(t, a, v), x).nonce
      && Get(Debit(s, a, v), x).balance == Get(Debit(t, a, v), x).balance + if x == m then c else 0
    {
      assert Get(s, x).nonce == Get(t, x).nonce;
    }
  }

  lemma {:induction false} RicherCredit(s: State, t: State, m: Text, c: u64, a: Text, v: u64)
    requires Richer(s, t, m, c) && Get(t, a).balance + c + v < TWO64
    ensures Get(s, a).balance + v < TWO64
    ensures Richer(Credit(s, a, v), Credit(t, a, v), m, c)
  {
    assert Get(s, a).nonce == Get(t, a).nonce;
    forall x ensures Get(Credit(s, a, v), x).nonce == Get(Credit(t, a, v), x).nonce
      && Get(Credit(s, a, v), x).balance == Get(Credit(t, a, v), x).balance + if x == m then c else 0
    {
      assert Get(s, x).nonce == Get(t, x).nonce;
    }
  }

  lemma {:induction false} RicherTransfer(s: State, t: State, m: Text, c: u64, from: Text, to: Text, amount: u64,
      spent: u64)
    requires Richer(s, t, m, c) && amount <= spent <= Get(t, from).balance
    requires Get(Debit(t, from, spent), to).balance + c + amount < TWO64
    ensures spent <= Get(s, from).balance
    ensures Get(Debit(s, from, spent), to).balance + amount < TWO64
    ensures Richer(Credit(Debit(s, from, spent), to, amount), Credit(Debit(t, from, spent), to, amount), m, c)
  {
    assert Get(s, from).nonce == Get(t, from).nonce;
    RicherDebit(s, t, m, c, from, spent);
    RicherCredit(Debit(s, from, spent), Debit(t, from, spent), m, c, to, amount);
  }

  lemma {:induction false} RicherStep(s: State, t: State, m: Text, c: u64, x: Tx)
    requires Richer(s, t, m, c) && !x.IsCoinbase()
    requires Total(t) + c < TWO64 && x.amount + x.fee <= Get(t, x.From()).balance
    ensures ExactTx(s, x)
    ensures Richer(ApplyTx(s, x), ApplyTx(t, x), m, c)
  {
    var spent := Add64(x.amount, x.fee);
    assert Get(Debit(t, x.From(), spent), x.to).balance + c + x.amount < TWO64 by {
      DebitTotal(t, x.From(), spent);
      BalanceInTotal(Debit(t, x.From(), spent), x.to);
    }
    RicherTransfer(s, t, m, c, x.From(), x.to, x.amount, spent);
  }

  /** Spending without the block's own coinbase and then crediting it gives the same state as
      crediting it first, and the second order never wraps either. */
  lemma {:induction false} CoinbaseFirst(cr: Crypto, prefix: seq<Block>, st: State, txs: seq<Tx>, m: Text, c: u64)
    requires BodyOk(cr, prefix, st, txs, 0) && Total(st) + c < TWO64
    ensures Richer(ApplyTxs(Credit(st, m, c), txs), ApplyTxs(st, txs), m, c)
    ensures ExactTxs(Credit(st, m, c), txs)
  {
    if |txs| == 0 {
      TotalUpdate(st, m, Account(0, 0));
    } else {
      var rest, t := txs[..|txs| - 1], txs[|txs| - 1];
      CoinbaseFirst(cr, prefix, st, rest, m, c);
      BodyTotal(cr, prefix, st, rest, 0);
      RicherStep(ApplyTxs(Credit(st, m, c), rest), ApplyTxs(st, rest), m, c, t);
    }
  }

  lemma {:induction false} RicherTotal(s: State, t: State, m: Text, c: u64)
    requires Richer(s, t, m, c)
    ensures Total(s) == Total(t) + c
  {
    hide Total;
    assert Get(s, m).nonce == Get(t, m).nonce;
    var u := t[m := Get(s, m)];
    assert Total(u) == Total(t) + c by {
      TotalUpdate(t, m, Get(s, m));
    }
    assert Total(s) == Total(u) by {
      forall a ensures Get(s, a) == Get(u, a) {
        assert Get(s, a).nonce == Get(t, a).nonce;
      }
      TotalSame(s, u);
    }
  }

  /** What an accepted block does to the ledger. */
  lemma {:induction false} BlockEffect(cr: Crypto, prefix: seq<Block>, b: Block)
    requires |prefix| > 0 && CoreOk(cr, prefix, b)
    requires Total(StateOf(prefix)) <= SUPPLY_CAP
    ensures TotalFees(b.txs) == FeeSum(b.txs) <= Total(StateOf(prefix))
    ensures b.txs[0].amount == BlockSubsidy(|prefix|) + FeeSum(b.txs)
    ensures ExactTxs(StateOf(prefix), b.txs)
    ensures Richer(ApplyTxs(StateOf(prefix), b.txs), ApplyTxs(StateOf(prefix), b.txs[1..]), b.txs[0].to, b.txs[0].amount)
    ensures Total(ApplyTxs(StateOf(prefix), b.txs)) == Total(StateOf(prefix)) + BlockSubsidy(|prefix|)
  {
    var st, cb, body := StateOf(prefix), b.txs[0], b.txs[1..];
    BlockSums(cr, prefix, b);
    CoinbaseAndBody(cr, prefix, st, cb, body);
    assert b.txs == [cb] + body;
    hide CoreOk, ApplyTxs, ExactTxs, Richer, FeeSum, TotalFees, Total;
    RicherTotal(ApplyTxs(st, b.txs), ApplyTxs(st, body), cb.to, cb.amount);
  }

  /** What the fees of a block add up to, and what its body takes from the total. */
  lemma {:induction false} BlockSums(cr: Crypto, prefix: seq<Block>, b: Block)
    requires |prefix| > 0 && CoreOk(cr, prefix, b)
    requires Total(StateOf(prefix)) <= SUPPLY_CAP
    ensures TotalFees(b.txs) == FeeSum(b.txs) <= Total(StateOf(prefix))
    ensures b.txs[0].amount == BlockSubsidy(|prefix|) + FeeSum(b.txs) <= COINBASE_LIMIT
    ensures b.txs[0].IsCoinbase() && BodyOk(cr, prefix, StateOf(prefix), b.txs[1..], 0)
    ensures Total(ApplyTxs(StateOf(prefix), b.txs[1..])) == Total(StateOf(prefix)) - FeeSum(b.txs)
  {
    var cb, body := b.txs[0], b.txs[1..];
    assert b.txs == [cb] + body;
    hide HeaderOk, PowOk, StateOf, ApplyTxs, Total;
    BodyTotal(cr, prefix, StateOf(prefix), body, 0);
    FeeSumCons(cb, body);
    hide BodyOk, FeeSum;
    TotalFeesExact(b.txs);
    SubsidySmall(|prefix|);
    hide TotalFees, BlockSubsidy;
  }

  const COINBASE_LIMIT := SUPPLY_CAP + INITIAL_REWARD

  /** The coinbase first and the body after it, without a wrap. */
  lemma {:induction false} CoinbaseAndBody(cr: Crypto, prefix: seq<Block>, st: State, cb: Tx, body: seq<Tx>)
    requires cb.IsCoinbase() && cb.amount <= COINBASE_LIMIT && Total(st) <= SUPPLY_CAP
    requires BodyOk(cr, prefix, st, body, 0)
    ensures ExactTxs(st, [cb] + body)
    ensures Richer(ApplyTxs(st, [cb] + body), ApplyTxs(st, body), cb.to, cb.amount)
  {
    CoinbaseAlone(st, cb);
    hide ApplyTxs, ExactTxs, Richer, Total, BodyOk;
    ApplyTxsConcat(st, [cb], body);
    CoinbaseFirst(cr, prefix, st, body, cb.to, cb.amount);
    ExactConcat(st, [cb], body);
  }

  lemma {:induction false} CoinbaseAlone(st: State, cb: Tx)
    requires cb.IsCoinbase() && cb.amount <= COINBASE_LIMIT && Total(st) <= SUPPLY_CAP
    ensures ApplyTxs(st, [cb]) == Credit(st, cb.to, cb.amount) && ExactTxs(st, [cb])
  {
    assert [cb][..0] == [];
    TotalUpdate(st, cb.to, Account(0, 0));
    hide Total;
  }

  lemma {:induction false} SubsidySmall(height: nat)
    ensures BlockSubsidy(height) <= INITIAL_REWARD
  {
    ShiftRightBound(INITIAL_REWARD, height / HALVING_INTERVAL);
  }

  lemma {:induction false} IssuesSubsidy(cr: Crypto, prefix: seq<Block>, b: Block)
    requires |prefix| > 0 && CoreOk(cr, prefix, b)
    requires Total(StateOf(prefix)) == SubsidySum(|prefix| - 1)
    ensures Total(ApplyTxs(StateOf(prefix), b.txs)) == SubsidySum(|prefix|)
  {
    hide CoreOk, StateOf, ApplyTxs;
    SubsidyBound(|prefix| - 1);
    BlockEffect(cr, prefix, b);
  }

  lemma {:induction false} TipEffect(cr: Crypto, blocks: seq<Block>, n: nat)
    requires ChainOk(cr, blocks) && n + 1 == |blocks| && n > 0
    requires Total(StateOf(blocks[..n])) == SubsidySum(n - 1)
    ensures Total(StateOf(blocks)) == SubsidySum(n)
  {
    hide CoreOk, ApplyTxs, Total, SubsidySum;
    assert CoreAt(cr, blocks, n);
    IssuesSubsidy(cr, blocks[..n], blocks[n]);
  }

  lemma {:induction false} PrefixConserves(cr: Crypto, blocks: seq<Block>, n: nat)
    requires ChainOk(cr, blocks) && n < |blocks|
    ensures Total(StateOf(blocks[..n + 1])) == SubsidySum(n)
    decreases n
  {
    hide Total, StateOf, CoreAt;
    var chain := blocks[..n + 1];
    ChainOkPrefix(cr, blocks, n + 1);
    if n == 0 {
      GenesisLedger(cr, chain);
    } else {
      PrefixConserves(cr, blocks, n - 1);
      assert chain[..n] == blocks[..n];
      TipEffect(cr, chain, n);
    }
  }

  /** In every valid chain the balances sum to the subsidies of heights 1 to the tip. */
  lemma {:induction false} ChainConserves(cr: Crypto, blocks: seq<Block>)
    requires ChainOk(cr, blocks)
    ensures Total(StateOf(blocks)) == SubsidySum(|blocks| - 1)
    ensures Total(StateOf(blocks)) <= SUPPLY_CAP
  {
    hide Total, StateOf, CoreAt, SubsidySum;
    PrefixConserves(cr, blocks, |blocks| - 1);
    assert |blocks| - 1 + 1 == |blocks| && blocks[..|blocks|] == blocks;
    SubsidyBound(|blocks| - 1);
  }

  lemma {:induction false} GenesisLedger(cr: Crypto, blocks: seq<Block>)
    requires |blocks| == 1 && blocks[0] == Genesis(cr)
    ensures Same(StateOf(blocks), map[]) && Total(StateOf(blocks)) == 0
  {
    var cb := blocks[0].txs[0];
    assert blocks[..0] == [];
    assert blocks[0].txs == [cb] && [cb][..0] == [];
    assert StateOf(blocks[..0]) == map[];
    assert ApplyTxs(map[], [cb][..0]) == map[];
    assert StateOf(blocks) == ApplyTxs(map[], [cb]) == ApplyTx(map[], cb);
    assert ApplyTx(map[], cb) == map[cb.to := Account(0, 0)];
    TotalSame(StateOf(blocks), map[]);
  }

  /** Conservation and absence of wrap-around for the next block of any valid chain. */
  lemma {:induction false} NoWrap(cr: Crypto, blocks: seq<Block>, b: Block)
    requires ChainOk(cr, blocks) && CoreOk(cr, blocks, b)
    ensures TotalFees(b.txs) == FeeSum(b.txs)
    ensures b.txs[0].amount == BlockSubsidy(|blocks|) + FeeSum(b.txs)
    ensures ExactTxs(StateOf(blocks), b.txs)
  {
    ChainConserves(cr, blocks);
    BlockEffect(cr, blocks, b);
  }
}
