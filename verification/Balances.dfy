/** How the lifetime totals of an address relate to its balance. */
module Balances {
  import opened Types
  import opened Ledger
  import opened Validation
  import opened Conservation

  /** What moves through one address, as natural numbers. `kept` is what it paid to itself, which
      the totals count among `sent` only. */
  datatype Flow = Flow(received: nat, mined: nat, sent: nat, kept: nat)

  function Plus(x: Flow, y: Flow): Flow {
    Flow(x.received + y.received, x.mined + y.mined, x.sent + y.sent, x.kept + y.kept)
  }

  lemma {:induction false} PlusAssoc(x: Flow, y: Flow, z: Flow)
    ensures Plus(Plus(x, y), z) == Plus(x, Plus(y, z))
  {
  }

  function TxFlow(t: Tx, a: Text): Flow {
    if t.IsCoinbase() then
      if t.to == a then Flow(t.amount, t.amount, 0, 0) else Flow(0, 0, 0, 0)
    else if t.From() == a then Flow(0, 0, t.amount + t.fee, if t.to == a then t.amount else 0)
    else Flow(if t.to == a then t.amount else 0, 0, 0, 0)
  }

  function TxsFlow(txs: seq<Tx>, a: Text): Flow {
    if |txs| == 0 then Flow(0, 0, 0, 0) else Plus(TxsFlow(txs[..|txs| - 1], a), TxFlow(txs[|txs| - 1], a))
  }

  function ChainFlow(blocks: seq<Block>, a: Text): Flow {
    if |blocks| == 0 then Flow(0, 0, 0, 0)
    else Plus(ChainFlow(blocks[..|blocks| - 1], a), TxsFlow(blocks[|blocks| - 1].txs, a))
  }

  // --------------------------------------------------------- totals wrap, sums do not

  ghost predicate Wrapped(t: Totals, f: Flow) {
    t.received == f.received % TWO64 && t.mined == f.mined % TWO64 && t.sent == f.sent % TWO64
  }

  lemma {:induction false} AddWrapped(x: nat, v: u64)
    ensures Add64(x % TWO64, v) == (x + v) % TWO64
  {
  }

  lemma {:induction false} CountWrapped(m: TotalsMap, t: Tx, a: Text, f: Flow)
    requires Wrapped(TotalsFor(m, a), f)
    ensures Wrapped(TotalsFor(CountTx(m, t), a), Plus(f, TxFlow(t, a)))
  {
    AddWrapped(f.received, t.amount);
    AddWrapped(f.mined, t.amount);
    AddWrapped(f.sent, Add64(t.amount, t.fee));
    SentWrapped(f.sent, t.amount, t.fee);
    hide Add64;
  }

  lemma {:induction false} SentWrapped(x: nat, amount: u64, fee: u64)
    ensures (x + Add64(amount, fee)) % TWO64 == (x + (amount + fee)) % TWO64
  {
  }

  lemma {:induction false} CountsWrapped(m: TotalsMap, txs: seq<Tx>, a: Text, f: Flow)
    requires Wrapped(TotalsFor(m, a), f)
    ensures Wrapped(TotalsFor(CountTxs(m, txs), a), Plus(f, TxsFlow(txs, a)))
  {
    if |txs| > 0 {
      var rest, t := txs[..|txs| - 1], txs[|txs| - 1];
      CountsWrapped(m, rest, a, f);
      hide Wrapped, CountTx, TxFlow, Plus;
      PlusAssoc(f, TxsFlow(rest, a), TxFlow(t, a));
      CountWrapped(CountTxs(m, rest), t, a, Plus(f, TxsFlow(rest, a)));
    }
  }

  /** The totals of an address are its sums modulo 2^64, on every sequence of blocks. */
  lemma {:induction false} TotalsAreSums(blocks: seq<Block>, a: Text)
    ensures Wrapped(TotalsFor(TotalsOf(blocks), a), ChainFlow(blocks, a))
  {
    if |blocks| > 0 {
      var prefix := blocks[..|blocks| - 1];
      TotalsAreSums(prefix, a);
      hide Wrapped, CountTxs, TxsFlow;
      CountsWrapped(TotalsOf(prefix), blocks[|blocks| - 1].txs, a, ChainFlow(prefix, a));
    }
  }

  // ------------------------------------------------------------ balances are exact

  ghost predicate Balanced(st: State, a: Text, f: Flow) {
    Get(st, a).balance + f.sent == f.received + f.kept
  }

  lemma {:induction false} TxBalanced(st: State, t: Tx, a: Text, f: Flow)
    requires ExactTx(st, t) && Balanced(st, a, f)
    ensures Balanced(ApplyTx(st, t), a, Plus(f, TxFlow(t, a)))
  {
  }

  lemma {:induction false} TxsBalanced(st: State, txs: seq<Tx>, a: Text, f: Flow)
    requires ExactTxs(st, txs) && Balanced(st, a, f)
    ensures Balanced(ApplyTxs(st, txs), a, Plus(f, TxsFlow(txs, a)))
  {
    if |txs| > 0 {
      var rest, t := txs[..|txs| - 1], txs[|txs| - 1];
      TxsBalanced(st, rest, a, f);
      hide Balanced, ExactTx, ApplyTx, TxFlow, Plus;
      PlusAssoc(f, TxsFlow(rest, a), TxFlow(t, a));
      TxBalanced(ApplyTxs(st, rest), t, a, Plus(f, TxsFlow(rest, a)));
    }
  }

  lemma {:induction false} BlockBalanced(cr: Crypto, blocks: seq<Block>, n: nat, a: Text)
    requires ChainOk(cr, blocks) && 0 < n < |blocks| && Balanced(StateOf(blocks[..n]), a, ChainFlow(blocks[..n], a))
    ensures Balanced(StateOf(blocks[..n + 1]), a, ChainFlow(blocks[..n + 1], a))
  {
    hide ChainOk, Balanced, ExactTxs, TxsFlow, ApplyTxs, Plus;
    NextExact(cr, blocks, n);
    TxsBalanced(StateOf(blocks[..n]), blocks[n].txs, a, ChainFlow(blocks[..n], a));
    assert blocks[..n + 1][..n] == blocks[..n];
  }

  lemma {:induction false} NextExact(cr: Crypto, blocks: seq<Block>, n: nat)
    requires ChainOk(cr, blocks) && 0 < n < |blocks|
    ensures ExactTxs(StateOf(blocks[..n]), blocks[n].txs)
  {
    assert CoreAt(cr, blocks, n);
    ChainOkPrefix(cr, blocks, n);
    hide ChainOk, CoreOk, StateOf, ApplyTxs, ExactTxs, Total;
    ChainConserves(cr, blocks[..n]);
    BlockEffect(cr, blocks[..n], blocks[n]);
  }

  lemma {:induction false} PrefixBalanced(cr: Crypto, blocks: seq<Block>, n: nat, a: Text)
    requires ChainOk(cr, blocks) && 0 < n <= |blocks|
    ensures Balanced(StateOf(blocks[..n]), a, ChainFlow(blocks[..n], a))
  {
    if n > 1 {
      PrefixBalanced(cr, blocks, n - 1, a);
      BlockBalanced(cr, blocks, n - 1, a);
    } else {
      assert blocks[..1][..0] == [];
      var txs := blocks[0].txs;
      assert txs[..0] == [];
      TxsBalanced(map[], txs, a, Flow(0, 0, 0, 0));
    }
  }

  /** On every valid chain the balance of an address is what it received, less what it sent, plus
      what it sent to itself, as plain integers. */
  lemma {:induction false} BalanceFromFlow(cr: Crypto, blocks: seq<Block>, a: Text)
    requires ChainOk(cr, blocks)
    ensures var f := ChainFlow(blocks, a); Get(StateOf(blocks), a).balance == f.received - f.sent + f.kept
  {
    PrefixBalanced(cr, blocks, |blocks|, a);
    assert blocks[..|blocks|] == blocks;
  }

  /** The stored totals give that balance exactly when received and sent have wrapped equally
      often. */
  lemma {:induction false} BalanceFromTotals(cr: Crypto, blocks: seq<Block>, a: Text)
    requires ChainOk(cr, blocks)
    ensures var f, t := ChainFlow(blocks, a), TotalsFor(TotalsOf(blocks), a);
      Get(StateOf(blocks), a).balance == t.received - t.sent + f.kept <==> f.received / TWO64 == f.sent / TWO64
  {
    TotalsAreSums(blocks, a);
    BalanceFromFlow(cr, blocks, a);
    hide ChainOk, StateOf, TotalsOf, ChainFlow;
  }
}
