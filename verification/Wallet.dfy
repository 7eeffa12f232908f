/** What a wallet can tell from the history of its address: the rows are its transactions, newest
    block first, the pages join, and the rows add up to the balance. */
module Wallet {
  import opened Types
  import opened Ledger
  import opened Validation
  import opened Conservation
  import opened Balances
  import opened Store
  import opened History
  import Cursor

  // -------------------------------------------------------------- which, and in what order

  /** A transaction concerns the address it pays and, unless it is a coinbase, the one that sent it. */
  predicate Concerns(t: Tx, a: Text) {
    (t.sender.NoSender? && t.to == a) || (t.sender.Key? && (t.to == a || t.sender.addr == a))
  }

  predicate Later(x: HistRef, y: HistRef) {
    x.bi > y.bi || (x.bi == y.bi && x.ti < y.ti)
  }

  ghost predicate InOrder(rs: seq<HistRef>) {
    forall i, j :: 0 <= i < j < |rs| ==> Later(rs[i], rs[j])
  }

  lemma {:induction false} RunInOrder(b: Block, bi: nat, n: nat, a: Text)
    requires n <= |b.txs|
    ensures InOrder(BlockRefs(b, bi, n, a))
    ensures forall r :: r in BlockRefs(b, bi, n, a) ==> r.bi == bi && r.ti < n
  {
    if n > 0 {
      RunInOrder(b, bi, n - 1, a);
      var rest := BlockRefs(b, bi, n - 1, a);
      assert forall i :: 0 <= i < |rest| ==> rest[i] in rest;
      hide Touched;
    }
  }

  /** The scan holds exactly the transactions that concern an address, each once, newest block first
      and in order inside a block. */
  lemma {:induction false} ScanExactly(blocks: seq<Block>, a: Text)
    ensures InOrder(Scan(blocks, a))
    ensures forall r :: r in Scan(blocks, a) <==>
      r.bi < |blocks| && r.ti < |blocks[r.bi].txs| && Concerns(blocks[r.bi].txs[r.ti], a)
  {
    if |blocks| > 0 {
      var n := |blocks| - 1;
      var last, rest := BlockRefs(blocks[n], n, |blocks[n].txs|, a), Scan(blocks[..n], a);
      ScanExactly(blocks[..n], a);
      RunInOrder(blocks[n], n, |blocks[n].txs|, a);
      BlockRefsAt(blocks[n], n, |blocks[n].txs|, a);
      TouchedIs(a);
      hide Touched, Concerns, BlockRefs;
      assert Scan(blocks, a) == last + rest;
      forall i, j | 0 <= i < j < |last + rest| ensures Later((last + rest)[i], (last + rest)[j]) {
        if i < |last| <= j {
          assert last[i] in last && rest[j - |last|] in rest;
        }
      }
      forall r: HistRef | r.bi < n ensures blocks[..n][r.bi] == blocks[r.bi] {
      }
    }
  }

  lemma {:induction false} TouchedIs(a: Text)
    ensures forall t: Tx :: a in Touched(t) <==> Concerns(t, a)
  {
  }

  // ------------------------------------------------------------------------- pages

  lemma {:induction false} ItemsAt(cr: Crypto, blocks: seq<Block>, rs: seq<HistRef>, k: nat)
    requires AllIn(blocks, rs) && k < |rs|
    ensures Items(cr, blocks, rs)[k] == ItemAt(cr, blocks, rs[k])
  {
    hide ItemOf;
    if k < |rs| - 1 {
      ItemsAt(cr, blocks, rs[..|rs| - 1], k);
    }
  }

  /** A page lists consecutive rows of the scan, each with the height of its block. */
  lemma {:induction false} PageRows(cr: Crypto, blocks: seq<Block>, a: Text, offset: nat, limit: nat, k: nat)
    requires ChainOk(cr, blocks) && k < limit && offset + k < |Scan(blocks, a)|
    ensures var page, r := HistoryPage(cr, blocks, a, offset, limit), Scan(blocks, a)[offset + k];
      && k < |page| && InChainAt(blocks, r)
      && var t := blocks[r.bi].txs[r.ti];
      && page[k].txId == cr.txId(t) && page[k].height == r.bi && page[k].time == blocks[r.bi].hd.time
      && page[k].to == t.to && page[k].amount == t.amount && page[k].fee == t.fee
      && (t.sender.Key? ==> page[k].from == t.sender.addr)
      && (t.sender.NoSender? ==> page[k].from == [99, 111, 105, 110, 98, 97, 115, 101])
  {
    var s := Scan(blocks, a);
    var rs := PageOf(s, offset, limit);
    ScanIn(blocks, a);
    assert rs[k] == s[offset + k];
    ItemsAt(cr, blocks, rs, k);
    assert InChainAt(blocks, s[offset + k]);
    ChainSealed(cr, blocks, s[offset + k].bi);
    hide ChainOk, Scan, Sealed;
  }

  /** Consecutive pages join: asking in two steps gives what asking at once gives. */
  lemma {:induction false} PagesJoin(cr: Crypto, blocks: seq<Block>, a: Text, offset: nat, m: nat, n: nat)
    ensures HistoryPage(cr, blocks, a, offset, m) + HistoryPage(cr, blocks, a, offset + m, n)
      == HistoryPage(cr, blocks, a, offset, m + n)
  {
    var s := Scan(blocks, a);
    var x, y := PageOf(s, offset, m), PageOf(s, offset + m, n);
    ScanIn(blocks, a);
    assert PageOf(s, offset, m + n) == x + y;
    hide Scan;
    ItemsConcat(cr, blocks, x, y);
  }

  lemma {:induction false} ItemsConcat(cr: Crypto, blocks: seq<Block>, x: seq<HistRef>, y: seq<HistRef>)
    requires AllIn(blocks, x) && AllIn(blocks, y)
    ensures AllIn(blocks, x + y) && Items(cr, blocks, x + y) == Items(cr, blocks, x) + Items(cr, blocks, y)
  {
    hide ItemAt;
    if y == [] {
      assert x + y == x;
    } else {
      ItemsConcat(cr, blocks, x, y[..|y| - 1]);
      assert (x + y)[..|x + y| - 1] == x + y[..|y| - 1];
    }
  }

  // ------------------------------------------------------------------- the balance

  /** What one row does to the balance of `a`. */
  function RowEffect(item: HistoryItem, a: Text): int {
    (if item.to == a then item.amount else 0) - (if item.from == a then item.amount + item.fee else 0)
  }

  function RowsEffect(items: seq<HistoryItem>, a: Text): int {
    if items == [] then 0 else RowsEffect(items[..|items| - 1], a) + RowEffect(items[|items| - 1], a)
  }

  lemma {:induction false} EffectConcat(x: seq<HistoryItem>, y: seq<HistoryItem>, a: Text)
    ensures RowsEffect(x + y, a) == RowsEffect(x, a) + RowsEffect(y, a)
  {
    hide RowEffect;
    if y == [] {
      assert x + y == x;
    } else {
      EffectConcat(x, y[..|y| - 1], a);
      assert (x + y)[..|x + y| - 1] == x + y[..|y| - 1];
    }
  }

  function Net(f: Flow): int {
    f.received - f.sent + f.kept
  }

  /** Every transaction of a block has a coinbase or a keyed sender. */
  ghost predicate Formed(b: Block) {
    forall i :: 0 <= i < |b.txs| ==> !b.txs[i].sender.BadKey?
  }

  lemma {:induction false} ItemFields(cr: Crypto, b: Block, i: nat)
    requires i < |b.txs|
    ensures var t, item := b.txs[i], ItemOf(cr, b, i);
      item.from == SenderName(t) && item.to == t.to && item.amount == t.amount && item.fee == t.fee
  {
  }

  lemma {:induction false} EffectOf(t: Tx, item: HistoryItem, a: Text)
    requires a != COINBASE_FROM && a != [] && !t.sender.BadKey?
    requires item.from == SenderName(t) && item.to == t.to && item.amount == t.amount && item.fee == t.fee
    ensures Net(TxFlow(t, a)) == if a in Touched(t) then RowEffect(item, a) else 0
  {
    TouchedIs(a);
    hide COINBASE_FROM, ValidAddr, Touched;
    var pays := t.to == a;
    if t.sender.NoSender? {
      assert TxFlow(t, a) == if pays then Flow(t.amount, t.amount, 0, 0) else Flow(0, 0, 0, 0);
      assert RowEffect(item, a) == if pays then t.amount else 0;
    } else {
      var sends := t.sender.addr == a;
      assert t.From() == t.sender.addr;
      assert RowEffect(item, a) == (if pays then t.amount else 0) - (if sends then t.amount + t.fee else 0);
    }
  }

  lemma {:induction false} TxEffect(cr: Crypto, b: Block, i: nat, a: Text)
    requires i < |b.txs| && ValidAddr(a) && !b.txs[i].sender.BadKey?
    ensures Net(TxFlow(b.txs[i], a)) == if a in Touched(b.txs[i]) then RowEffect(ItemOf(cr, b, i), a) else 0
  {
    NotAddress(a);
    hide *;
    ItemFields(cr, b, i);
    EffectOf(b.txs[i], ItemOf(cr, b, i), a);
  }

  lemma {:induction false} NotAddress(a: Text)
    requires ValidAddr(a)
    ensures a != COINBASE_FROM && a != []
  {
    assert |COINBASE_FROM| == 8 && |a| == 44;
  }

  /** The rows of one block's references, against the flow of its transactions. */
  lemma {:induction false} BlockEffects(cr: Crypto, blocks: seq<Block>, bi: nat, n: nat, a: Text)
    requires bi < |blocks| && n <= |blocks[bi].txs| && ValidAddr(a) && Formed(blocks[bi])
    ensures AllIn(blocks, BlockRefs(blocks[bi], bi, n, a))
    ensures RowsEffect(Items(cr, blocks, BlockRefs(blocks[bi], bi, n, a)), a) == Net(TxsFlow(blocks[bi].txs[..n], a))
  {
    hide Touched, ItemOf, TxFlow, TxsFlow, Net, RowEffect, RowsEffect, ValidAddr, Items, AllIn, Formed;
    var b := blocks[bi];
    if n > 0 {
      var rest, row := BlockRefs(b, bi, n - 1, a), HistRef(bi, n - 1);
      BlockEffects(cr, blocks, bi, n - 1, a);
      FormedAt(b, n - 1);
      TxEffect(cr, b, n - 1, a);
      TxsGrow(b.txs, n - 1, a);
      if a in Touched(b.txs[n - 1]) {
        assert BlockRefs(b, bi, n, a) == rest + [row];
        hide BlockRefs;
        RowAdds(cr, blocks, rest, row, a);
      } else {
        assert BlockRefs(b, bi, n, a) == rest;
      }
    } else {
      NoRows(cr, blocks, b, bi, a);
    }
  }

  lemma {:induction false} RowAdds(cr: Crypto, blocks: seq<Block>, rest: seq<HistRef>, row: HistRef, a: Text)
    requires AllIn(blocks, rest) && row.bi < |blocks| && row.ti < |blocks[row.bi].txs|
    ensures AllIn(blocks, rest + [row])
    ensures RowsEffect(Items(cr, blocks, rest + [row]), a)
      == RowsEffect(Items(cr, blocks, rest), a) + RowEffect(ItemOf(cr, blocks[row.bi], row.ti), a)
  {
    hide RowsEffect, RowEffect, ItemOf, Items, AllIn;
    ItemsGrow(cr, blocks, rest, row);
    EffectConcat(Items(cr, blocks, rest), [ItemAt(cr, blocks, row)], a);
    OneEffect(ItemAt(cr, blocks, row), a);
  }

  lemma {:induction false} FormedFrom(b: Block)
    requires forall i :: 0 <= i < |b.txs| ==> !b.txs[i].sender.BadKey?
    ensures Formed(b)
  {
  }

  lemma {:induction false} FormedAt(b: Block, i: int)
    requires Formed(b)
    ensures 0 <= i < |b.txs| ==> !b.txs[i].sender.BadKey?
  {
  }

  lemma {:induction false} NoRows(cr: Crypto, blocks: seq<Block>, b: Block, bi: nat, a: Text)
    ensures AllIn(blocks, BlockRefs(b, bi, 0, a))
    ensures RowsEffect(Items(cr, blocks, BlockRefs(b, bi, 0, a)), a) == Net(TxsFlow(b.txs[..0], a)) == 0
  {
    assert b.txs[..0] == [];
  }

  lemma {:induction false} TxsGrow(txs: seq<Tx>, n: nat, a: Text)
    requires n < |txs|
    ensures Net(TxsFlow(txs[..n + 1], a)) == Net(TxsFlow(txs[..n], a)) + Net(TxFlow(txs[n], a))
  {
    assert txs[..n + 1][..n] == txs[..n];
    hide TxFlow;
  }

  lemma {:induction false} ItemsGrow(cr: Crypto, blocks: seq<Block>, rs: seq<HistRef>, r: HistRef)
    requires AllIn(blocks, rs) && InChainAt(blocks, r)
    ensures AllIn(blocks, rs + [r]) && Items(cr, blocks, rs + [r]) == Items(cr, blocks, rs) + [ItemAt(cr, blocks, r)]
  {
    assert (rs + [r])[..|rs|] == rs;
  }

  lemma {:induction false} OneEffect(item: HistoryItem, a: Text)
    ensures RowsEffect([item], a) == RowEffect(item, a)
  {
    assert [item][..0] == [];
  }

  /** The rows of the scan of the first `n` blocks, against the flow of those blocks. */
  lemma {:induction false} ScanEffects(cr: Crypto, blocks: seq<Block>, n: nat, a: Text)
    requires n <= |blocks| && ValidAddr(a) && forall i :: 0 <= i < n ==> Formed(blocks[i])
    ensures AllIn(blocks, Scan(blocks[..n], a))
    ensures RowsEffect(Items(cr, blocks, Scan(blocks[..n], a)), a) == Net(ChainFlow(blocks[..n], a))
  {
    hide BlockRefs, ItemAt, TxsFlow, RowEffect, RowsEffect, ValidAddr, Formed, AllIn, Items;
    if n > 0 {
      var m := n - 1;
      var last, rest := BlockRefs(blocks[m], m, |blocks[m].txs|, a), Scan(blocks[..m], a);
      ScanEffects(cr, blocks, m, a);
      BlockEffects(cr, blocks, m, |blocks[m].txs|, a);
      FlowGrows(blocks, m, a);
      hide ChainFlow, Net, Scan;
      ItemsConcat(cr, blocks, last, rest);
      EffectConcat(Items(cr, blocks, last), Items(cr, blocks, rest), a);
    } else {
      NoEffect(cr, blocks, a);
    }
  }

  lemma {:induction false} FlowGrows(blocks: seq<Block>, m: nat, a: Text)
    requires m < |blocks|
    ensures blocks[m].txs[..|blocks[m].txs|] == blocks[m].txs
    ensures Scan(blocks[..m + 1], a) == BlockRefs(blocks[m], m, |blocks[m].txs|, a) + Scan(blocks[..m], a)
    ensures Net(ChainFlow(blocks[..m + 1], a)) == Net(ChainFlow(blocks[..m], a)) + Net(TxsFlow(blocks[m].txs, a))
  {
    assert blocks[..m + 1][..m] == blocks[..m];
    hide BlockRefs, TxsFlow;
  }

  lemma {:induction false} NoEffect(cr: Crypto, blocks: seq<Block>, a: Text)
    ensures AllIn(blocks, Scan(blocks[..0], a))
    ensures RowsEffect(Items(cr, blocks, Scan(blocks[..0], a)), a) == Net(ChainFlow(blocks[..0], a))
  {
    assert blocks[..0] == [];
  }

  /** A wallet's balance is what its whole history adds up to: every amount paid to it, less every
      amount and fee it sent. */
  lemma {:induction false} HistoryBalance(cr: Crypto, blocks: seq<Block>, a: Text)
    requires ChainOk(cr, blocks) && ValidAddr(a)
    ensures RowsEffect(HistoryPage(cr, blocks, a, 0, |Scan(blocks, a)|), a) == Get(StateOf(blocks), a).balance
  {
    hide StateOf, ValidAddr, Scan, ChainFlow, Formed;
    forall i | 0 <= i < |blocks| ensures Formed(blocks[i]) {
      Cursor.KeysDecode(cr, blocks, i);
      FormedFrom(blocks[i]);
    }
    ScanEffects(cr, blocks, |blocks|, a);
    assert blocks[..|blocks|] == blocks;
    BalanceFromFlow(cr, blocks, a);
    var s := Scan(blocks, a);
    assert PageOf(s, 0, |s|) == s;
  }
}
