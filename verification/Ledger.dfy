/** Account state, lifetime totals, cumulative work and the per-address index, each as the
    plain fold over a chain that the incremental updates of core/chain.go must agree with. */
module Ledger {
  import opened Types

  // ----------------------------------------------------------------- accounts

  datatype Account = Account(balance: u64, nonce: u64)

  type State = map<Text, Account>

  function Get(st: State, a: Text): Account {
    if a in st then st[a] else Account(0, 0)
  }

  /** Equality of states in which a missing account is the zero account. */
  ghost predicate Same(s: State, t: State) {
    forall a :: Get(s, a) == Get(t, a)
  }

  /** `State.get` stores a zero account when it is asked for a missing one. */
  function Touch(st: State, a: Text): (r: State)
    ensures Same(r, st)
  {
    st[a := Get(st, a)]
  }

  function Credit(st: State, a: Text, v: u64): State {
    st[a := Account(Add64(Get(st, a).balance, v), Get(st, a).nonce)]
  }

  function Debit(st: State, a: Text, v: u64): State {
    st[a := Account(Sub64(Get(st, a).balance, v), Add64(Get(st, a).nonce, 1))]
  }

  function ApplyTx(st: State, t: Tx): State {
    if t.IsCoinbase() then Credit(st, t.to, t.amount)
    else Credit(Debit(st, t.From(), Add64(t.amount, t.fee)), t.to, t.amount)
  }

  function ApplyTxs(st: State, txs: seq<Tx>): State {
    if |txs| == 0 then st else ApplyTx(ApplyTxs(st, txs[..|txs| - 1]), txs[|txs| - 1])
  }

  function StateOf(blocks: seq<Block>): State {
    if |blocks| == 0 then map[] else ApplyTxs(StateOf(blocks[..|blocks| - 1]), blocks[|blocks| - 1].txs)
  }

  lemma {:induction false} ApplyTxSame(s: State, t: State, tx: Tx)
    requires Same(s, t)
    ensures Same(ApplyTx(s, tx), ApplyTx(t, tx))
  {
    assert Get(s, tx.to) == Get(t, tx.to);
    assert Get(s, tx.From()) == Get(t, tx.From());
    forall a ensures Get(ApplyTx(s, tx), a) == Get(ApplyTx(t, tx), a) {
      assert Get(s, a) == Get(t, a);
    }
  }

  lemma {:induction false} ApplyTxsSame(s: State, t: State, txs: seq<Tx>)
    requires Same(s, t)
    ensures Same(ApplyTxs(s, txs), ApplyTxs(t, txs))
  {
    if |txs| > 0 {
      ApplyTxsSame(s, t, txs[..|txs| - 1]);
      ApplyTxSame(ApplyTxs(s, txs[..|txs| - 1]), ApplyTxs(t, txs[..|txs| - 1]), txs[|txs| - 1]);
    }
  }

  lemma {:induction false} ApplyTxsConcat(st: State, xs: seq<Tx>, ys: seq<Tx>)
    ensures ApplyTxs(st, xs + ys) == ApplyTxs(ApplyTxs(st, xs), ys)
  {
    if |ys| == 0 {
      assert xs + ys == xs;
    } else {
      ApplyTxsConcat(st, xs, ys[..|ys| - 1]);
      assert (xs + ys)[..|xs + ys| - 1] == xs + ys[..|ys| - 1];
    }
  }

  method ApplyBlockToState(state: State, b: Block) returns (st: State)
    ensures st == ApplyTxs(state, b.txs)
  {
    st := state;
    for i := 0 to |b.txs|
      invariant st == ApplyTxs(state, b.txs[..i])
    {
      var t := b.txs[i];
      assert b.txs[..i + 1][..i] == b.txs[..i];
      if t.IsCoinbase() {
        st := st[t.to := Account(Add64(Get(st, t.to).balance, t.amount), Get(st, t.to).nonce)];
        continue;
      }
      var acc := Get(st, t.From());
      st := st[t.From() := Account(Sub64(acc.balance, Add64(t.amount, t.fee)), Add64(acc.nonce, 1))];
      var dst := Get(st, t.to);
      st := st[t.to := dst.(balance := Add64(dst.balance, t.amount))];
    }
    assert b.txs[..|b.txs|] == b.txs;
  }

  // ------------------------------------------------------------------ totals

  datatype Totals = Totals(received: u64, mined: u64, sent: u64, txn: nat)

  type TotalsMap = map<Text, Totals>

  function TotalsFor(m: TotalsMap, a: Text): Totals {
    if a in m then m[a] else Totals(0, 0, 0, 0)
  }

  function CountTx(m: TotalsMap, t: Tx): TotalsMap {
    if t.IsCoinbase() then
      var to := TotalsFor(m, t.to);
      m[t.to := Totals(Add64(to.received, t.amount), Add64(to.mined, t.amount), to.sent, to.txn + 1)]
    else
      var f := TotalsFor(m, t.From());
      var m1 := m[t.From() := f.(sent := Add64(f.sent, Add64(t.amount, t.fee)), txn := f.txn + 1)];
      if t.to == t.From() then m1 else
        var to := TotalsFor(m1, t.to);
        m1[t.to := to.(received := Add64(to.received, t.amount), txn := to.txn + 1)]
  }

  function CountTxs(m: TotalsMap, txs: seq<Tx>): TotalsMap {
    if |txs| == 0 then m else CountTx(CountTxs(m, txs[..|txs| - 1]), txs[|txs| - 1])
  }

  function TotalsOf(blocks: seq<Block>): TotalsMap {
    if |blocks| == 0 then map[] else CountTxs(TotalsOf(blocks[..|blocks| - 1]), blocks[|blocks| - 1].txs)
  }

  method ApplyBlockToTotals(totals: TotalsMap, b: Block) returns (m: TotalsMap)
    ensures m == CountTxs(totals, b.txs)
  {
    hide Add64;
    hide CountTxs;
    CountNone(totals, b.txs);
    m := totals;
    for i := 0 to |b.txs|
      invariant m == CountTxs(totals, b.txs[..i])
    {
      var t := b.txs[i];
      CountNext(totals, b.txs, i);
      if t.IsCoinbase() {
        var to := TotalsFor(m, t.to);
        m := m[t.to := Totals(Add64(to.received, t.amount), Add64(to.mined, t.amount), to.sent, to.txn + 1)];
        continue;
      }
      var f := TotalsFor(m, t.From());
      m := m[t.From() := f.(sent := Add64(f.sent, Add64(t.amount, t.fee)), txn := f.txn + 1)];
      if t.to != t.From() {
        var to := TotalsFor(m, t.to);
        m := m[t.to := to.(received := Add64(to.received, t.amount), txn := to.txn + 1)];
      }
    }
    assert b.txs[..|b.txs|] == b.txs;
  }

  lemma {:induction false} CountNone(m: TotalsMap, txs: seq<Tx>)
    ensures CountTxs(m, txs[..0]) == m
  {
  }

  lemma {:induction false} CountNext(m: TotalsMap, txs: seq<Tx>, i: nat)
    requires i < |txs|
    ensures CountTxs(m, txs[..i + 1]) == CountTx(CountTxs(m, txs[..i]), txs[i])
  {
    assert txs[..i + 1][..i] == txs[..i];
    hide CountTx;
  }

  // -------------------------------------------------------- per-address index

  datatype HistRef = HistRef(bi: nat, ti: nat)

  type Index = map<Text, seq<HistRef>>

  function Refs(idx: Index, a: Text): seq<HistRef> {
    if a in idx then idx[a] else []
  }

  function AddRef(idx: Index, a: Text, r: HistRef): Index {
    idx[a := Refs(idx, a) + [r]]
  }

  /** The index entries one transaction adds: its recipient for a coinbase, otherwise sender
      and recipient, once when they coincide, and none for an undecodable key. */
  function IndexTx(idx: Index, r: HistRef, t: Tx): Index {
    match t.sender
    case NoSender => AddRef(idx, t.to, r)
    case BadKey => idx
    case Key(from) => if t.to == from then AddRef(idx, from, r) else AddRef(AddRef(idx, from, r), t.to, r)
  }

  function IndexTxs(idx: Index, bi: nat, txs: seq<Tx>): Index {
    if |txs| == 0 then idx
    else IndexTx(IndexTxs(idx, bi, txs[..|txs| - 1]), HistRef(bi, |txs| - 1), txs[|txs| - 1])
  }

  function IndexOf(blocks: seq<Block>): Index {
    if |blocks| == 0 then map[] else
      var b := blocks[|blocks| - 1];
      IndexTxs(IndexOf(blocks[..|blocks| - 1]), b.hd.height, b.txs)
  }

  method IndexBlock(addrTx: Index, b: Block) returns (idx: Index)
    ensures idx == IndexTxs(addrTx, b.hd.height, b.txs)
  {
    idx := addrTx;
    for ti := 0 to |b.txs|
      invariant idx == IndexTxs(addrTx, b.hd.height, b.txs[..ti])
    {
      var t := b.txs[ti];
      assert b.txs[..ti + 1][..ti] == b.txs[..ti];
      var ref := HistRef(b.hd.height, ti);
      if t.IsCoinbase() {
        idx := idx[t.to := Refs(idx, t.to) + [ref]];
        continue;
      }
      if t.sender.BadKey? {
        continue;
      }
      var from := t.sender.addr;
      idx := idx[from := Refs(idx, from) + [ref]];
      if t.to != from {
        idx := idx[t.to := Refs(idx, t.to) + [ref]];
      }
    }
    assert b.txs[..|b.txs|] == b.txs;
  }

  /** reindexAddrTxLocked: the index rebuilt from nothing. */
  method ReindexAddrTx(blocks: seq<Block>) returns (idx: Index)
    ensures idx == IndexOf(blocks)
  {
    idx := map[];
    for i := 0 to |blocks|
      invariant idx == IndexOf(blocks[..i])
    {
      assert blocks[..i + 1][..i] == blocks[..i];
      idx := IndexBlock(idx, blocks[i]);
    }
    assert blocks[..|blocks|] == blocks;
  }

  // ------------------------------------------------------------------ supply

  ghost function SomeKey(st: State): (a: Text)
    requires |st| > 0
    ensures a in st
  {
    var a :| a in st;
    a
  }

  /** The sum of all balances as a natural number. */
  ghost function Total(st: State): nat
    decreases |st|
  {
    if |st| == 0 then 0 else st[SomeKey(st)].balance + Total(st - {SomeKey(st)})
  }

  lemma {:induction false} TotalPick(st: State, a: Text)
    requires a in st
    ensures Total(st) == st[a].balance + Total(st - {a})
    decreases |st|
  {
    var x := SomeKey(st);
    if x != a {
      TotalPick(st - {x}, a);
      TotalPick(st - {a}, x);
      assert st - {x} - {a} == st - {a} - {x};
    }
  }

  lemma {:induction false} TotalUpdate(st: State, a: Text, acc: Account)
    ensures Total(st[a := acc]) == Total(st) - Get(st, a).balance + acc.balance
    ensures Get(st, a).balance <= Total(st)
  {
    hide Total;
    TotalDrop(st[a := acc], a);
    TotalDrop(st, a);
    assert st[a := acc] - {a} == st - {a};
  }

  lemma {:induction false} TotalDrop(st: State, a: Text)
    ensures Total(st) == Get(st, a).balance + Total(st - {a})
  {
    if a in st {
      TotalPick(st, a);
    } else {
      assert st - {a} == st;
    }
  }

  lemma {:induction false} TotalSame(s: State, t: State)
    requires Same(s, t)
    ensures Total(s) == Total(t)
    decreases |s| + |t|
  {
    if |s| + |t| > 0 {
      var a := if |s| > 0 then SomeKey(s) else SomeKey(t);
      TotalDrop(s, a);
      TotalDrop(t, a);
      DropSame(s, t, a);
      DropSmaller(s, a);
      DropSmaller(t, a);
      TotalSame(s - {a}, t - {a});
      assert Get(s, a) == Get(t, a);
    }
  }

  lemma {:induction false} DropSmaller(st: State, a: Text)
    ensures |st - {a}| == if a in st then |st| - 1 else |st|
  {
    if a !in st {
      assert st - {a} == st;
    }
  }

  lemma {:induction false} DropSame(s: State, t: State, a: Text)
    requires Same(s, t)
    ensures Same(s - {a}, t - {a})
  {
    forall x ensures Get(s - {a}, x) == Get(t - {a}, x) {
      assert Get(s, x) == Get(t, x);
    }
  }

  /** recomputeSupplyLocked: the uint64 sum of all balances, in any order. */
  method RecomputeSupply(state: State) returns (s: u64)
    ensures s == Total(state) % TWO64
  {
    hide Total;
    s := 0;
    ghost var wraps := 0;
    var rest := state;
    while |rest| > 0
      invariant s + wraps * TWO64 + Total(rest) == Total(state)
      decreases |rest|
    {
      var a :| a in rest;
      TotalPick(rest, a);
      if s + rest[a].balance >= TWO64 {
        wraps := wraps + 1;
      }
      s := Add64(s, rest[a].balance);
      rest := rest - {a};
    }
    TotalEmpty(rest);
  }

  lemma {:induction false} TotalEmpty(st: State)
    requires |st| == 0
    ensures Total(st) == 0
  {
  }
}
