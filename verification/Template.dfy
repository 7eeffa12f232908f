/** Block templates (core/chain.go BuildTemplate): greedy, fee-ordered selection that yields a
    block other nodes accept once it is mined, and leaves no includable transaction behind. */
module Template {
  import opened Types
  import opened Ledger
  import opened MedianTime
  import opened Activation
  import opened Retarget
  import opened Validation
  import opened Epochs
  import opened Identity
  import opened Mempool

  const BODY_LIMIT := MAX_BLOCK_TXS - 1

  /** What selection reads: the chain, its state and the pool with its sender queues. */
  datatype Context = Context(cr: Crypto, blocks: seq<Block>, state: State, mp: TxMap, qs: Queues, minFee: u64) {
    /** `t` may be the next transaction on top of `st`. */
    predicate Eligible(st: State, t: Tx) {
      t.fee >= minFee && TxOk(cr, st, t, ImmatureAt(blocks, |blocks|, t.From()), |blocks|)
    }

    ghost predicate Valid() {
      PoolOk(cr, mp, qs)
    }
  }

  /** The selection order: higher fee first, then smaller id. */
  predicate Beats(cr: Crypto, t: Tx, x: Tx) {
    t.fee > x.fee || (t.fee == x.fee && cr.txId(t) < cr.txId(x))
  }

  type Cursor = map<Text, nat>

  function At(idx: Cursor, a: Text): nat {
    if a in idx then idx[a] else 0
  }

  /** Queue entries before the cursor were picked or are below the account's nonce. */
  ghost predicate Passed(c: Context, st: State, idx: Cursor) {
    forall a, j :: 0 <= j < At(idx, a) && j < |QueueOf(c.qs, a)| ==> QueueOf(c.qs, a)[j].nonce < Get(st, a).nonce
  }

  /** Picked transactions lie before their sender's cursor. */
  ghost predicate Behind(c: Context, picked: seq<Tx>, idx: Cursor) {
    forall x :: x in picked ==> exists j :: 0 <= j < At(idx, x.From()) && j < |QueueOf(c.qs, x.From())| && QueueOf(c.qs, x.From())[j] == x
  }

  // ------------------------------------------------------------ one selection round

  datatype Pick = NoPick | Picked(tx: Tx)

  /** No eligible pool transaction of these senders comes before `best` in the selection order. */
  ghost predicate BestOf(c: Context, st: State, best: Pick, senders: set<Text>) {
    forall id :: id in c.mp && c.mp[id].From() in senders && c.Eligible(st, c.mp[id]) ==>
      best.Picked? && !Beats(c.cr, c.mp[id], best.tx)
  }

  /** Moves a sender's cursor past stale nonces. */
  method SkipStale(q: seq<Tx>, start: nat, nonce: u64) returns (i: nat)
    ensures start <= i && (i < |q| ==> q[i].nonce >= nonce)
    ensures forall j :: start <= j < i && j < |q| ==> q[j].nonce < nonce
  {
    i := start;
    while i < |q| && q[i].nonce < nonce
      invariant start <= i
      invariant forall j :: start <= j < i && j < |q| ==> q[j].nonce < nonce
    {
      i := i + 1;
    }
  }

  /** Only the entry under the cursor can be eligible. */
  lemma {:induction false} HeadOnly(c: Context, st: State, idx: Cursor, id: nat)
    requires c.Valid() && Passed(c, st, idx) && id in c.mp && c.Eligible(st, c.mp[id])
    ensures var q, i := QueueOf(c.qs, c.mp[id].From()), At(idx, c.mp[id].From());
      i < |q| && (q[i].nonce >= Get(st, c.mp[id].From()).nonce ==> q[i] == c.mp[id])
  {
    hide PoolOk;
    var t := c.mp[id];
    var a := t.From();
    var q, i := QueueOf(c.qs, a), At(idx, a);
    PooledAt(c.cr, c.mp, c.qs, id);
    QueueFacts(c.cr, c.mp, c.qs, a);
    var j :| 0 <= j < |q| && q[j] == t;
    assert j >= i;
  }

  lemma {:induction false} RoundStep(c: Context, st: State, idx: Cursor, from: Text, prev: Pick, best: Pick,
      seen: set<Text>)
    requires c.Valid() && Passed(c, st, idx) && BestOf(c, st, prev, seen)
    requires var q, i := QueueOf(c.qs, from), At(idx, from);
      && (i < |q| ==> q[i].nonce >= Get(st, from).nonce)
      && best == if i < |q| && c.Eligible(st, q[i]) && (prev.NoPick? || Beats(c.cr, q[i], prev.tx)) then Picked(q[i]) else prev
    ensures BestOf(c, st, best, seen + {from})
  {
    hide TxOk, PoolOk;
    forall id | id in c.mp && c.mp[id].From() in seen + {from} && c.Eligible(st, c.mp[id])
      ensures best.Picked? && !Beats(c.cr, c.mp[id], best.tx)
    {
      if c.mp[id].From() == from {
        HeadOnly(c, st, idx, id);
      }
    }
  }

  /** The inner loop: advance every sender's cursor and choose the best eligible head. */
  method PickBest(c: Context, st: State, idx: Cursor, imm: map<Text, u64>, ghost room: bool) returns (best: Pick,
      idx': Cursor)
    requires c.Valid()
    requires forall a :: Lookup(imm, a) == ImmatureAt(c.blocks, |c.blocks|, a)
    requires room ==> Passed(c, st, idx)
    ensures forall a :: At(idx, a) <= At(idx', a)
    ensures room ==> Passed(c, st, idx')
    ensures room ==> BestOf(c, st, best, c.qs.Keys)
    ensures best.Picked? ==> Head(c, st, idx', best.tx)
  {
    hide PoolOk, Passed, BestOf, Beats;
    best, idx' := NoPick, idx;
    var todo := c.qs.Keys;
    NoneYet(c, st);
    while todo != {}
      invariant todo <= c.qs.Keys
      invariant forall a :: At(idx, a) <= At(idx', a)
      invariant room ==> Passed(c, st, idx')
      invariant room ==> BestOf(c, st, best, c.qs.Keys - todo)
      invariant best.Picked? ==> best.tx.From() !in todo && Head(c, st, idx', best.tx)
      decreases |todo|
    {
      var from :| from in todo;
      ghost var seen := c.qs.Keys - todo;
      todo := todo - {from};
      assert c.qs.Keys - todo == seen + {from};
      best, idx' := Consider(c, st, idx', imm, from, best, seen, room);
    }
    assert c.qs.Keys - todo == c.qs.Keys;
  }

  lemma {:induction false} NoneYet(c: Context, st: State)
    ensures BestOf(c, st, NoPick, c.qs.Keys - c.qs.Keys)
  {
  }

  /** `t` is eligible and stands at its sender's cursor. */
  ghost predicate Head(c: Context, st: State, idx: Cursor, t: Tx) {
    var q, i := QueueOf(c.qs, t.From()), At(idx, t.From());
    c.Eligible(st, t) && i < |q| && q[i] == t
  }

  lemma {:induction false} PassedSkip(c: Context, st: State, idx: Cursor, from: Text, i: nat)
    requires Passed(c, st, idx)
    requires forall j :: At(idx, from) <= j < i && j < |QueueOf(c.qs, from)| ==> QueueOf(c.qs, from)[j].nonce < Get(st, from).nonce
    ensures Passed(c, st, idx[from := i])
  {
  }

  /** One sender's turn in the inner loop. */
  method Consider(c: Context, st: State, idx: Cursor, imm: map<Text, u64>, from: Text, best: Pick,
      ghost seen: set<Text>, ghost room: bool)
    returns (best': Pick, idx': Cursor)
    requires c.Valid() && from in c.qs
    requires forall a :: Lookup(imm, a) == ImmatureAt(c.blocks, |c.blocks|, a)
    requires room ==> Passed(c, st, idx) && BestOf(c, st, best, seen)
    requires best.Picked? ==> best.tx.From() != from && Head(c, st, idx, best.tx)
    ensures forall a :: At(idx, a) <= At(idx', a) && (a != from ==> At(idx', a) == At(idx, a))
    ensures room ==> Passed(c, st, idx') && BestOf(c, st, best', seen + {from})
    ensures best' == best || (best'.Picked? && best'.tx.From() == from)
    ensures best'.Picked? ==> Head(c, st, idx', best'.tx)
  {
    var s := c.qs[from];
    var i := SkipStale(s, At(idx, from), Get(st, from).nonce);
    idx' := idx[from := i];
    best' := best;
    QueueFacts(c.cr, c.mp, c.qs, from);
    hide PoolOk, TxOk, BestOf, Passed;
    if i < |s| {
      var t := s[i];
      assert t in s;
      if t.nonce == Get(st, from).nonce && t.fee >= c.minFee
        && TxOk(c.cr, st, t, Lookup(imm, from), |c.blocks|)
        && (best.NoPick? || t.fee > best.tx.fee || (t.fee == best.tx.fee && c.cr.txId(t) < c.cr.txId(best.tx)))
      {
        best' := Picked(t);
      }
      EligibleNonce(c, st, t);
    }
    if room {
      PassedSkip(c, st, idx, from, i);
      RoundStep(c, st, idx', from, best, best', seen);
    }
  }

  lemma {:induction false} EligibleNonce(c: Context, st: State, t: Tx)
    ensures c.Eligible(st, t) ==> t.nonce == Get(st, t.From()).nonce && t.sender.Key?
  {
  }

  // ---------------------------------------------------------------- selection

  ghost predicate Body(c: Context, txs: seq<Tx>) {
    BodyOk(c.cr, c.blocks, c.state, txs, c.minFee)
  }

  /** Each selected transaction is the best that could have been appended at its turn: none that was
      includable paid more, and of those that paid the same it has the least id. */
  ghost predicate Greedy(c: Context, picked: seq<Tx>) {
    forall k, id :: 0 <= k < |picked| && id in c.mp && Body(c, picked[..k] + [c.mp[id]]) ==>
      c.mp[id].fee <= picked[k].fee && (c.mp[id].fee == picked[k].fee ==> c.cr.txId(picked[k]) <= c.cr.txId(c.mp[id]))
  }

  lemma {:induction false} BodyAppend(c: Context, picked: seq<Tx>, t: Tx)
    ensures Body(c, picked + [t]) <==> Body(c, picked) && NewId(c.cr, picked, t) && c.Eligible(ApplyTxs(c.state, picked), t)
  {
    assert (picked + [t])[..|picked|] == picked;
    hide TxOk, ApplyTxs, NewId;
  }

  lemma {:induction false} PickIsNew(c: Context, picked: seq<Tx>, idx: Cursor, t: Tx)
    requires c.Valid() && Behind(c, picked, idx) && t.sender.Key?
    requires var q, i := QueueOf(c.qs, t.From()), At(idx, t.From()); i < |q| && q[i] == t
    ensures NewId(c.cr, picked, t)
  {
    hide PoolOk;
    QueueFacts(c.cr, c.mp, c.qs, t.From());
    forall x | x in picked ensures c.cr.txId(x) != c.cr.txId(t) {
      QueueFacts(c.cr, c.mp, c.qs, x.From());
    }
  }

  /** Taking the head of a queue and moving that cursor on keeps both cursor invariants. */
  lemma {:induction false} CursorStep(c: Context, st: State, picked: seq<Tx>, idx: Cursor, t: Tx, room: bool)
    requires c.Valid() && Behind(c, picked, idx) && Head(c, st, idx, t)
    requires room ==> Passed(c, st, idx) && Get(st, t.From()).nonce < TWO64 - 1
    ensures var idx' := idx[t.From() := At(idx, t.From()) + 1];
      Behind(c, picked + [t], idx') && (room ==> Passed(c, ApplyTx(st, t), idx'))
  {
    hide Passed, Behind;
    BehindStep(c, st, picked, idx, t);
    if room {
      PassedStep(c, st, idx, t);
    }
  }

  lemma {:induction false} BehindStep(c: Context, st: State, picked: seq<Tx>, idx: Cursor, t: Tx)
    requires c.Valid() && Behind(c, picked, idx) && Head(c, st, idx, t)
    ensures Behind(c, picked + [t], idx[t.From() := At(idx, t.From()) + 1])
  {
    var a, i := t.From(), At(idx, t.From());
    var idx' := idx[a := i + 1];
    EligibleNonce(c, st, t);
    hide TxOk, PoolOk;
    forall x | x in picked + [t]
      ensures exists j :: 0 <= j < At(idx', x.From()) && j < |QueueOf(c.qs, x.From())| && QueueOf(c.qs, x.From())[j] == x
    {
      if x in picked {
        var j :| 0 <= j < At(idx, x.From()) && j < |QueueOf(c.qs, x.From())| && QueueOf(c.qs, x.From())[j] == x;
      } else {
        assert QueueOf(c.qs, a)[i] == x;
      }
    }
  }

  lemma {:induction false} PassedStep(c: Context, st: State, idx: Cursor, t: Tx)
    requires c.Valid() && Head(c, st, idx, t) && Passed(c, st, idx) && Get(st, t.From()).nonce < TWO64 - 1
    ensures Passed(c, ApplyTx(st, t), idx[t.From() := At(idx, t.From()) + 1])
  {
    var a, i := t.From(), At(idx, t.From());
    var idx', st' := idx[a := i + 1], ApplyTx(st, t);
    EligibleNonce(c, st, t);
    hide TxOk, PoolOk;
    assert forall b :: Get(st', b).nonce == Get(st, b).nonce + if b == a then 1 else 0;
    forall b, j | 0 <= j < At(idx', b) && j < |QueueOf(c.qs, b)|
      ensures QueueOf(c.qs, b)[j].nonce < Get(st', b).nonce
    {
      if b != a || j != i {
        assert QueueOf(c.qs, b)[j].nonce < Get(st, b).nonce;
      }
    }
  }

  lemma {:induction false} NonceBelowMax(c: Context, picked: seq<Tx>, a: Text)
    requires Body(c, picked) && |picked| < BODY_LIMIT && NonceRoom(c.state, MAX_BLOCK_TXS)
    ensures Get(ApplyTxs(c.state, picked), a).nonce < TWO64 - 1
  {
    hide BodyOk, ApplyTxs;
    BodyOkWeaken(c.cr, c.blocks, c.state, picked, c.minFee);
    LessRoom(c.state, MAX_BLOCK_TXS, |picked|);
    BodyNonces(c.cr, c.blocks, c.state, picked);
    assert Get(c.state, a).nonce + MAX_BLOCK_TXS < TWO64;
    assert Get(ApplyTxs(c.state, picked), a).nonce <= Get(c.state, a).nonce + |picked|;
  }

  lemma {:induction false} GreedyStep(c: Context, picked: seq<Tx>, t: Tx)
    requires c.Valid() && Greedy(c, picked) && BestOf(c, ApplyTxs(c.state, picked), Picked(t), c.qs.Keys)
    ensures Greedy(c, picked + [t])
  {
    hide PoolOk, BodyOk, TxOk, ApplyTxs;
    var next := picked + [t];
    forall k, id | 0 <= k < |next| && id in c.mp && Body(c, next[..k] + [c.mp[id]])
      ensures c.mp[id].fee <= next[k].fee
      ensures c.mp[id].fee == next[k].fee ==> c.cr.txId(next[k]) <= c.cr.txId(c.mp[id])
    {
      assert next[..k] == picked[..k];
      if k == |picked| {
        assert next[..k] == picked;
        BodyAppend(c, picked, c.mp[id]);
        SenderQueued(c, id);
      }
    }
  }

  lemma {:induction false} SenderQueued(c: Context, id: nat)
    requires c.Valid() && id in c.mp
    ensures c.mp[id].From() in c.qs
  {
    PooledAt(c.cr, c.mp, c.qs, id);
  }

  /** When no head is eligible nothing in the pool can be appended. */
  lemma {:induction false} NothingLeft(c: Context, picked: seq<Tx>)
    requires c.Valid() && BestOf(c, ApplyTxs(c.state, picked), NoPick, c.qs.Keys)
    ensures forall id :: id in c.mp ==> !Body(c, picked + [c.mp[id]])
  {
    hide PoolOk, BodyOk, TxOk, ApplyTxs;
    forall id | id in c.mp ensures !Body(c, picked + [c.mp[id]]) {
      SenderQueued(c, id);
      BodyAppend(c, picked, c.mp[id]);
    }
  }

  /** The selection loop. Its result is a valid body; as long as account nonces are clear of the
      uint64 limit it is greedy, and if it is not full no pool transaction fits behind it. */
  method SelectTxs(c: Context) returns (picked: seq<Tx>)
    requires c.Valid()
    ensures |picked| <= BODY_LIMIT && Body(c, picked)
    ensures NonceRoom(c.state, MAX_BLOCK_TXS) ==> Greedy(c, picked)
    ensures NonceRoom(c.state, MAX_BLOCK_TXS) && |picked| < BODY_LIMIT ==>
      forall id :: id in c.mp ==> !Body(c, picked + [c.mp[id]])
  {
    ghost var room := NonceRoom(c.state, MAX_BLOCK_TXS);
    var imm := ImmatureCoinbase(c.blocks, |c.blocks|);
    var st: State := c.state;
    var idx: Cursor := map[];
    picked := [];
    hide PoolOk, Passed, Behind, BestOf, Greedy, ApplyTxs, BodyOk, TxOk, ImmatureAt, NonceRoom;
    StartSelection(c);
    while |picked| < BODY_LIMIT
      invariant |picked| <= BODY_LIMIT && Body(c, picked)
      invariant st == ApplyTxs(c.state, picked)
      invariant Behind(c, picked, idx)
      invariant room ==> Passed(c, st, idx) && Greedy(c, picked)
    {
      var best;
      ghost var before := idx;
      best, idx := PickBest(c, st, idx, imm, room);
      if best.NoPick? {
        if room {
          NothingLeft(c, picked);
        }
        return;
      }
      var t := best.tx;
      BehindLater(c, picked, before, idx);
      EligibleNonce(c, st, t);
      PickIsNew(c, picked, idx, t);
      BodyAppend(c, picked, t);
      AppendState(c, picked, t);
      if room {
        NonceBelowMax(c, picked, t.From());
        GreedyStep(c, picked, t);
      }
      CursorStep(c, st, picked, idx, t, room);
      st := ApplyTx(st, t);
      picked := picked + [t];
      idx := idx[t.From() := At(idx, t.From()) + 1];
    }
  }

  lemma {:induction false} StartSelection(c: Context)
    ensures Body(c, []) && ApplyTxs(c.state, []) == c.state
    ensures Behind(c, [], map[]) && Passed(c, c.state, map[]) && Greedy(c, [])
  {
  }

  lemma {:induction false} AppendState(c: Context, picked: seq<Tx>, t: Tx)
    ensures ApplyTxs(c.state, picked + [t]) == ApplyTx(ApplyTxs(c.state, picked), t)
  {
    assert (picked + [t])[..|picked|] == picked;
  }

  lemma {:induction false} BehindLater(c: Context, picked: seq<Tx>, idx: Cursor, idx': Cursor)
    requires Behind(c, picked, idx) && forall a :: At(idx, a) <= At(idx', a)
    ensures Behind(c, picked, idx')
  {
  }

  // ----------------------------------------------------------------- the block

  /** The sender lists BuildTemplate collects from the pool and sorts by nonce are the pool's index. */
  method GroupBySender(cr: Crypto, mempool: TxMap, ghost qs: Queues) returns (groups: Queues)
    requires PoolOk(cr, mempool, qs)
    ensures groups == qs
  {
    hide PoolOk, Inserted, Ordered;
    groups := map[];
    ghost var taken: TxMap := map[];
    var todo := mempool.Keys;
    EmptyPool(cr);
    while todo != {}
      invariant todo <= mempool.Keys && taken.Keys == mempool.Keys - todo
      invariant forall id :: id in taken ==> taken[id] == mempool[id]
      invariant PoolOk(cr, taken, groups)
      decreases |todo|
    {
      var id :| id in todo;
      var t := mempool[id];
      PooledAt(cr, mempool, qs, id);
      SubPool(cr, mempool, qs, taken, groups, id);
      PlaceOk(cr, taken, groups, t);
      groups := groups[t.From() := Inserted(QueueOf(groups, t.From()), t)];
      taken := taken[id := t];
      todo := todo - {id};
    }
    assert taken == mempool;
    IndexDetermined(cr, mempool, qs, groups);
  }

  lemma {:induction false} EmptyPool(cr: Crypto)
    ensures PoolOk(cr, map[], map[])
  {
  }

  /** A part of a good pool leaves room for each of the other transactions. */
  lemma {:induction false} SubPool(cr: Crypto, mp: TxMap, qs: Queues, part: TxMap, groups: Queues, id: nat)
    requires PoolOk(cr, mp, qs) && PoolOk(cr, part, groups) && id in mp && id !in part
    requires part.Keys <= mp.Keys && forall x :: x in part ==> part[x] == mp[x]
    ensures cr.txId(mp[id]) == id && |part| <= POOL_LIMIT
    ensures !Holds(QueueOf(groups, mp[id].From()), mp[id].nonce)
    ensures |QueueOf(groups, mp[id].From())| < MAX_MEMPOOL_TXNS_PER_SENDER
  {
    var a := mp[id].From();
    var q, g := QueueOf(qs, a), QueueOf(groups, a);
    DropSize(cr, mp, qs, id);
    hide PoolOk;
    PooledAt(cr, mp, qs, id);
    QueueFacts(cr, part, groups, a);
    QueueFacts(cr, mp, qs, a);
    SmallerMap(part, mp - {id});
    forall j | 0 <= j < |g| ensures g[j].nonce != mp[id].nonce && g[j] in q && g[j] != mp[id] {
      assert g[j] in g;
      PooledAt(cr, mp, qs, cr.txId(g[j]));
      if g[j].nonce == mp[id].nonce {
        OnePerNonce(cr, mp, qs, cr.txId(g[j]), id);
      }
    }
    FewerDistinct(g, q, mp[id]);
  }

  lemma {:induction false} SmallerMap(x: TxMap, y: TxMap)
    requires x.Keys <= y.Keys
    ensures |x| <= |y|
  {
    SmallerSet(x.Keys, y.Keys);
  }

  lemma {:induction false} SmallerSet<T>(x: set<T>, y: set<T>)
    requires x <= y
    ensures |x| <= |y|
  {
    assert y == x + (y - x);
  }

  /** A strictly ordered queue whose members are some of another's, but not `t`, is shorter. */
  lemma {:induction false} FewerDistinct(g: seq<Tx>, q: seq<Tx>, t: Tx)
    requires Ordered(g) && Ordered(q) && t in q && forall x :: x in g ==> x in q && x != t
    ensures |g| < |q|
  {
    MembersCount(g);
    MembersCount(q);
    var gs, s := set x | x in g, set x | x in q;
    assert gs <= s - {t};
    SmallerSet(gs, s - {t});
  }

  lemma {:induction false} MembersCount(q: seq<Tx>)
    requires Ordered(q)
    ensures |set x | x in q| == |q|
  {
    if q != [] {
      var r, t := q[..|q| - 1], q[|q| - 1];
      MembersCount(r);
      assert q == r + [t];
      assert (set x | x in q) == (set x | x in r) + {t};
      assert t !in r;
    }
  }

  datatype Build = Built(b: Block) | BadCoinbase | MedianAhead

  method TemplateTarget(blocks: seq<Block>, lwmaAct: nat) returns (t: nat)
    ensures t == RequiredTarget(lwmaAct, blocks)
  {
    var a := lwmaAct;
    if a == 0 {
      a := ActivationHeight(blocks, LWMA_GATE);
    }
    if a != 0 && |blocks| >= a {
      t := LwmaTargetOf(blocks);
    } else {
      t := LegacyTargetOf(blocks);
    }
  }

  method TemplateFee(cr: Crypto, blocks: seq<Block>, feeAct: nat) returns (fee: u64)
    ensures fee == RequiredFee(cr, feeAct, blocks)
  {
    if |blocks| < MIN_FEE_HEIGHT {
      return 0;
    }
    var a := feeAct;
    if a == 0 {
      a := ActivationHeight(blocks, FEE_GATE);
    }
    fee := MinFeeOf(cr, blocks, a != 0 && |blocks| >= a);
  }

  /** `rules` for a node without checkpoints. */
  function Unchecked(rules: Rules): Rules {
    rules.(checkpoints := map[])
  }

  /** `b` is a template: acceptable once mined, unless a checkpoint names another block, and its body
      is a greedy, maximal selection. */
  ghost predicate TemplateOk(rules: Rules, c: Context, b: Block, now: nat, payee: Text)
    requires |c.blocks| > 0
  {
    && Unmined(Unchecked(rules), c.blocks, b, now)
    && b.txs[0].to == payee
    && (NonceRoom(c.state, MAX_BLOCK_TXS) ==>
      && Greedy(c, b.txs[1..])
      && (|b.txs| < MAX_BLOCK_TXS ==> forall id :: id in c.mp ==> !Body(c, b.txs[1..] + [c.mp[id]])))
  }

  /** The coinbase and header around a selected body. */
  function Assemble(cr: Crypto, blocks: seq<Block>, payee: Text, picked: seq<Tx>, fees: u64, time: u64,
      target: nat): Block
    requires 0 < |blocks| < TWO64
  {
    var height := |blocks|;
    var cb := Tx(NoSender, payee, Add64(BlockSubsidy(height), fees), 0, height, COINBASE_TAG);
    var txs := [cb] + picked;
    Block(Header(1, height, time, Hash(cr, blocks[height - 1]), TxRoot(cr, txs), target, 0), true, true, true, txs)
  }

  ghost predicate AssembledUnmined(rules: Rules, c: Context, picked: seq<Tx>, fees: u64, time: u64, now: nat,
      payee: Text)
    requires 0 < |c.blocks| < TWO64
  {
    var b := Assemble(c.cr, c.blocks, payee, picked, fees, time, RequiredTarget(rules.lwmaAct, c.blocks));
    Unmined(Unchecked(rules), c.blocks, b, now)
  }

  lemma {:induction false} AssembledOk(rules: Rules, c: Context, picked: seq<Tx>, fees: u64, time: u64, now: nat,
      payee: Text)
    requires 0 < |c.blocks| < TWO64 && c.cr == rules.cr && c.minFee == RequiredFee(rules.cr, rules.feeAct, c.blocks)
    requires Same(c.state, StateOf(c.blocks)) && ValidAddr(payee)
    requires Median(c.blocks) < time <= now + MAX_FUTURE_DRIFT
    requires |picked| <= BODY_LIMIT && Body(c, picked) && fees == TotalFees(picked)
    ensures AssembledUnmined(rules, c, picked, fees, time, now, payee)
  {
    var b := Assemble(c.cr, c.blocks, payee, picked, fees, time, RequiredTarget(rules.lwmaAct, c.blocks));
    assert b.txs[1..] == picked;
    BodyOkSame(c.cr, c.blocks, c.state, StateOf(c.blocks), picked, c.minFee);
    FeesOfBlock(b.txs[0], picked);
    hide BodyOk, StateOf, Median, RequiredTarget, RequiredFee, TotalFees, BlockSubsidy;
  }

  lemma {:induction false} AssembledTemplate(rules: Rules, c: Context, picked: seq<Tx>, fees: u64, time: u64,
      now: nat, payee: Text)
    requires 0 < |c.blocks| < TWO64
    requires NonceRoom(c.state, MAX_BLOCK_TXS) ==> Greedy(c, picked)
    requires NonceRoom(c.state, MAX_BLOCK_TXS) && |picked| < BODY_LIMIT ==> forall id :: id in c.mp ==> !Body(c, picked + [c.mp[id]])
    requires AssembledUnmined(rules, c, picked, fees, time, now, payee)
    ensures TemplateOk(rules, c, Assemble(c.cr, c.blocks, payee, picked, fees, time, RequiredTarget(rules.lwmaAct, c.blocks)), now, payee)
  {
    hide Unmined, Greedy, Body, NonceRoom, RequiredTarget;
    assert AssembledUnmined(rules, c, picked, fees, time, now, payee);
    var b := Assemble(c.cr, c.blocks, payee, picked, fees, time, RequiredTarget(rules.lwmaAct, c.blocks));
    assert b.txs[1..] == picked;
  }

  lemma {:induction false} FeesOfBlock(cb: Tx, picked: seq<Tx>)
    requires cb.IsCoinbase()
    ensures TotalFees([cb] + picked) == TotalFees(picked)
  {
    if picked == [] {
      assert [cb] + picked == [cb];
      assert [cb][..0] == [];
    } else {
      FeesOfBlock(cb, picked[..|picked| - 1]);
      assert ([cb] + picked)[..|picked|] == [cb] + picked[..|picked| - 1];
    }
  }

  /** The side condition of the last two template properties holds on every valid chain shorter
      than 2^64 / MAX_BLOCK_TXS blocks. */
  lemma {:induction false} ChainsHaveRoom(cr: Crypto, blocks: seq<Block>, state: State)
    requires ChainOk(cr, blocks) && NoncesFit(blocks) && Same(state, StateOf(blocks))
    ensures NonceRoom(state, MAX_BLOCK_TXS)
  {
    NoncesSpent(cr, blocks);
    hide ChainOk, StateOf;
  }

  /** A mined template is accepted: whatever nonce the miner finds and however much later the block
      arrives, the only checks left are the proof of work and a checkpoint at its height. */
  lemma {:induction false} MinedTemplate(rules: Rules, c: Context, b: Block, now: nat, later: nat, payee: Text,
      nonce: u64)
    requires |c.blocks| > 0 && c.cr == rules.cr && TemplateOk(rules, c, b, now, payee) && now <= later
    ensures var found := b.(hd := b.hd.(nonce := nonce));
      NextOk(rules, c.blocks, found, later) <==>
        && Mined(rules.cr, c.blocks, found.hd)
        && (|c.blocks| in rules.checkpoints ==> rules.checkpoints[|c.blocks|] == rules.cr.hash(found.hd))
  {
    var found := b.(hd := b.hd.(nonce := nonce));
    MinedIs(rules.cr, c.blocks, found);
    hide PowOk, Mined, BodyOk, StateOf, Median, RequiredTarget, RequiredFee, Greedy, NonceRoom, ShapeOk;
    assert TemplateOk(rules, c, b, now, payee);
    ShapeKept(rules.cr, b, nonce);
  }

  lemma {:induction false} ShapeKept(cr: Crypto, b: Block, nonce: u64)
    ensures ShapeOk(cr, b.(hd := b.hd.(nonce := nonce))) <==> ShapeOk(cr, b)
  {
  }

  /** The tag, nonce and time of an assembled block. */
  lemma {:induction false} AssembledHeader(cr: Crypto, blocks: seq<Block>, payee: Text, picked: seq<Tx>, fees: u64,
      time: u64, target: nat)
    requires 0 < |blocks| < TWO64
    ensures var b := Assemble(cr, blocks, payee, picked, fees, time, target);
      CoinbaseVersion(b) == 4 && b.hd.time == time && b.hd.nonce == 0
  {
    TagRoundTrip(Assemble(cr, blocks, payee, picked, fees, time, target));
    hide CoinbaseVersion;
  }

  /** BuildTemplate fails only for a bad address or a median beyond clock drift; otherwise the
      block passes every check of validateBlock but the proof of work and the checkpoint of its
      height, signals this node's version and carries the clock's time, or the first one above the
      median. The last two preconditions hold on every chain whose heights and times fit their uint64
      header fields. */
  method BuildTemplate(rules: Rules, blocks: seq<Block>, state: State, mempool: TxMap, ghost qs: Queues, now: nat,
      payee: Text)
    returns (r: Build)
    requires PoolOk(rules.cr, mempool, qs) && Same(state, StateOf(blocks))
    requires 0 < |blocks| < TWO64 && Median(blocks) + 1 < TWO64 && now < TWO64
    ensures r.BadCoinbase? <==> !ValidAddr(payee)
    ensures r.MedianAhead? <==> ValidAddr(payee) && Median(blocks) + 1 > now + 300
    ensures r.Built? ==>
      TemplateOk(rules, Context(rules.cr, blocks, state, mempool, qs, RequiredFee(rules.cr, rules.feeAct, blocks)), r.b, now, payee)
    ensures r.Built? ==> CoinbaseVersion(r.b) == 4 && r.b.hd.nonce == 0
    ensures r.Built? ==> r.b.hd.time == if now > Median(blocks) then now else Median(blocks) + 1
  {
    hide PoolOk, Same, StateOf, Unmined, Greedy, Body, Median, TemplateOk, Assemble, NonceRoom, RequiredFee;
    hide RequiredTarget, TotalFees, ValidAddr, AssembledUnmined, CoinbaseVersion;
    if !ValidAddr(payee) {
      return BadCoinbase;
    }
    var minFee := TemplateFee(rules.cr, blocks, rules.feeAct);
    var groups := GroupBySender(rules.cr, mempool, qs);
    var c := Context(rules.cr, blocks, state, mempool, groups, minFee);
    var picked := SelectTxs(c);
    var fees := SumFees(c, picked);
    var time := now;
    var mt := MedianTimeOf(blocks);
    if time <= mt {
      time := mt + 1;
    }
    if time > now + MAX_FUTURE_DRIFT {
      return MedianAhead;
    }
    var target := TemplateTarget(blocks, rules.lwmaAct);
    var b := Assemble(rules.cr, blocks, payee, picked, fees, time, target);
    AssembledOk(rules, c, picked, fees, time, now, payee);
    AssembledTemplate(rules, c, picked, fees, time, now, payee);
    AssembledHeader(rules.cr, blocks, payee, picked, fees, time, target);
    r := Built(b);
  }

  /** The fee total over the selected transactions. */
  method SumFees(c: Context, picked: seq<Tx>) returns (fees: u64)
    requires Body(c, picked)
    ensures fees == TotalFees(picked)
  {
    fees := 0;
    for i := 0 to |picked|
      invariant fees == TotalFees(picked[..i])
    {
      assert picked[..i + 1][..i] == picked[..i];
      BodyOkWeaken(c.cr, c.blocks, c.state, picked, c.minFee);
      BodyMember(c.cr, c.blocks, c.state, picked, i);
      fees := Add64(fees, picked[i].fee);
    }
    assert picked[..|picked|] == picked;
  }
}
