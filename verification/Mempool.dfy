/** The mempool and its per-sender index (core/chain.go AddTx, validateMempoolTxLocked, mpAdd,
    mpDel, pruneMempoolLocked). */
module Mempool {
  import opened Types
  import opened Ledger
  import opened Activation
  import opened Validation

  // ------------------------------------------------------ nonce-ordered queues

  const POOL_LIMIT := 10000

  ghost predicate Ordered(q: seq<Tx>) {
    forall i, j :: 0 <= i < j < |q| ==> q[i].nonce < q[j].nonce
  }

  /** `t` placed before the first entry whose nonce is not smaller. */
  function Inserted(q: seq<Tx>, t: Tx): seq<Tx> {
    if q == [] || q[0].nonce >= t.nonce then [t] + q else [q[0]] + Inserted(q[1..], t)
  }

  lemma {:induction false} InsertedAt(q: seq<Tx>, t: Tx, i: nat)
    requires i <= |q| && (forall k :: 0 <= k < i ==> q[k].nonce < t.nonce) && (i < |q| ==> q[i].nonce >= t.nonce)
    ensures Inserted(q, t) == q[..i] + [t] + q[i..]
  {
    if i > 0 {
      InsertedAt(q[1..], t, i - 1);
      assert q[..i] == [q[0]] + q[1..][..i - 1];
      assert q[i..] == q[1..][i - 1..];
    } else {
      assert q[..0] + [t] + q[0..] == [t] + q;
    }
  }

  function Without(q: seq<Tx>, i: nat): seq<Tx>
    requires i < |q|
  {
    q[..i] + q[i + 1..]
  }

  /** Taking an entry out of a queue and inserting it again restores the queue. */
  lemma {:induction false} RemoveInsert(q: seq<Tx>, i: nat)
    requires Ordered(q) && i < |q|
    ensures Inserted(Without(q, i), q[i]) == q
  {
    var r := Without(q, i);
    InsertedAt(r, q[i], i);
    assert r[..i] + [q[i]] + r[i..] == q;
  }

  /** sort.Search for the insertion point. */
  method SearchNonce(q: seq<Tx>, nonce: u64) returns (i: nat)
    requires Ordered(q)
    ensures i <= |q|
    ensures forall k :: 0 <= k < i ==> q[k].nonce < nonce
    ensures forall k :: i <= k < |q| ==> q[k].nonce >= nonce
  {
    var j := |q|;
    i := 0;
    while i < j
      invariant 0 <= i <= j <= |q|
      invariant forall k :: 0 <= k < i ==> q[k].nonce < nonce
      invariant forall k :: j <= k < |q| ==> q[k].nonce >= nonce
    {
      var h := (i + j) / 2;
      if q[h].nonce < nonce {
        i := h + 1;
      } else {
        j := h;
      }
    }
  }

  // -------------------------------------------------------- admission of one tx

  /** The next executable nonce after walking a sender's queue, and what that run spends. */
  datatype Frontier = Frontier(nonce: u64, spent: u64)

  function Walk(start: u64, q: seq<Tx>): Frontier {
    if q == [] then Frontier(start, 0) else
      var f, m := Walk(start, q[..|q| - 1]), q[|q| - 1];
      if m.nonce == f.nonce then Frontier(Add64(f.nonce, 1), Add64(f.spent, Add64(m.amount, m.fee))) else f
  }

  predicate Holds(q: seq<Tx>, nonce: int) {
    exists i :: 0 <= i < |q| && q[i].nonce == nonce
  }

  /** The walk finds the least nonce from the account's on that the queue does not hold. */
  lemma {:induction false} WalkLeastMissing(start: u64, q: seq<Tx>)
    requires Ordered(q) && forall i :: 0 <= i < |q| ==> start <= q[i].nonce < TWO64 - 1
    ensures start <= Walk(start, q).nonce && !Holds(q, Walk(start, q).nonce)
    ensures forall n :: start <= n < Walk(start, q).nonce ==> Holds(q, n)
  {
    if q != [] {
      var r, m := q[..|q| - 1], q[|q| - 1];
      WalkLeastMissing(start, r);
      var f, g := Walk(start, r), Walk(start, q);
      forall n | start <= n < g.nonce ensures Holds(q, n) {
        if n < f.nonce {
          assert Holds(r, n);
          var i :| 0 <= i < |r| && r[i].nonce == n;
          assert q[i].nonce == n;
        } else {
          assert q[|q| - 1].nonce == n;
        }
      }
      forall i | 0 <= i < |q| ensures q[i].nonce != g.nonce {
        if i < |r| {
          assert r[i] == q[i] && !Holds(r, f.nonce);
        }
      }
    }
  }

  datatype Reason = CoinbaseTx | Duplicate | FeeBump | PoolFull | BadSignature | LowFee | StaleNonce | FarNonce | QueueFull | Unfunded

  datatype Outcome = Accepted | Refused(reason: Reason)

  /** validateMempoolTxLocked against the sender's queue `q`. */
  ghost function Admission(cr: Crypto, blocks: seq<Block>, st: State, feeAct: nat, q: seq<Tx>, t: Tx): Outcome {
    var acc := Get(st, t.From());
    var f := Walk(acc.nonce, q);
    var avail := Spendable(acc.balance, ImmatureAt(blocks, |blocks|, t.From()));
    if !SigOk(cr, t, |blocks|) then Refused(BadSignature)
    else if t.fee < RequiredFee(cr, feeAct, blocks) then Refused(LowFee)
    else if t.nonce < acc.nonce then Refused(StaleNonce)
    else if t.nonce > Add64(f.nonce, MAX_MEMPOOL_NONCE_GAP) then Refused(FarNonce)
    else if |q| >= MAX_MEMPOOL_TXNS_PER_SENDER then Refused(QueueFull)
    else if t.nonce == f.nonce then
      if avail < Add64(Add64(f.spent, t.amount), t.fee) then Refused(Unfunded) else Accepted
    else if avail < Add64(t.amount, t.fee) then Refused(Unfunded) else Accepted
  }

  method ValidateMempoolTx(cr: Crypto, blocks: seq<Block>, state: State, feeAct: nat, maxReorg: nat, q: seq<Tx>,
      t: Tx)
    returns (r: Outcome, state': State, feeAct': nat)
    ensures r == Admission(cr, blocks, state, feeAct, q, t)
    ensures Same(state', state)
    ensures feeAct' == feeAct || feeAct' == Filled(feeAct, blocks, FEE_GATE, maxReorg)
  {
    state', feeAct' := state, feeAct;
    if !SigOk(cr, t, |blocks|) {
      return Refused(BadSignature), state', feeAct';
    }
    if |blocks| >= MIN_FEE_HEIGHT {
      var a;
      a, feeAct' := ActivationCached(feeAct, blocks, FEE_GATE, maxReorg);
      var m := MinFeeOf(cr, blocks, a != 0 && |blocks| >= a);
      if t.fee < m {
        return Refused(LowFee), state', feeAct';
      }
    }
    var from := t.From();
    state' := Touch(state, from);
    var acc := Get(state', from);
    var nonce, spent, held := acc.nonce, 0 as u64, 0;
    for i := 0 to |q|
      invariant held == i
      invariant Frontier(nonce, spent) == Walk(acc.nonce, q[..i])
    {
      assert q[..i + 1][..i] == q[..i];
      held := held + 1;
      if q[i].nonce == nonce {
        nonce := Add64(nonce, 1);
        spent := Add64(spent, Add64(q[i].amount, q[i].fee));
      }
    }
    assert q[..|q|] == q;
    if t.nonce < acc.nonce {
      return Refused(StaleNonce), state', feeAct';
    }
    if t.nonce > Add64(nonce, MAX_MEMPOOL_NONCE_GAP) {
      return Refused(FarNonce), state', feeAct';
    }
    if held >= MAX_MEMPOOL_TXNS_PER_SENDER {
      return Refused(QueueFull), state', feeAct';
    }
    var imm := ImmatureCoinbase(blocks, |blocks|);
    var avail := Spendable(acc.balance, Lookup(imm, from));
    if t.nonce == nonce {
      if avail < Add64(Add64(spent, t.amount), t.fee) {
        return Refused(Unfunded), state', feeAct';
      }
      return Accepted, state', feeAct';
    }
    if avail < Add64(t.amount, t.fee) {
      return Refused(Unfunded), state', feeAct';
    }
    r := Accepted;
  }

  // ------------------------------------------------- what an admitted tx can rely on

  /** The transactions of the queue that the walk counts as executable. */
  function RunOf(start: u64, q: seq<Tx>): seq<Tx> {
    if q == [] then [] else
      var rest, m := q[..|q| - 1], q[|q| - 1];
      if m.nonce == Walk(start, rest).nonce then RunOf(start, rest) + [m] else RunOf(start, rest)
  }

  /** What `txs` cost their sender, as a natural number. */
  function Cost(txs: seq<Tx>): nat {
    if txs == [] then 0 else Cost(txs[..|txs| - 1]) + txs[|txs| - 1].amount + txs[|txs| - 1].fee
  }

  /** What `txs` take from their sender: a payment to itself comes back. */
  function Net(txs: seq<Tx>): nat {
    if txs == [] then 0 else
      var t := txs[|txs| - 1];
      Net(txs[..|txs| - 1]) + t.fee + if t.to == t.From() then 0 else t.amount
  }

  /** The largest outlay on the way: what one of `txs` costs on top of what those before it took. */
  function Peak(txs: seq<Tx>): nat {
    if txs == [] then 0 else
      var rest, t := txs[..|txs| - 1], txs[|txs| - 1];
      var here := Net(rest) + t.amount + t.fee;
      if Peak(rest) < here then here else Peak(rest)
  }

  function NonceAfter(start: u64, txs: seq<Tx>): u64 {
    if txs == [] then start else Add64(NonceAfter(start, txs[..|txs| - 1]), 1)
  }

  /** The nonces count up from `start`. */
  predicate Consecutive(start: u64, txs: seq<Tx>) {
    txs == [] ||
    (Consecutive(start, txs[..|txs| - 1]) && txs[|txs| - 1].nonce == NonceAfter(start, txs[..|txs| - 1]))
  }

  /** Each of `txs` in turn passes validation against the state left by those before it. */
  predicate Executable(cr: Crypto, st: State, txs: seq<Tx>, immature: u64, height: nat) {
    txs == [] ||
    (var rest := txs[..|txs| - 1];
     Executable(cr, st, rest, immature, height) && TxOk(cr, ApplyTxs(st, rest), txs[|txs| - 1], immature, height))
  }

  predicate SignedBy(cr: Crypto, txs: seq<Tx>, a: Text, height: nat) {
    forall t :: t in txs ==> t.SentBy(a) && SigOk(cr, t, height)
  }

  predicate PaysOthers(txs: seq<Tx>) {
    forall t :: t in txs ==> t.to != t.From()
  }

  lemma {:induction false} SumMod(c: nat, a: u64, f: u64)
    ensures Add64(Low64(c), Add64(a, f)) == Low64(c + a + f)
    ensures Add64(Add64(Low64(c), a), f) == Low64(c + a + f)
  {
  }

  /** The walk's sum is the run's cost modulo 2^64, and its nonce the one after the run. */
  lemma {:induction false} WalkOfRun(start: u64, q: seq<Tx>)
    ensures Walk(start, q) == Frontier(NonceAfter(start, RunOf(start, q)), Low64(Cost(RunOf(start, q))))
    ensures Consecutive(start, RunOf(start, q))
    ensures forall t :: t in RunOf(start, q) ==> t in q
  {
    if q != [] {
      var rest, m := q[..|q| - 1], q[|q| - 1];
      WalkOfRun(start, rest);
      var run := RunOf(start, rest);
      assert (run + [m])[..|run|] == run;
      SumMod(Cost(run), m.amount, m.fee);
      hide Add64;
    }
  }

  /** Applying an affordable transfer takes exactly its cost, less what the sender pays itself. */
  lemma {:induction false} TransferCost(st: State, t: Tx, a: Text)
    requires t.SentBy(a) && t.amount + t.fee <= Get(st, a).balance
    ensures var acc := Get(ApplyTx(st, t), a);
      && acc.balance == Get(st, a).balance - t.amount - t.fee + (if t.to == a then t.amount else 0)
      && acc.nonce == Add64(Get(st, a).nonce, 1)
  {
  }

  /** The outlay up to here, compared with what was spendable at the start. */
  lemma {:induction false} TransferFunded(cr: Crypto, st: State, t: Tx, a: Text, imm: u64, height: nat, bal: u64,
      net: nat)
    requires t.SentBy(a) && SigOk(cr, t, height) && t.nonce == Get(st, a).nonce && Get(st, a).balance == bal - net
    ensures TxOk(cr, st, t, imm, height) <==> net + t.amount + t.fee <= Spendable(bal, imm)
  {
    assert t.amount != 0;
    hide SigOk;
  }

  /** A run is executed exactly when its largest outlay is spendable. */
  lemma {:induction false} RunFunded(cr: Crypto, st: State, txs: seq<Tx>, a: Text, imm: u64, height: nat)
    requires SignedBy(cr, txs, a, height) && Consecutive(Get(st, a).nonce, txs)
    ensures Executable(cr, st, txs, imm, height) <==> Peak(txs) <= Spendable(Get(st, a).balance, imm)
    ensures Executable(cr, st, txs, imm, height) ==>
      var acc := Get(ApplyTxs(st, txs), a);
      acc == Account(Get(st, a).balance - Net(txs), NonceAfter(Get(st, a).nonce, txs))
  {
    if txs != [] {
      var rest, t := txs[..|txs| - 1], txs[|txs| - 1];
      assert t in txs && forall x :: x in rest ==> x in txs;
      RunFunded(cr, st, rest, a, imm, height);
      hide SigOk;
      if Executable(cr, st, rest, imm, height) {
        TransferFunded(cr, ApplyTxs(st, rest), t, a, imm, height, Get(st, a).balance, Net(rest));
        hide TxOk, ApplyTx, Spendable;
        if TxOk(cr, ApplyTxs(st, rest), t, imm, height) {
          SpendableBound(Get(st, a).balance, imm);
          TransferCost(ApplyTxs(st, rest), t, a);
        }
      }
    }
  }

  lemma {:induction false} SpendableBound(bal: u64, imm: u64)
    ensures Spendable(bal, imm) <= bal
  {
  }

  /** The largest outlay is at most the cost, and equal to it when only the last may pay its own
      sender. */
  lemma {:induction false} PeakIsCost(txs: seq<Tx>)
    ensures Peak(txs) <= Cost(txs) && Net(txs) <= Cost(txs)
    ensures PaysOthers(txs) ==> Net(txs) == Cost(txs)
    ensures txs != [] && PaysOthers(txs[..|txs| - 1]) ==> Peak(txs) == Cost(txs)
  {
    if txs != [] {
      var rest, t := txs[..|txs| - 1], txs[|txs| - 1];
      assert t in txs && forall x :: x in rest ==> x in txs;
      PeakIsCost(rest);
    }
  }

  /** A transaction admitted at the frontier can be executed after the run before it exactly when
      the largest outlay of both is spendable. That is so whenever their cost fits in a uint64, and
      only then unless the run pays its own sender. */
  lemma {:induction false} FrontierFundable(cr: Crypto, blocks: seq<Block>, st: State, feeAct: nat, q: seq<Tx>, t: Tx)
    requires Admission(cr, blocks, st, feeAct, q, t).Accepted? && SignedBy(cr, q, t.From(), |blocks|)
    requires t.nonce == Walk(Get(st, t.From()).nonce, q).nonce
    ensures var run := RunOf(Get(st, t.From()).nonce, q);
      var imm := ImmatureAt(blocks, |blocks|, t.From());
      var fundable := Executable(cr, st, run + [t], imm, |blocks|);
      && (fundable <==> Peak(run + [t]) <= Spendable(Get(st, t.From()).balance, imm))
      && (Cost(run + [t]) < TWO64 ==> fundable)
      && (PaysOthers(run) ==> (fundable <==> Cost(run + [t]) < TWO64))
  {
    var a, imm := t.From(), ImmatureAt(blocks, |blocks|, t.From());
    var run := RunOf(Get(st, a).nonce, q);
    AdmittedCost(cr, blocks, st, feeAct, q, t);
    FrontierRun(cr, Get(st, a).nonce, q, t, |blocks|);
    RunFunded(cr, st, run + [t], a, imm, |blocks|);
    PeakIsCost(run + [t]);
    assert (run + [t])[..|run|] == run;
    hide Executable, Peak, Net, Cost, RunOf, Walk, ImmatureAt, Admission, Spendable, SignedBy, Consecutive, PaysOthers;
    hide ApplyTxs, Get;
    if Cost(run + [t]) < TWO64 {
      Fits64(Cost(run + [t]));
    }
  }

  /** At the frontier the admission compares the wrapped cost with what is spendable. */
  lemma {:induction false} AdmittedCost(cr: Crypto, blocks: seq<Block>, st: State, feeAct: nat, q: seq<Tx>, t: Tx)
    requires Admission(cr, blocks, st, feeAct, q, t).Accepted?
    requires t.nonce == Walk(Get(st, t.From()).nonce, q).nonce
    ensures t.SentBy(t.From()) && SigOk(cr, t, |blocks|)
    ensures var avail := Spendable(Get(st, t.From()).balance, ImmatureAt(blocks, |blocks|, t.From()));
      avail >= Low64(Cost(RunOf(Get(st, t.From()).nonce, q) + [t]))
  {
    var start := Get(st, t.From()).nonce;
    var run := RunOf(start, q);
    WalkOfRun(start, q);
    assert (run + [t])[..|run|] == run;
    assert Cost(run + [t]) == Cost(run) + t.amount + t.fee;
    SumMod(Cost(run), t.amount, t.fee);
    hide RequiredFee, ImmatureAt, Add64, Walk, RunOf, Cost, Spendable;
  }

  lemma {:induction false} FrontierRun(cr: Crypto, start: u64, q: seq<Tx>, t: Tx, height: nat)
    requires SignedBy(cr, q, t.From(), height) && t.SentBy(t.From()) && SigOk(cr, t, height)
    requires t.nonce == Walk(start, q).nonce
    ensures SignedBy(cr, RunOf(start, q) + [t], t.From(), height) && Consecutive(start, RunOf(start, q) + [t])
  {
    var run := RunOf(start, q);
    hide SigOk;
    WalkOfRun(start, q);
    assert (run + [t])[..|run|] == run;
  }

  /** `n` is the least nonce from `start` on that the queue does not hold. */
  ghost predicate IsFrontier(start: u64, q: seq<Tx>, n: u64) {
    start <= n && !Holds(q, n) && forall m: int :: start <= m < n ==> Holds(q, m)
  }

  /** The run the walk counts is the part of the queue below the frontier. */
  lemma {:induction false} RunIsPrefix(start: u64, q: seq<Tx>)
    requires Ordered(q) && forall i :: 0 <= i < |q| ==> start <= q[i].nonce < TWO64 - 1
    ensures var f := Walk(start, q).nonce;
      && 0 <= f - start <= |q| && RunOf(start, q) == q[..f - start]
      && (forall i :: 0 <= i < f - start ==> q[i].nonce == start + i)
      && (f - start < |q| ==> q[f - start].nonce > f)
  {
    if q != [] {
      var rest, m := q[..|q| - 1], q[|q| - 1];
      RunIsPrefix(start, rest);
      var k := Walk(start, rest).nonce - start;
      LastNonce(start, q, k);
      hide Ordered, Walk, RunOf;
      WalkStep(start, q);
      if m.nonce == start + k {
        assert q[..k + 1] == rest + [m];
      } else {
        assert q[..k] == rest[..k];
      }
    }
  }

  lemma {:induction false} WalkStep(start: u64, q: seq<Tx>)
    requires q != [] && q[|q| - 1].nonce < TWO64 - 1
    ensures var f, m := Walk(start, q[..|q| - 1]).nonce, q[|q| - 1];
      && Walk(start, q).nonce == (if m.nonce == f then f + 1 else f)
      && RunOf(start, q) == if m.nonce == f then RunOf(start, q[..|q| - 1]) + [m] else RunOf(start, q[..|q| - 1])
  {
  }

  lemma {:induction false} LastNonce(start: u64, q: seq<Tx>, k: nat)
    requires q != [] && Ordered(q) && start <= q[0].nonce && k < |q|
    requires forall i :: 0 <= i < k ==> q[i].nonce == start + i
    ensures q[|q| - 1].nonce >= start + k && (k < |q| - 1 ==> q[k].nonce < q[|q| - 1].nonce)
  {
    assert k > 0 ==> q[k - 1].nonce < q[|q| - 1].nonce;
    assert k == 0 ==> q[0].nonce <= q[|q| - 1].nonce;
  }

  lemma {:induction false} FrontierIs(start: u64, q: seq<Tx>, n: u64)
    requires Ordered(q) && forall i :: 0 <= i < |q| ==> start <= q[i].nonce < TWO64 - 1
    requires IsFrontier(start, q, n)
    ensures n == Walk(start, q).nonce && 0 <= n - start <= |q| && RunOf(start, q) == q[..n - start]
  {
    WalkLeastMissing(start, q);
    RunIsPrefix(start, q);
    var f := Walk(start, q).nonce;
    hide Walk, Holds, RunOf;
    assert n < f ==> Holds(q, n);
    assert f < n ==> Holds(q, f);
  }

  lemma {:induction false} Wraps(a: u64, b: u64)
    ensures Add64(a, b) == Low64(a + b)
  {
  }

  /** Admission in full: a transaction is admitted exactly when it is well signed, pays the fee
      floor, lies between the account's nonce and 256 above the frontier `n`, finds fewer than 4096
      of its sender's queued, and what is spendable covers its amount and fee, at the frontier
      together with everything queued below. The bounds are taken in 64 bits. */
  lemma {:induction false} AdmittedExactly(cr: Crypto, blocks: seq<Block>, st: State, feeAct: nat, q: seq<Tx>, t: Tx,
      n: u64)
    requires Ordered(q) && forall i :: 0 <= i < |q| ==> Get(st, t.From()).nonce <= q[i].nonce < TWO64 - 1
    requires IsFrontier(Get(st, t.From()).nonce, q, n)
    ensures var acc, avail := Get(st, t.From()), Spendable(Get(st, t.From()).balance, ImmatureAt(blocks, |blocks|, t.From()));
      0 <= n - acc.nonce <= |q| &&
      (Admission(cr, blocks, st, feeAct, q, t).Accepted? <==>
        && SigOk(cr, t, |blocks|) && t.fee >= RequiredFee(cr, feeAct, blocks) && |q| < 4096
        && acc.nonce <= t.nonce <= Low64(n + 256)
        && Low64(if t.nonce == n then Cost(q[..n - acc.nonce] + [t]) else t.amount + t.fee) <= avail)
  {
    AskedOf(Get(st, t.From()).nonce, q, t, n);
    AdmittedWhen(cr, blocks, st, feeAct, q, t);
    hide *;
  }

  /** What the admission compares with the spendable balance, in terms of the frontier. */
  lemma {:induction false} AskedOf(start: u64, q: seq<Tx>, t: Tx, n: u64)
    requires Ordered(q) && forall i :: 0 <= i < |q| ==> start <= q[i].nonce < TWO64 - 1
    requires IsFrontier(start, q, n)
    ensures 0 <= n - start <= |q| && Walk(start, q).nonce == n && Add64(n, 256) == Low64(n + 256)
    ensures Add64(Add64(Walk(start, q).spent, t.amount), t.fee) == Low64(Cost(q[..n - start] + [t]))
    ensures Add64(t.amount, t.fee) == Low64(t.amount + t.fee)
  {
    hide Walk, RunOf, Cost, Add64, Low64, Ordered, IsFrontier, Consecutive, NonceAfter;
    FrontierIs(start, q, n);
    WalkOfRun(start, q);
    AppendedCost(RunOf(start, q), t);
    Wraps(n, 256);
    Wraps(t.amount, t.fee);
  }

  lemma {:induction false} AppendedCost(run: seq<Tx>, t: Tx)
    ensures Add64(Add64(Low64(Cost(run)), t.amount), t.fee) == Low64(Cost(run + [t]))
  {
    assert (run + [t])[..|run|] == run;
    assert Cost(run + [t]) == Cost(run) + t.amount + t.fee;
    SumMod(Cost(run), t.amount, t.fee);
  }

  lemma {:induction false} AdmittedWhen(cr: Crypto, blocks: seq<Block>, st: State, feeAct: nat, q: seq<Tx>, t: Tx)
    ensures var acc, f := Get(st, t.From()), Walk(Get(st, t.From()).nonce, q);
      var avail := Spendable(acc.balance, ImmatureAt(blocks, |blocks|, t.From()));
      Admission(cr, blocks, st, feeAct, q, t).Accepted? <==>
        && SigOk(cr, t, |blocks|) && t.fee >= RequiredFee(cr, feeAct, blocks) && |q| < 4096
        && acc.nonce <= t.nonce <= Add64(f.nonce, 256)
        && (if t.nonce == f.nonce then Add64(Add64(f.spent, t.amount), t.fee) else Add64(t.amount, t.fee)) <= avail
  {
    hide SigOk, RequiredFee, ImmatureAt, Add64, Walk, Spendable, Get;
  }

  /** A transaction ahead of the frontier, judged on any state `st'` in which its turn has come and
      the balance is the same. An admitted one is valid there exactly when its amount and fee do not
      wrap, and one that is valid there is admitted within the limits on fee, gap and queue. */
  lemma {:induction false} QueuedFundable(cr: Crypto, blocks: seq<Block>, st: State, feeAct: nat, q: seq<Tx>, t: Tx,
      n: u64, st': State)
    requires Ordered(q) && forall i :: 0 <= i < |q| ==> Get(st, t.From()).nonce <= q[i].nonce < TWO64 - 1
    requires IsFrontier(Get(st, t.From()).nonce, q, n) && t.nonce != n
    requires Get(st', t.From()) == Account(Get(st, t.From()).balance, t.nonce)
    ensures var imm := ImmatureAt(blocks, |blocks|, t.From());
      var admitted, payable := Admission(cr, blocks, st, feeAct, q, t).Accepted?, TxOk(cr, st', t, imm, |blocks|);
      var within := Get(st, t.From()).nonce <= t.nonce <= n + 256 < 0x1_0000_0000_0000_0000 && |q| < 4096;
      && (admitted ==> (payable <==> t.amount + t.fee < 0x1_0000_0000_0000_0000))
      && (payable && within && t.fee >= RequiredFee(cr, feeAct, blocks) ==> admitted)
  {
    AdmittedExactly(cr, blocks, st, feeAct, q, t, n);
    hide SigOk, RequiredFee, ImmatureAt, Admission, Spendable, IsFrontier, Ordered, Cost;
    if t.amount + t.fee < TWO64 {
      Fits64(t.amount + t.fee);
    }
    if n + 256 < TWO64 {
      Fits64(n + 256);
    }
  }

  lemma {:induction false} Fits64(x: nat)
    requires x < TWO64
    ensures Low64(x) == x
  {
  }

  // --------------------------------------------------------------- the pool

  type TxMap = map<nat, Tx>
  type Queues = map<Text, seq<Tx>>

  function QueueOf(qs: Queues, a: Text): seq<Tx> {
    if a in qs then qs[a] else []
  }

  /** One queue: non-empty, this sender's transactions only, in strict nonce order, all pooled. */
  ghost predicate QueueOk(cr: Crypto, mp: TxMap, qs: Queues, a: Text)
    requires a in qs
  {
    var q := qs[a];
    && 0 < |q| <= MAX_MEMPOOL_TXNS_PER_SENDER
    && Ordered(q)
    && forall i :: 0 <= i < |q| ==> q[i].SentBy(a) && cr.txId(q[i]) in mp && mp[cr.txId(q[i])] == q[i]
  }

  ghost predicate Pooled(cr: Crypto, mp: TxMap, qs: Queues, id: nat)
    requires id in mp
  {
    cr.txId(mp[id]) == id && mp[id].sender.Key? && mp[id] in QueueOf(qs, mp[id].From())
  }

  /** The map and the index hold the same transactions, within the size limits. */
  ghost predicate PoolOk(cr: Crypto, mp: TxMap, qs: Queues) {
    && |mp| <= POOL_LIMIT + 1
    && (forall a :: a in qs ==> QueueOk(cr, mp, qs, a))
    && (forall id :: id in mp ==> Pooled(cr, mp, qs, id))
  }

  /** At most one pooled transaction exists per sender and nonce. */
  lemma {:induction false} OnePerNonce(cr: Crypto, mp: TxMap, qs: Queues, x: nat, y: nat)
    requires PoolOk(cr, mp, qs) && x in mp && y in mp
    requires mp[x].From() == mp[y].From() && mp[x].nonce == mp[y].nonce
    ensures x == y
  {
    var a := mp[x].From();
    assert Pooled(cr, mp, qs, x) && Pooled(cr, mp, qs, y) && QueueOk(cr, mp, qs, a);
    SameEntry(qs[a], mp[x], mp[y]);
  }

  lemma {:induction false} SameEntry(q: seq<Tx>, t: Tx, u: Tx)
    requires Ordered(q) && t in q && u in q && t.nonce == u.nonce
    ensures t == u
  {
    var i :| 0 <= i < |q| && q[i] == t;
    var j :| 0 <= j < |q| && q[j] == u;
    assert i == j;
  }

  function Placed(qs: Queues, t: Tx): Queues {
    qs[t.From() := Inserted(QueueOf(qs, t.From()), t)]
  }

  function Dropped(qs: Queues, a: Text, i: nat): Queues
    requires i < |QueueOf(qs, a)|
  {
    var q := Without(qs[a], i);
    if q == [] then qs - {a} else qs[a := q]
  }

  /** Dropping a transaction and placing it again gives back the same index. */
  lemma {:induction false} DropPlace(qs: Queues, a: Text, i: nat)
    requires i < |QueueOf(qs, a)| && Ordered(qs[a]) && qs[a][i].SentBy(a)
    ensures Placed(Dropped(qs, a, i), qs[a][i]) == qs
  {
    RemoveInsert(qs[a], i);
    assert QueueOf(Dropped(qs, a, i), a) == Without(qs[a], i);
  }

  /** Inserting a new nonce keeps a queue ordered and adds exactly that transaction. */
  lemma {:induction false} InsertedOk(q: seq<Tx>, t: Tx)
    requires Ordered(q) && !Holds(q, t.nonce)
    ensures Ordered(Inserted(q, t)) && |Inserted(q, t)| == |q| + 1
    ensures forall x :: x in Inserted(q, t) <==> x == t || x in q
  {
    var i := InsertionPoint(q, t.nonce);
    InsertedAt(q, t, i);
    SpliceMembers(q, t, i);
  }

  lemma {:induction false} SpliceMembers(q: seq<Tx>, t: Tx, i: nat)
    requires i <= |q|
    ensures forall x :: x in q[..i] + [t] + q[i..] <==> x == t || x in q
  {
    assert q == q[..i] + q[i..];
  }

  ghost function InsertionPoint(q: seq<Tx>, nonce: u64): (i: nat)
    requires Ordered(q) && !Holds(q, nonce)
    ensures i <= |q|
    ensures forall k :: 0 <= k < i ==> q[k].nonce < nonce
    ensures forall k :: i <= k < |q| ==> q[k].nonce > nonce
  {
    if q == [] then 0
    else if q[|q| - 1].nonce < nonce then |q|
    else
      assert forall n :: Holds(q[..|q| - 1], n) ==> Holds(q, n);
      assert Holds(q, q[|q| - 1].nonce);
      InsertionPoint(q[..|q| - 1], nonce)
  }

  lemma {:induction false} WithoutOk(q: seq<Tx>, i: nat)
    requires Ordered(q) && i < |q|
    ensures Ordered(Without(q, i)) && |Without(q, i)| == |q| - 1
    ensures forall x :: x in Without(q, i) <==> x in q && x != q[i]
  {
    var r := Without(q, i);
    forall k | 0 <= k < |r| ensures r[k] == q[if k < i then k else k + 1] {
    }
    forall x | x in r ensures x in q && x != q[i] {
      var k :| 0 <= k < |r| && r[k] == x;
      assert r[k] == q[if k < i then k else k + 1];
    }
    forall x | x in q && x != q[i] ensures x in r {
      var k :| 0 <= k < |q| && q[k] == x;
      assert r[if k < i then k else k - 1] == x;
    }
  }

  /** QueueOk stated by membership. */
  lemma {:induction false} QueueMembers(cr: Crypto, mp: TxMap, qs: Queues, a: Text)
    requires a in qs && 0 < |qs[a]| <= MAX_MEMPOOL_TXNS_PER_SENDER && Ordered(qs[a])
    requires forall x: Tx :: x in qs[a] ==> x.SentBy(a) && cr.txId(x) in mp && mp[cr.txId(x)] == x
    ensures QueueOk(cr, mp, qs, a)
  {
  }

  /** A queue that is not touched stays good when a transaction of another queue leaves or a new
      transaction enters the map. */
  lemma {:induction false} QueueKept(cr: Crypto, mp: TxMap, mp': TxMap, qs: Queues, qs': Queues, b: Text, t: Tx)
    requires b in qs && b in qs' && qs'[b] == qs[b] && QueueOk(cr, mp, qs, b)
    requires !t.SentBy(b) || cr.txId(t) !in mp
    requires forall id :: id in mp && mp[id] != t ==> id in mp' && mp'[id] == mp[id]
    ensures QueueOk(cr, mp', qs', b)
  {
    hide Ordered;
  }

  lemma {:induction false} PoolAt(cr: Crypto, mp: TxMap, qs: Queues, a: Text)
    requires PoolOk(cr, mp, qs) && a in qs
    ensures QueueOk(cr, mp, qs, a)
  {
    hide QueueOk, Pooled;
  }

  lemma {:induction false} PooledAt(cr: Crypto, mp: TxMap, qs: Queues, id: nat)
    requires PoolOk(cr, mp, qs) && id in mp
    ensures Pooled(cr, mp, qs, id)
  {
    hide QueueOk, Pooled;
  }

  /** What PoolOk says about one sender's queue, present or not. */
  lemma {:induction false} QueueFacts(cr: Crypto, mp: TxMap, qs: Queues, a: Text)
    requires PoolOk(cr, mp, qs)
    ensures Ordered(QueueOf(qs, a)) && |QueueOf(qs, a)| <= MAX_MEMPOOL_TXNS_PER_SENDER
    ensures a in qs ==> qs[a] != []
    ensures forall x :: x in QueueOf(qs, a) ==> x.SentBy(a) && cr.txId(x) in mp && mp[cr.txId(x)] == x
  {
    if a in qs {
      PoolAt(cr, mp, qs, a);
    }
    hide PoolOk;
  }

  lemma {:induction false} PlacedQueue(cr: Crypto, mp: TxMap, qs: Queues, t: Tx)
    requires PoolOk(cr, mp, qs) && t.sender.Key? && cr.txId(t) !in mp
    requires |QueueOf(qs, t.From())| < MAX_MEMPOOL_TXNS_PER_SENDER
    requires !Holds(QueueOf(qs, t.From()), t.nonce)
    ensures QueueOk(cr, mp[cr.txId(t) := t], Placed(qs, t), t.From())
    ensures forall x :: x in Placed(qs, t)[t.From()] <==> x == t || x in QueueOf(qs, t.From())
  {
    hide PoolOk, QueueOk, Inserted, Ordered, Holds;
    var a := t.From();
    QueueFacts(cr, mp, qs, a);
    InsertedOk(QueueOf(qs, a), t);
    QueueMembers(cr, mp[cr.txId(t) := t], Placed(qs, t), a);
  }

  lemma {:induction false} PlaceOk(cr: Crypto, mp: TxMap, qs: Queues, t: Tx)
    requires PoolOk(cr, mp, qs) && t.sender.Key? && cr.txId(t) !in mp
    requires |mp| <= POOL_LIMIT && |QueueOf(qs, t.From())| < MAX_MEMPOOL_TXNS_PER_SENDER
    requires !Holds(QueueOf(qs, t.From()), t.nonce)
    ensures PoolOk(cr, mp[cr.txId(t) := t], Placed(qs, t))
  {
    hide PoolOk, QueueOk, Inserted, Holds;
    var id, a := cr.txId(t), t.From();
    var mp', qs' := mp[id := t], Placed(qs, t);
    PlacedQueue(cr, mp, qs, t);
    forall b | b in qs' ensures QueueOk(cr, mp', qs', b) {
      if b != a {
        PoolAt(cr, mp, qs, b);
        QueueKept(cr, mp, mp', qs, qs', b, t);
      }
    }
    forall x | x in mp' ensures Pooled(cr, mp', qs', x) {
      if x != id {
        PooledAt(cr, mp, qs, x);
      }
    }
    MakePool(cr, mp', qs');
  }

  lemma {:induction false} MakePool(cr: Crypto, mp: TxMap, qs: Queues)
    requires |mp| <= POOL_LIMIT + 1
    requires forall a :: a in qs ==> QueueOk(cr, mp, qs, a)
    requires forall id :: id in mp ==> Pooled(cr, mp, qs, id)
    ensures PoolOk(cr, mp, qs)
  {
    hide QueueOk, Pooled;
  }

  lemma {:induction false} DroppedQueue(cr: Crypto, mp: TxMap, qs: Queues, a: Text, i: nat)
    requires PoolOk(cr, mp, qs) && i < |QueueOf(qs, a)|
    ensures forall x :: x in QueueOf(Dropped(qs, a, i), a) <==> x in qs[a] && x != qs[a][i]
    ensures a in Dropped(qs, a, i) ==> QueueOk(cr, mp - {cr.txId(qs[a][i])}, Dropped(qs, a, i), a)
  {
    hide PoolOk, QueueOk, Without, Ordered;
    QueueFacts(cr, mp, qs, a);
    assert qs[a][i] in qs[a];
    WithoutOk(qs[a], i);
    if a in Dropped(qs, a, i) {
      QueueMembers(cr, mp - {cr.txId(qs[a][i])}, Dropped(qs, a, i), a);
    }
  }

  lemma {:induction false} DropSize(cr: Crypto, mp: TxMap, qs: Queues, id: nat)
    requires PoolOk(cr, mp, qs) && id in mp
    ensures |mp - {id}| == |mp| - 1 <= POOL_LIMIT
  {
    hide QueueOk, Pooled;
    assert (mp - {id}).Keys == mp.Keys - {id};
  }

  lemma {:induction false} DropOk(cr: Crypto, mp: TxMap, qs: Queues, a: Text, i: nat)
    requires PoolOk(cr, mp, qs) && i < |QueueOf(qs, a)|
    ensures cr.txId(qs[a][i]) in mp && mp[cr.txId(qs[a][i])] == qs[a][i]
    ensures PoolOk(cr, mp - {cr.txId(qs[a][i])}, Dropped(qs, a, i))
    ensures |mp - {cr.txId(qs[a][i])}| == |mp| - 1
  {
    hide PoolOk, QueueOk, Without, Ordered;
    var t := qs[a][i];
    var id := cr.txId(t);
    var mp', qs' := mp - {id}, Dropped(qs, a, i);
    assert t in qs[a];
    QueueFacts(cr, mp, qs, a);
    DropSize(cr, mp, qs, id);
    DroppedQueue(cr, mp, qs, a, i);
    forall b | b in qs' ensures QueueOk(cr, mp', qs', b) {
      if b != a {
        PoolAt(cr, mp, qs, b);
        QueueKept(cr, mp, mp', qs, qs', b, t);
      }
    }
    forall x | x in mp' ensures Pooled(cr, mp', qs', x) {
      PooledAt(cr, mp, qs, x);
    }
    MakePool(cr, mp', qs');
  }

  // --------------------------------------------- the index follows from the map

  lemma {:induction false} OrderedUnique(p: seq<Tx>, q: seq<Tx>)
    requires Ordered(p) && Ordered(q) && forall x :: x in p <==> x in q
    ensures p == q
  {
    assert |p| > 0 ==> p[0] in q;
    assert |q| > 0 ==> q[0] in p;
    if p != [] {
      var i :| 0 <= i < |q| && q[i] == p[0];
      var j :| 0 <= j < |p| && p[j] == q[0];
      assert p[0] == q[0];
      forall x ensures x in p[1..] <==> x in q[1..] {
        assert x in p <==> x == p[0] || x in p[1..];
        assert x in q <==> x == q[0] || x in q[1..];
      }
      OrderedUnique(p[1..], q[1..]);
    }
  }

  /** Two indexes that agree with the same pool are equal. */
  lemma {:induction false} IndexDetermined(cr: Crypto, mp: TxMap, qs: Queues, qs': Queues)
    requires PoolOk(cr, mp, qs) && PoolOk(cr, mp, qs')
    ensures qs == qs'
  {
    forall a ensures QueueOf(qs, a) == QueueOf(qs', a) && (a in qs <==> a in qs') {
      hide PoolOk, Ordered;
      QueueFacts(cr, mp, qs, a);
      QueueFacts(cr, mp, qs', a);
      forall x ensures x in QueueOf(qs, a) <==> x in QueueOf(qs', a) {
        if x in QueueOf(qs, a) {
          PooledAt(cr, mp, qs', cr.txId(x));
        } else if x in QueueOf(qs', a) {
          PooledAt(cr, mp, qs, cr.txId(x));
        }
      }
      OrderedUnique(QueueOf(qs, a), QueueOf(qs', a));
    }
    hide PoolOk;
    forall a | a in qs ensures qs[a] == qs'[a] {
      assert QueueOf(qs, a) == QueueOf(qs', a);
    }
  }

  // ---------------------------------------------------------- AddTx as a decision

  /** The least fee that replaces a pending fee: ten percent more, and at least one more. */
  function Bump(fee: u64): u64 {
    var m := Add64(fee, fee / 10);
    if m <= fee then Add64(fee, 1) else m
  }

  /** A fee replaces a pending one exactly when it is higher and at least ten percent above it,
      rounded down, as long as that sum fits in a uint64. Beyond that a higher fee is enough, and
      above the largest fee there is any fee. */
  lemma {:induction false} BumpLaw(pending: u64, fee: u64)
    ensures pending + pending / 10 < 0x1_0000_0000_0000_0000 ==>
      (fee >= Bump(pending) <==> fee > pending && TenPercent(pending, fee))
    ensures pending + pending / 10 >= 0x1_0000_0000_0000_0000 ==>
      (fee >= Bump(pending) <==> fee > pending || pending == 0xFFFF_FFFF_FFFF_FFFF)
  {
    var tenth := pending / 10;
    assert 10 * tenth <= pending <= 10 * tenth + 9;
  }

  predicate TenPercent(pending: u64, fee: u64) {
    10 * (fee - pending) + 9 >= pending
  }

  /** That a replacement always pays ten percent more is true exactly below the wrap. */
  lemma {:induction false} BumpPays(pending: u64)
    ensures (forall fee: u64 :: fee >= Bump(pending) ==> TenPercent(pending, fee))
      <==> pending + pending / 10 < 0x1_0000_0000_0000_0000
  {
    forall fee: u64 | fee >= Bump(pending) && pending + pending / 10 < TWO64
      ensures TenPercent(pending, fee)
    {
      BumpLaw(pending, fee);
    }
    if pending + pending / 10 >= TWO64 {
      var fee: u64 := Add64(pending, 1);
      BumpLaw(pending, fee);
      assert !TenPercent(pending, fee);
    }
  }

  function Position(cr: Crypto, q: seq<Tx>, id: nat): (i: nat)
    ensures i <= |q|
    ensures i < |q| ==> cr.txId(q[i]) == id
    ensures forall k :: 0 <= k < i ==> cr.txId(q[k]) != id
  {
    if q == [] || cr.txId(q[0]) == id then 0 else Position(cr, q[1..], id) + 1
  }

  ghost predicate Conflicts(m: Tx, t: Tx) {
    m.nonce == t.nonce && m.From() == t.From()
  }

  ghost predicate IsConflict(mp: TxMap, t: Tx, id: nat) {
    id in mp && Conflicts(mp[id], t)
  }

  /** What AddTx answers: `rival` is the pending transaction of the same sender and nonce. */
  ghost function Decision(cr: Crypto, blocks: seq<Block>, st: State, feeAct: nat, mp: TxMap, qs: Queues,
      t: Tx): Outcome {
    var q := QueueOf(qs, t.From());
    if t.IsCoinbase() then Refused(CoinbaseTx)
    else if cr.txId(t) in mp then Refused(Duplicate)
    else if rival: nat :| t.sender.Key? && IsConflict(mp, t, rival) then
      if t.fee < Bump(mp[rival].fee) then Refused(FeeBump)
      else
        var i := Position(cr, q, rival);
        Admission(cr, blocks, st, feeAct, if i < |q| then Without(q, i) else q, t)
    else if |mp| > POOL_LIMIT then Refused(PoolFull)
    else Admission(cr, blocks, st, feeAct, q, t)
  }

  /** The pool after `t` was accepted: `t` in, its rival out. */
  ghost predicate Accepts(cr: Crypto, mp: TxMap, mp': TxMap, t: Tx) {
    forall id :: AcceptsAt(cr, mp, mp', t, id)
  }

  ghost predicate AcceptsAt(cr: Crypto, mp: TxMap, mp': TxMap, t: Tx, id: nat) {
    if id == cr.txId(t) then id in mp' && mp'[id] == t
    else if id in mp && !Conflicts(mp[id], t) then id in mp' && mp'[id] == mp[id]
    else id !in mp'
  }

  /** AddTx in full: a transaction with a sender is accepted exactly when it is not pooled yet, pays
      the bump over the pending one of its nonce, if there is one, or else finds at most 10000 pooled,
      and is admitted against its sender's other transactions. */
  lemma {:induction false} SubmittedExactly(cr: Crypto, blocks: seq<Block>, st: State, feeAct: nat, mp: TxMap,
      qs: Queues, t: Tx, others: seq<Tx>)
    requires PoolOk(cr, mp, qs) && t.sender.Key? && Ordered(others)
    requires forall x :: x in others <==> x in QueueOf(qs, t.From()) && x.nonce != t.nonce
    ensures Decision(cr, blocks, st, feeAct, mp, qs, t).Accepted? <==>
      && cr.txId(t) !in mp
      && (forall id :: IsConflict(mp, t, id) ==> t.fee >= Bump(mp[id].fee))
      && ((forall id :: !IsConflict(mp, t, id)) ==> |mp| <= 10_000)
      && Admission(cr, blocks, st, feeAct, others, t).Accepted?
  {
    var q := QueueOf(qs, t.From());
    if cr.txId(t) !in mp {
      if rival :| IsConflict(mp, t, rival) {
        DecideReplace(cr, blocks, st, feeAct, mp, qs, t, rival);
        RivalUnique(cr, mp, qs, t, rival);
        OthersWithout(cr, mp, qs, t, rival, others);
        hide PoolOk, Admission, Position, Decision, Bump, Without, Ordered, IsConflict;
        assert IsConflict(mp, t, rival);
      } else {
        OthersAll(cr, mp, qs, t, others);
        hide PoolOk, Admission, Position, Bump, Ordered, IsConflict;
      }
    }
  }

  lemma {:induction false} OthersAll(cr: Crypto, mp: TxMap, qs: Queues, t: Tx, others: seq<Tx>)
    requires PoolOk(cr, mp, qs) && (forall id :: !IsConflict(mp, t, id)) && Ordered(others)
    requires forall x :: x in others <==> x in QueueOf(qs, t.From()) && x.nonce != t.nonce
    ensures others == QueueOf(qs, t.From())
  {
    var q := QueueOf(qs, t.From());
    QueueFacts(cr, mp, qs, t.From());
    forall x | x in q ensures x.nonce != t.nonce {
      assert !IsConflict(mp, t, cr.txId(x));
    }
    hide PoolOk;
    OrderedUnique(others, q);
  }

  lemma {:induction false} NonceTells(q: seq<Tx>, i: nat)
    requires Ordered(q) && i < |q|
    ensures forall x :: x in q ==> (x != q[i] <==> x.nonce != q[i].nonce)
  {
  }

  lemma {:induction false} OthersWithout(cr: Crypto, mp: TxMap, qs: Queues, t: Tx, rival: nat, others: seq<Tx>)
    requires PoolOk(cr, mp, qs) && IsConflict(mp, t, rival) && Ordered(others)
    requires forall x :: x in others <==> x in QueueOf(qs, t.From()) && x.nonce != t.nonce
    ensures var q := QueueOf(qs, t.From());
      var i := Position(cr, q, rival);
      i < |q| && others == Without(q, i)
  {
    var q := QueueOf(qs, t.From());
    PositionFacts(cr, mp, qs, rival);
    QueueFacts(cr, mp, qs, t.From());
    hide PoolOk, Position;
    var i := Position(cr, q, rival);
    WithoutOk(q, i);
    NonceTells(q, i);
    hide Without, Ordered, QueueOf;
    OrderedUnique(others, Without(q, i));
  }

  /** mpDel's search through the sender's list. */
  method FindId(cr: Crypto, lst: seq<Tx>, id: nat) returns (i: nat)
    ensures i == Position(cr, lst, id)
  {
    i := 0;
    while i < |lst| && cr.txId(lst[i]) != id
      invariant 0 <= i <= |lst|
      invariant i + Position(cr, lst[i..], id) == Position(cr, lst, id)
    {
      assert lst[i..][1..] == lst[i + 1..];
      i := i + 1;
    }
  }

  /** mpDel's splice, which also drops a list that became empty. */
  method DropAt(qs: Queues, from: Text, i: nat) returns (qs': Queues)
    requires i < |QueueOf(qs, from)|
    ensures qs' == Dropped(qs, from, i)
  {
    var lst := QueueOf(qs, from);
    lst := lst[..i] + lst[i + 1..];
    if |lst| == 0 {
      qs' := qs - {from};
    } else {
      qs' := qs[from := lst];
    }
  }

  /** A pooled transaction is found in its sender's queue. */
  lemma {:induction false} PositionFacts(cr: Crypto, mp: TxMap, qs: Queues, id: nat)
    requires PoolOk(cr, mp, qs) && id in mp
    ensures var a := mp[id].From();
      var q := QueueOf(qs, a);
      var i := Position(cr, q, id);
      i < |q| && q[i] == mp[id] && mp[id].SentBy(a) && cr.txId(mp[id]) == id
  {
    var a := mp[id].From();
    var q := QueueOf(qs, a);
    PooledAt(cr, mp, qs, id);
    QueueFacts(cr, mp, qs, a);
    hide PoolOk, Ordered, Position;
    var k :| 0 <= k < |q| && q[k] == mp[id];
    var i := Position(cr, q, id);
    assert i < |q| && q[i] in q;
  }

  /** Whether pruneMempoolLocked keeps `t`. */
  predicate Keep(st: State, t: Tx) {
    t.nonce >= Get(st, t.From()).nonce && Get(st, t.From()).balance >= Add64(t.amount, t.fee)
  }

  /** A kept transaction at the account's nonce is one the new state can pay for exactly when its
      amount and fee do not wrap. */
  lemma {:induction false} KeptFundable(cr: Crypto, st: State, t: Tx, height: nat)
    requires Keep(st, t) && SigOk(cr, t, height) && t.nonce == Get(st, t.From()).nonce
    ensures TxOk(cr, st, t, 0, height) <==> t.amount + t.fee < TWO64
  {
  }

  /** Pruning keeps a transaction exactly when its nonce is not used up and it would be valid on any
      state `st'` in which its turn has come and the balance is the same. */
  lemma {:induction false} KeptExactly(cr: Crypto, st: State, t: Tx, height: nat, st': State)
    requires SigOk(cr, t, height) && t.amount + t.fee < 0x1_0000_0000_0000_0000
    requires Get(st', t.From()) == Account(Get(st, t.From()).balance, t.nonce)
    ensures Keep(st, t) <==> t.nonce >= Get(st, t.From()).nonce && TxOk(cr, st', t, 0, height)
  {
    assert t.amount != 0;
    hide SigOk;
  }

  /** An amount and fee that wrap to 1000 are admitted and kept for a balance of 1000, and no
      state whatever validates them. */
  lemma {:induction false} WrappedKept(cr: Crypto, blocks: seq<Block>, st: State, feeAct: nat, t: Tx)
    requires SigOk(cr, t, |blocks|) && t.amount == TWO64 - 1 && t.fee == 1001
    requires t.nonce == Get(st, t.From()).nonce < TWO64 - MAX_MEMPOOL_NONCE_GAP
    requires RequiredFee(cr, feeAct, blocks) <= 1001
    requires Spendable(Get(st, t.From()).balance, ImmatureAt(blocks, |blocks|, t.From())) == 1000
    ensures Admission(cr, blocks, st, feeAct, [], t) == Accepted && Keep(st, t)
    ensures forall st': State, imm: u64, height: nat :: !TxOk(cr, st', t, imm, height)
  {
    hide SigOk, RequiredFee, ImmatureAt;
  }

  /** No pooled transaction is below its account's nonce. */
  ghost predicate NoStale(mp: TxMap, st: State) {
    forall id :: id in mp ==> mp[id].nonce >= Get(st, mp[id].From()).nonce
  }

  class Pool {
    const cr: Crypto
    var mempool: TxMap
    var bySender: Queues

    ghost predicate Valid()
      reads this
    {
      PoolOk(cr, mempool, bySender)
    }

    constructor (cr: Crypto)
      ensures Valid() && this.cr == cr && mempool == map[] && bySender == map[]
    {
      this.cr := cr;
      mempool, bySender := map[], map[];
    }

    /** mpAdd */
    method Add(t: Tx)
      requires Valid()
      requires t.sender.Key? && cr.txId(t) !in mempool && |mempool| <= POOL_LIMIT
      requires |QueueOf(bySender, t.From())| < MAX_MEMPOOL_TXNS_PER_SENDER && !Holds(QueueOf(bySender, t.From()), t.nonce)
      modifies this
      ensures Valid()
      ensures mempool == old(mempool)[cr.txId(t) := t]
      ensures bySender == Placed(old(bySender), t)
    {
      PlaceOk(cr, mempool, bySender, t);
      QueueFacts(cr, mempool, bySender, t.From());
      hide PoolOk, Holds;
      mempool := mempool[cr.txId(t) := t];
      var from := t.From();
      var lst := QueueOf(bySender, from);
      var i := SearchNonce(lst, t.nonce);
      InsertedAt(lst, t, i);
      lst := lst[..i] + [t] + lst[i..];
      bySender := bySender[from := lst];
    }

    /** mpDel */
    method Del(id: nat)
      requires Valid()
      modifies this
      ensures Valid()
      ensures id !in old(mempool) ==> mempool == old(mempool) && bySender == old(bySender)
      ensures id in old(mempool) ==> mempool == old(mempool) - {id}
      ensures id in old(mempool) ==>
        var from := old(mempool)[id].From();
        var i := Position(cr, QueueOf(old(bySender), from), id);
        i < |QueueOf(old(bySender), from)| && QueueOf(old(bySender), from)[i] == old(mempool)[id] && bySender == Dropped(old(bySender), from, i)
    {
      if id !in mempool {
        return;
      }
      hide PoolOk, Position, Dropped;
      PositionFacts(cr, mempool, bySender, id);
      var from := mempool[id].From();
      var lst := QueueOf(bySender, from);
      var i := FindId(cr, lst, id);
      DropOk(cr, mempool, bySender, from, i);
      mempool := mempool - {id};
      bySender := DropAt(bySender, from, i);
    }

    /** pruneMempoolLocked: keeps the transactions that are not below their account's nonce and
        whose amount plus fee, as a uint64, the balance covers. */
    method Prune(state: State) returns (state': State)
      requires Valid()
      modifies this
      ensures Valid() && Same(state', state)
      ensures mempool == map id | id in old(mempool) && Keep(state, old(mempool)[id]) :: old(mempool)[id]
      ensures NoStale(mempool, state)
    {
      hide PoolOk, Position, Dropped;
      state' := state;
      var todo := mempool.Keys;
      while todo != {}
        invariant Valid() && Same(state', state)
        invariant todo <= mempool.Keys <= old(mempool).Keys
        invariant forall id :: id in mempool ==> mempool[id] == old(mempool)[id]
        invariant forall id :: id in old(mempool) && id !in todo ==> (id in mempool <==> Keep(state, old(mempool)[id]))
        decreases |todo|
      {
        var id :| id in todo;
        todo := todo - {id};
        var t := mempool[id];
        state' := Touch(state', t.From());
        var acc := Get(state', t.From());
        assert acc == Get(state, t.From());
        if t.nonce < acc.nonce || acc.balance < Add64(t.amount, t.fee) {
          Del(id);
        }
      }
    }

    /** The replace-by-fee scan: a pending transaction of the same sender and nonce, if any. */
    method FindRival(t: Tx) returns (found: bool, rival: nat)
      requires Valid()
      ensures found ==> IsConflict(mempool, t, rival)
      ensures !found ==> forall id :: !IsConflict(mempool, t, id)
    {
      var todo := mempool.Keys;
      found, rival := false, 0;
      while todo != {}
        invariant todo <= mempool.Keys
        invariant forall id :: id in mempool && id !in todo ==> !IsConflict(mempool, t, id)
        decreases |todo|
      {
        var id :| id in todo;
        todo := todo - {id};
        if mempool[id].nonce == t.nonce && mempool[id].From() == t.From() {
          return true, id;
        }
      }
    }

    /** AddTx: a refused transaction, also one that failed to replace, leaves the pool as it was. */
    method AddTx(blocks: seq<Block>, state: State, feeAct: nat, maxReorg: nat, t: Tx)
      returns (r: Outcome, state': State, feeAct': nat)
      requires Valid()
      modifies this
      ensures Valid() && Same(state', state)
      ensures feeAct' == feeAct || feeAct' == Filled(feeAct, blocks, FEE_GATE, maxReorg)
      ensures r == Decision(cr, blocks, state, feeAct, old(mempool), old(bySender), t)
      ensures r.Refused? ==> mempool == old(mempool) && bySender == old(bySender)
      ensures r.Accepted? ==> Accepts(cr, old(mempool), mempool, t) && t.nonce >= Get(state, t.From()).nonce
    {
      state', feeAct' := state, feeAct;
      hide PoolOk, Position, Without, Holds, Placed, Admission, Accepts;
      if t.IsCoinbase() {
        return Refused(CoinbaseTx), state', feeAct';
      }
      var id := cr.txId(t);
      if id in mempool {
        return Refused(Duplicate), state', feeAct';
      }
      if t.sender.Key? {
        var found, rival := FindRival(t);
        if found {
          r, state', feeAct' := Replace(blocks, state, feeAct, maxReorg, t, rival);
          return;
        }
      }
      if |mempool| > POOL_LIMIT {
        return Refused(PoolFull), state', feeAct';
      }
      var q := QueueOf(bySender, t.From());
      r, state', feeAct' := ValidateMempoolTx(cr, blocks, state, feeAct, maxReorg, q, t);
      if r.Accepted? {
        AdmittedNonce(cr, blocks, state, feeAct, q, t);
        NoRivalHeld(cr, mempool, bySender, t);
        PlainAccepts(cr, mempool, t);
        Add(t);
      }
    }

    method Replace(blocks: seq<Block>, state: State, feeAct: nat, maxReorg: nat, t: Tx, rival: nat)
      returns (r: Outcome, state': State, feeAct': nat)
      requires Valid() && t.sender.Key? && cr.txId(t) !in mempool && IsConflict(mempool, t, rival)
      modifies this
      ensures Valid() && Same(state', state)
      ensures feeAct' == feeAct || feeAct' == Filled(feeAct, blocks, FEE_GATE, maxReorg)
      ensures r == Decision(cr, blocks, state, feeAct, old(mempool), old(bySender), t)
      ensures r.Refused? ==> mempool == old(mempool) && bySender == old(bySender)
      ensures r.Accepted? ==> Accepts(cr, old(mempool), mempool, t) && t.nonce >= Get(state, t.From()).nonce
    {
      hide PoolOk, Position, Without, Holds, Placed, Dropped, Admission, Decision, Accepts;
      DecideReplace(cr, blocks, state, feeAct, mempool, bySender, t, rival);
      var m := mempool[rival];
      if t.fee < Bump(m.fee) {
        return Refused(FeeBump), state, feeAct;
      }
      AfterDrop(cr, mempool, bySender, t, rival);
      PutBack(cr, mempool, bySender, rival);
      ReplaceAccepts(cr, mempool, bySender, t, rival);
      Del(rival);
      var q := QueueOf(bySender, t.From());
      r, state', feeAct' := ValidateMempoolTx(cr, blocks, state, feeAct, maxReorg, q, t);
      if r.Refused? {
        Add(m);
        return;
      }
      AdmittedNonce(cr, blocks, state, feeAct, q, t);
      Add(t);
    }
  }

  lemma {:induction false} PlainAccepts(cr: Crypto, mp: TxMap, t: Tx)
    requires cr.txId(t) !in mp && forall id :: !IsConflict(mp, t, id)
    ensures Accepts(cr, mp, mp[cr.txId(t) := t], t)
  {
    var mp' := mp[cr.txId(t) := t];
    forall id ensures AcceptsAt(cr, mp, mp', t, id) {
      assert !IsConflict(mp, t, id);
    }
  }

  lemma {:induction false} AdmittedNonce(cr: Crypto, blocks: seq<Block>, st: State, feeAct: nat, q: seq<Tx>, t: Tx)
    requires Admission(cr, blocks, st, feeAct, q, t).Accepted?
    ensures t.sender.Key? && t.nonce >= Get(st, t.From()).nonce && |q| < MAX_MEMPOOL_TXNS_PER_SENDER
  {
  }

  lemma {:induction false} NoRivalHeld(cr: Crypto, mp: TxMap, qs: Queues, t: Tx)
    requires PoolOk(cr, mp, qs) && forall id :: !IsConflict(mp, t, id)
    ensures !Holds(QueueOf(qs, t.From()), t.nonce)
  {
    var q := QueueOf(qs, t.From());
    QueueFacts(cr, mp, qs, t.From());
    forall i | 0 <= i < |q| ensures q[i].nonce != t.nonce {
      assert q[i] in q && !IsConflict(mp, t, cr.txId(q[i]));
    }
  }

  lemma {:induction false} RivalUnique(cr: Crypto, mp: TxMap, qs: Queues, t: Tx, rival: nat)
    requires PoolOk(cr, mp, qs) && IsConflict(mp, t, rival)
    ensures forall id :: IsConflict(mp, t, id) ==> id == rival
  {
    forall id | IsConflict(mp, t, id) ensures id == rival {
      OnePerNonce(cr, mp, qs, id, rival);
    }
  }

  /** After the rival is dropped its slot is free, for `t` and for the rival itself. */
  lemma {:induction false} AfterDrop(cr: Crypto, mp: TxMap, qs: Queues, t: Tx, rival: nat)
    requires PoolOk(cr, mp, qs) && IsConflict(mp, t, rival)
    ensures var a, q := t.From(), QueueOf(qs, t.From());
      var i := Position(cr, q, rival);
      && i < |q| && q[i] == mp[rival] && mp[rival].SentBy(a) && cr.txId(mp[rival]) == rival
      && QueueOf(Dropped(qs, a, i), a) == Without(q, i)
      && !Holds(Without(q, i), t.nonce) && |Without(q, i)| < MAX_MEMPOOL_TXNS_PER_SENDER
      && Placed(Dropped(qs, a, i), mp[rival]) == qs
  {
    var a, q := t.From(), QueueOf(qs, t.From());
    PositionFacts(cr, mp, qs, rival);
    QueueFacts(cr, mp, qs, a);
    hide PoolOk, Position;
    var i := Position(cr, q, rival);
    DropPlace(qs, a, i);
    NonceGone(q, i);
    hide Without, Ordered, Holds, Placed;
  }

  lemma {:induction false} NonceGone(q: seq<Tx>, i: nat)
    requires Ordered(q) && i < |q|
    ensures !Holds(Without(q, i), q[i].nonce) && |Without(q, i)| == |q| - 1
  {
    var r := Without(q, i);
    forall j | 0 <= j < |r| ensures r[j].nonce != q[i].nonce {
      assert r[j] == q[if j < i then j else j + 1];
    }
  }

  lemma {:induction false} PutBack(cr: Crypto, mp: TxMap, qs: Queues, id: nat)
    requires PoolOk(cr, mp, qs) && id in mp
    ensures (mp - {id})[id := mp[id]] == mp && |mp - {id}| <= POOL_LIMIT
  {
    DropSize(cr, mp, qs, id);
    RestoreKey(mp, id);
  }

  lemma {:induction false} RestoreKey(mp: TxMap, id: nat)
    requires id in mp
    ensures (mp - {id})[id := mp[id]] == mp
  {
    var r := (mp - {id})[id := mp[id]];
    assert r.Keys == mp.Keys;
    assert forall x :: x in mp ==> r[x] == mp[x];
  }

  lemma {:induction false} DecideReplace(cr: Crypto, blocks: seq<Block>, st: State, feeAct: nat, mp: TxMap,
      qs: Queues, t: Tx, rival: nat)
    requires PoolOk(cr, mp, qs) && t.sender.Key? && cr.txId(t) !in mp && IsConflict(mp, t, rival)
    ensures Decision(cr, blocks, st, feeAct, mp, qs, t) ==
      if t.fee < Bump(mp[rival].fee) then Refused(FeeBump)
      else
        var q := QueueOf(qs, t.From());
        var i := Position(cr, q, rival);
        Admission(cr, blocks, st, feeAct, if i < |q| then Without(q, i) else q, t)
  {
    hide PoolOk, Admission, Position, Bump, Without, QueueOf;
    RivalUnique(cr, mp, qs, t, rival);
  }

  lemma {:induction false} ReplaceAccepts(cr: Crypto, mp: TxMap, qs: Queues, t: Tx, rival: nat)
    requires PoolOk(cr, mp, qs) && cr.txId(t) !in mp && IsConflict(mp, t, rival)
    ensures Accepts(cr, mp, (mp - {rival})[cr.txId(t) := t], t)
  {
    hide PoolOk, AcceptsAt;
    var mp' := (mp - {rival})[cr.txId(t) := t];
    forall id ensures AcceptsAt(cr, mp, mp', t, id) {
      if IsConflict(mp, t, id) {
        OnePerNonce(cr, mp, qs, id, rival);
      }
      ReplaceAcceptsAt(cr, mp, t, rival, id);
    }
  }

  lemma {:induction false} ReplaceAcceptsAt(cr: Crypto, mp: TxMap, t: Tx, rival: nat, id: nat)
    requires cr.txId(t) !in mp && IsConflict(mp, t, rival)
    requires IsConflict(mp, t, id) ==> id == rival
    ensures AcceptsAt(cr, mp, (mp - {rival})[cr.txId(t) := t], t, id)
  {
  }
}
