/** What makes a block acceptable, spelled out: the rules of validateBlock (core/chain.go) on a
    valid chain, without its folds, sorts and wrap-around arithmetic. */
module Acceptance {
  import opened Types
  import opened Ledger
  import opened MedianTime
  import opened Activation
  import opened Retarget
  import opened Validation
  import opened Conservation
  import opened Maturity
  import opened Epochs
  import opened Issuance

  // ------------------------------------------------------------ median time past

  ghost predicate Before(blocks: seq<Block>, i: nat, time: int) {
    i < |blocks| && blocks[i].hd.time < time
  }

  ghost function Earlier(blocks: seq<Block>, lo: nat, hi: nat, time: int): set<nat> {
    set i: nat | lo <= i < hi && Before(blocks, i, time)
  }

  /** More than half of the last eleven blocks, or of all when there are fewer, are earlier. */
  ghost predicate LaterThanMost(blocks: seq<Block>, time: int) {
    var w := if |blocks| < 11 then |blocks| else 11;
    2 * |Earlier(blocks, |blocks| - w, |blocks|, time)| > w
  }

  lemma {:induction false} BelowCounts(blocks: seq<Block>, lo: nat, k: nat, times: seq<u64>, time: int)
    requires lo + k <= |blocks| && |times| == k && forall j :: 0 <= j < k ==> times[j] == blocks[lo + j].hd.time
    ensures Below(times, time) == |Earlier(blocks, lo, lo + k, time)|
  {
    if k == 0 {
      assert Earlier(blocks, lo, lo, time) == {};
    } else {
      var rest := times[..k - 1];
      BelowCounts(blocks, lo, k - 1, rest, time);
      BelowAppend(rest, times[k - 1], time);
      assert times == rest + [times[k - 1]];
      var before := Earlier(blocks, lo, lo + k - 1, time);
      assert Earlier(blocks, lo, lo + k, time) == if times[k - 1] < time then before + {lo + k - 1} else before;
    }
  }

  /** A time is above the median exactly when it is later than most of the window. */
  lemma {:induction false} MedianIsMiddle(blocks: seq<Block>, time: int)
    requires |blocks| > 0
    ensures time > Median(blocks) <==> LaterThanMost(blocks, time)
  {
    var w := |Window(blocks)|;
    MedianRank(blocks, time);
    BelowCounts(blocks, |blocks| - w, w, Window(blocks), time);
    hide Median, Below, Earlier, Window;
  }

  // -------------------------------------------------------------------- the body

  ghost function Received(txs: seq<Tx>, a: Text): nat {
    if txs == [] then 0 else
      Received(txs[..|txs| - 1], a) + if txs[|txs| - 1].to == a then txs[|txs| - 1].amount else 0
  }

  ghost function Spent(txs: seq<Tx>, a: Text): nat {
    if txs == [] then 0 else
      Spent(txs[..|txs| - 1], a) + if txs[|txs| - 1].SentBy(a) then txs[|txs| - 1].amount + txs[|txs| - 1].fee else 0
  }

  ghost function Sent(txs: seq<Tx>, a: Text): nat {
    if txs == [] then 0 else Sent(txs[..|txs| - 1], a) + if txs[|txs| - 1].SentBy(a) then 1 else 0
  }

  lemma {:induction false} OneMore(x: nat)
    ensures Add64(Low64(x), 1) == Low64(x + 1)
  {
  }

  lemma {:induction false} SmallLow(x: u64)
    ensures Low64(x) == x
  {
  }

  /** One transfer moves exact amounts. */
  lemma {:induction false} TransferAccount(st: State, t: Tx, a: Text)
    requires t.sender.Key? && Total(st) < TWO64 && t.amount + t.fee <= Get(st, t.From()).balance
    ensures var acc := Get(ApplyTx(st, t), a);
      && acc.balance == Get(st, a).balance + (if t.to == a then t.amount else 0) - (if t.SentBy(a) then t.amount + t.fee else 0)
      && acc.nonce == if t.SentBy(a) then Add64(Get(st, a).nonce, 1) else Get(st, a).nonce
  {
    TransferTotal(st, t);
    hide Total;
  }

  lemma {:induction false} TxOkFacts(cr: Crypto, st: State, t: Tx, immature: u64, height: nat)
    requires TxOk(cr, st, t, immature, height)
    ensures t.sender.Key? && t.amount + t.fee <= Get(st, t.From()).balance
  {
    hide SigOk;
    assert SigOk(cr, t, height);
    assert t.sender.Key? && t.amount != 0 by {
      KeyedSig(cr, t, height);
    }
  }

  lemma {:induction false} KeyedSig(cr: Crypto, t: Tx, height: nat)
    requires SigOk(cr, t, height)
    ensures t.sender.Key? && t.amount != 0
  {
  }

  lemma {:induction false} LastTx(cr: Crypto, prefix: seq<Block>, st: State, body: seq<Tx>, minFee: u64)
    requires body != []
    ensures var rest, t := body[..|body| - 1], body[|body| - 1];
      BodyOk(cr, prefix, st, body, minFee) <==>
        && BodyOk(cr, prefix, st, rest, minFee) && NewId(cr, rest, t) && t.fee >= minFee
        && TxOk(cr, ApplyTxs(st, rest), t, ImmatureAt(prefix, |prefix|, t.From()), |prefix|)
  {
    hide TxOk, ApplyTxs, ImmatureAt, NewId;
  }

  /** An account after a valid body: what it had, and what the body paid it, less what it spent. */
  lemma {:induction false} BodyAccount(cr: Crypto, prefix: seq<Block>, st: State, txs: seq<Tx>, minFee: u64, a: Text)
    requires BodyOk(cr, prefix, st, txs, minFee) && Total(st) < TWO64
    ensures var acc := Get(ApplyTxs(st, txs), a);
      && acc.balance == Get(st, a).balance + Received(txs, a) - Spent(txs, a)
      && acc.nonce == Low64(Get(st, a).nonce + Sent(txs, a))
  {
    hide BodyOk, TxOk, ImmatureAt, Total, ApplyTx, Low64, Add64, NewId, Get;
    if txs != [] {
      var rest, t := txs[..|txs| - 1], txs[|txs| - 1];
      LastTx(cr, prefix, st, txs, minFee);
      BodyAccount(cr, prefix, st, rest, minFee, a);
      BodyTotal(cr, prefix, st, rest, minFee);
      assert ApplyTxs(st, txs) == ApplyTx(ApplyTxs(st, rest), t);
      hide ApplyTxs;
      TxOkFacts(cr, ApplyTxs(st, rest), t, ImmatureAt(prefix, |prefix|, t.From()), |prefix|);
      TransferAccount(ApplyTxs(st, rest), t, a);
      OneMore(Get(st, a).nonce + Sent(rest, a));
    } else {
      SmallLow(Get(st, a).nonce);
    }
  }

  /** An address is "crb1" and forty hex digits. */
  lemma {:induction false} AddressIs(a: Text)
    ensures ValidAddr(a) <==>
      && |a| == 44 && a[0] as char == 'c' && a[1] as char == 'r' && a[2] as char == 'b' && a[3] as char == '1'
      && forall i :: 4 <= i < 44 ==> a[i] as char in "0123456789abcdefABCDEF"
  {
    if |a| == 44 {
      assert a[..4] == [a[0], a[1], a[2], a[3]];
      forall i | 4 <= i < 44 ensures HexDigit(a[i]) <==> a[i] as char in "0123456789abcdefABCDEF" {
        DigitIs(a[i]);
      }
    }
  }

  lemma {:induction false} DigitIs(d: byte)
    ensures HexDigit(d) <==> d as char in "0123456789abcdefABCDEF"
  {
  }

  /** Transaction `i` of a body on top of `prefix`: signed for this chain from height 700 on, to a
      well-formed address, a positive amount, at least the fee floor, not a repetition, under the
      sender's next nonce, and paid for by what the sender may spend, has received and has not spent
      earlier in the body. */
  ghost predicate PaymentOk(cr: Crypto, prefix: seq<Block>, body: seq<Tx>, i: nat, minFee: u64)
    requires i < |body|
  {
    var t, before, a, height := body[i], body[..i], body[i].From(), |prefix|;
    var acc := Get(StateOf(prefix), a);
    && t.sender.Key? && ValidAddr(t.to) && t.amount > 0 && cr.sigOk(t, height >= 700)
    && t.fee >= minFee
    && (forall x :: x in before ==> cr.txId(x) != cr.txId(t))
    && t.nonce == Low64(acc.nonce + Sent(before, a))
    && t.amount + t.fee + (if height < 500 then 0 else Young(prefix, height, height, a)) + Spent(before, a)
      <= acc.balance + Received(before, a)
  }

  ghost predicate PaymentsOk(cr: Crypto, prefix: seq<Block>, body: seq<Tx>, minFee: u64) {
    forall i :: 0 <= i < |body| ==> PaymentOk(cr, prefix, body, i, minFee)
  }

  lemma {:induction false} SignedIs(cr: Crypto, t: Tx, height: nat)
    ensures SigOk(cr, t, height) <==> t.sender.Key? && ValidAddr(t.to) && t.amount > 0 && cr.sigOk(t, height >= 700)
  {
    hide ValidAddr;
  }

  lemma {:induction false} PaymentSplit(cr: Crypto, prefix: seq<Block>, body: seq<Tx>, minFee: u64)
    requires body != []
    ensures var t, rest, a, height := body[|body| - 1], body[..|body| - 1], body[|body| - 1].From(), |prefix|;
      var acc := Get(StateOf(prefix), a);
      PaymentOk(cr, prefix, body, |body| - 1, minFee) <==>
        && SigOk(cr, t, height) && t.fee >= minFee && NewId(cr, rest, t) && t.nonce == Low64(acc.nonce + Sent(rest, a))
        && t.amount + t.fee + (if height < 500 then 0 else Young(prefix, height, height, a))
          <= acc.balance + Received(rest, a) - Spent(rest, a)
  {
    SignedIs(cr, body[|body| - 1], |prefix|);
    hide SigOk, ValidAddr, Low64, Young, Received, Spent, Sent, Get, StateOf;
  }

  lemma {:induction false} LastPayment(cr: Crypto, prefix: seq<Block>, body: seq<Tx>, minFee: u64)
    requires ChainOk(cr, prefix) && body != []
    requires BodyOk(cr, prefix, StateOf(prefix), body[..|body| - 1], minFee)
    ensures BodyOk(cr, prefix, StateOf(prefix), body, minFee) <==> PaymentOk(cr, prefix, body, |body| - 1, minFee)
  {
    hide StateOf, ChainOk, Total, BodyOk, TxOk, SigOk, ApplyTxs, Low64, ImmatureAt, Young, Received, Spent, Sent, NewId;
    hide PaymentOk, Get;
    var st, rest, t := StateOf(prefix), body[..|body| - 1], body[|body| - 1];
    ChainConserves(cr, prefix);
    BodyAccount(cr, prefix, st, rest, minFee, t.From());
    SpendsExactly(cr, prefix, ApplyTxs(st, rest), t);
    PaymentSplit(cr, prefix, body, minFee);
    LastTx(cr, prefix, st, body, minFee);
    hide *;
  }

  lemma {:induction false} PaymentsStep(cr: Crypto, prefix: seq<Block>, body: seq<Tx>, minFee: u64)
    requires body != []
    ensures PaymentsOk(cr, prefix, body, minFee) <==>
      PaymentsOk(cr, prefix, body[..|body| - 1], minFee) && PaymentOk(cr, prefix, body, |body| - 1, minFee)
  {
    var rest := body[..|body| - 1];
    forall i | 0 <= i < |rest| ensures PaymentOk(cr, prefix, rest, i, minFee) <==> PaymentOk(cr, prefix, body, i, minFee) {
      PaymentKept(cr, prefix, body, i, minFee);
    }
    hide PaymentOk;
  }

  lemma {:induction false} PaymentKept(cr: Crypto, prefix: seq<Block>, body: seq<Tx>, i: nat, minFee: u64)
    requires i < |body| - 1
    ensures PaymentOk(cr, prefix, body[..|body| - 1], i, minFee) <==> PaymentOk(cr, prefix, body, i, minFee)
  {
    var rest := body[..|body| - 1];
    assert rest[i] == body[i] && rest[..i] == body[..i];
    hide StateOf, Get, ValidAddr, Young, Received, Spent, Sent, Low64;
  }

  /** A body is valid exactly when each of its transactions is, measured against the chain's own
      balances and nonces and what stands before it in the body. */
  lemma {:induction false} BodyExactly(cr: Crypto, prefix: seq<Block>, body: seq<Tx>, minFee: u64)
    requires ChainOk(cr, prefix)
    ensures BodyOk(cr, prefix, StateOf(prefix), body, minFee) <==> PaymentsOk(cr, prefix, body, minFee)
  {
    hide PaymentOk, StateOf, ChainOk, TxOk, NewId, ImmatureAt, ApplyTxs;
    if body != [] {
      var rest := body[..|body| - 1];
      BodyExactly(cr, prefix, rest, minFee);
      PaymentsStep(cr, prefix, body, minFee);
      LastTx(cr, prefix, StateOf(prefix), body, minFee);
      hide BodyOk, PaymentsOk;
      if BodyOk(cr, prefix, StateOf(prefix), rest, minFee) {
        LastPayment(cr, prefix, body, minFee);
      }
    }
  }

  // ------------------------------------------------------------------- the fee floor

  ghost function TxCount(blocks: seq<Block>, lo: nat, hi: nat): nat
    requires lo <= hi <= |blocks|
    decreases hi
  {
    if lo == hi then 0 else TxCount(blocks, lo, hi - 1) + |blocks[hi - 1].txs|
  }

  lemma {:induction false} BlockSize(cr: Crypto, blocks: seq<Block>, i: nat)
    requires ChainOk(cr, blocks) && i < |blocks|
    ensures 1 <= |blocks[i].txs| <= 200
  {
    if i > 0 {
      assert CoreAt(cr, blocks, i);
      hide BodyOk, HeaderOk, PowOk, StateOf;
    }
  }

  /** The fullness the fee curve is asked about: the transactions of the blocks, less a coinbase
      each, against 199 for each block. */
  lemma {:induction false} Fullness(cr: Crypto, blocks: seq<Block>, lo: nat, hi: nat)
    requires ChainOk(cr, blocks) && lo <= hi <= |blocks|
    ensures CountBody(blocks, lo, hi) == TxCount(blocks, lo, hi) - (hi - lo) <= (hi - lo) * 199
    decreases hi
  {
    if lo < hi {
      Fullness(cr, blocks, lo, hi - 1);
      BlockSize(cr, blocks, hi - 1);
      hide ChainOk;
    }
  }

  /** No floor below height 450; 1000 once the fee market is active; before that the old curve, for
      what the last twenty blocks hold of the 3980 transactions they could. */
  ghost function FeeFloor(rules: Rules, prefix: seq<Block>): u64 {
    if |prefix| < 450 then 0
    else if ActiveWith(rules.feeAct, prefix, FEE_GATE) then 1000
    else
      var used := TxCount(prefix, |prefix| - 20, |prefix|) - 20;
      rules.cr.legacyFee(if used < 0 then 0 else used, 3980)
  }

  lemma {:induction false} FeeFloorExactly(rules: Rules, prefix: seq<Block>)
    requires ChainOk(rules.cr, prefix)
    ensures RequiredFee(rules.cr, rules.feeAct, prefix) == FeeFloor(rules, prefix)
  {
    hide ChainOk, ActiveWith, CountBody, TxCount;
    if |prefix| >= 450 {
      Fullness(rules.cr, prefix, |prefix| - 20, |prefix|);
    }
  }

  // ---------------------------------------------------------------------- the block

  /** The header: version, position, link, encoding, checkpoint, time, target and proof of work. */
  ghost predicate HeaderRules(rules: Rules, prefix: seq<Block>, b: Block, now: nat)
    requires |prefix| > 0
  {
    var cr, n := rules.cr, |prefix|;
    && b.hd.version == 1 && b.hd.height == n && b.hd.prev == cr.hash(prefix[n - 1].hd)
    && b.hexOk && b.targetOk
    && (n in rules.checkpoints ==> rules.checkpoints[n] == cr.hash(b.hd))
    && LaterThanMost(prefix, b.hd.time) && b.hd.time <= now + 300
    && b.hd.target == (if ActiveWith(rules.lwmaAct, prefix, LWMA_GATE) then LwmaTarget(prefix) else LegacyTarget(prefix))
    && Mined(cr, prefix, b.hd)
  }

  /** At most 200 transactions, committed to by the header, the first one a coinbase that pays the
      subsidy of the height and the fees of the others, as plain numbers, to an address. */
  ghost predicate CoinbaseRules(cr: Crypto, prefix: seq<Block>, b: Block) {
    && 1 <= |b.txs| <= 200
    && b.rootLower && b.hd.txRoot == cr.txRoot(Ids(cr, b.txs))
    && b.txs[0].sender.NoSender? && b.txs[0].nonce == |prefix| && ValidAddr(b.txs[0].to)
    && b.txs[0].amount == EraReward(|prefix| / 1_051_200) + FeeSum(b.txs)
  }

  lemma {:induction false} HeaderIs(rules: Rules, prefix: seq<Block>, b: Block, now: nat)
    requires |prefix| > 0
    ensures HeaderRules(rules, prefix, b, now) <==>
      && HeaderPasses(rules, prefix, b, now) && b.hd.target == RequiredTarget(rules.lwmaAct, prefix)
      && PowOk(rules.cr, prefix, b)
  {
    hide Median, LaterThanMost, ActiveWith, LwmaTarget, LegacyTarget, Mined, PowOk;
    MedianIsMiddle(prefix, b.hd.time);
    MinedIs(rules.cr, prefix, b);
  }

  lemma {:induction false} ExactSum(a: u64, b: u64, c: u64)
    requires c == a + b
    ensures Add64(a, b) == c
  {
  }

  /** Coinbase amounts as plain numbers mean the same as the wrapped sums of the code. */
  lemma {:induction false} CoinbaseIs(cr: Crypto, prefix: seq<Block>, b: Block)
    requires b.hd.height == |prefix|
    ensures CoinbaseRules(cr, prefix, b) ==> ShapeOk(cr, b)
    ensures ShapeOk(cr, b) && b.txs[0].amount == BlockSubsidy(|prefix|) + FeeSum(b.txs) ==> CoinbaseRules(cr, prefix, b)
  {
    SubsidyExact(|prefix|);
    assert EraReward(|prefix| / 1_051_200) >= 0;
    hide BlockSubsidy, EraReward, Add64, ValidAddr;
    if CoinbaseRules(cr, prefix, b) {
      var amount: u64 := b.txs[0].amount;
      assert amount == EraReward(|prefix| / 1_051_200) + FeeSum(b.txs);
      TotalFeesExact(b.txs);
      ExactSum(BlockSubsidy(|prefix|), TotalFees(b.txs), b.txs[0].amount);
    }
  }

  lemma {:induction false} AmountExact(rules: Rules, prefix: seq<Block>, b: Block, now: nat)
    requires ChainOk(rules.cr, prefix) && NextOk(rules, prefix, b, now)
    ensures |b.txs| > 0 && b.txs[0].amount == BlockSubsidy(|prefix|) + FeeSum(b.txs)
  {
    NextIsCore(rules, prefix, b, now);
    NoWrap(rules.cr, prefix, b);
  }

  /** Acceptance in full: a block extends a valid chain exactly when its header, its coinbase and
      each of its payments keep the rules. */
  lemma {:induction false} AcceptedExactly(rules: Rules, prefix: seq<Block>, b: Block, now: nat)
    requires ChainOk(rules.cr, prefix) && |prefix| > 0
    ensures NextOk(rules, prefix, b, now) <==>
      && HeaderRules(rules, prefix, b, now)
      && CoinbaseRules(rules.cr, prefix, b)
      && PaymentsOk(rules.cr, prefix, b.txs[1..], FeeFloor(rules, prefix))
  {
    hide ChainOk, HeaderPasses, HeaderRules, PowOk, ShapeOk, BodyOk, StateOf, PaymentsOk, RequiredFee, RequiredTarget;
    HeaderIs(rules, prefix, b, now);
    FeeFloorExactly(rules, prefix);
    AtHeight(rules, prefix, b, now);
    if b.hd.height == |prefix| {
      CoinbaseIs(rules.cr, prefix, b);
      if |b.txs| > 0 {
        BodyExactly(rules.cr, prefix, b.txs[1..], FeeFloor(rules, prefix));
      }
      if NextOk(rules, prefix, b, now) {
        AmountExact(rules, prefix, b, now);
      }
    }
  }

  lemma {:induction false} AtHeight(rules: Rules, prefix: seq<Block>, b: Block, now: nat)
    requires |prefix| > 0
    ensures HeaderPasses(rules, prefix, b, now) ==> b.hd.height == |prefix|
    ensures HeaderRules(rules, prefix, b, now) ==> b.hd.height == |prefix|
    ensures ShapeOk(rules.cr, b) ==> |b.txs| > 0
  {
    hide Median, LaterThanMost, ActiveWith, LwmaTarget, LegacyTarget, Mined;
  }
}
