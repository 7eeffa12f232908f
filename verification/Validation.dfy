/** Block validity (core/chain.go validateBlock and its helpers), stated without any cache. */
module Validation {
  import opened Types
  import opened Ledger
  import opened Activation
  import opened Retarget
  import opened MedianTime

  // ------------------------------------------------------- coinbase maturity

  /** What block `b`'s coinbase pays to `a`. */
  function CoinbaseTo(b: Block, a: Text): u64 {
    if |b.txs| > 0 && b.txs[0].IsCoinbase() && b.txs[0].to == a then b.txs[0].amount else 0
  }

  function CoinbaseSum(blocks: seq<Block>, lo: nat, hi: nat, a: Text): u64
    requires hi <= |blocks|
    decreases hi
  {
    if lo >= hi then 0 else Add64(CoinbaseSum(blocks, lo, hi - 1, a), CoinbaseTo(blocks[hi - 1], a))
  }

  function ImmatureFrom(atHeight: nat): nat {
    if atHeight > COINBASE_MATURITY then atHeight - COINBASE_MATURITY + 1 else 0
  }

  /** Coinbase paid to `a` that is not spendable at `atHeight`. */
  function ImmatureAt(blocks: seq<Block>, atHeight: nat, a: Text): u64 {
    if atHeight < MATURITY_HEIGHT then 0
    else CoinbaseSum(blocks, ImmatureFrom(atHeight), if atHeight < |blocks| then atHeight else |blocks|, a)
  }

  function Lookup(m: map<Text, u64>, a: Text): u64 {
    if a in m then m[a] else 0
  }

  method ImmatureCoinbase(blocks: seq<Block>, atHeight: nat) returns (imm: map<Text, u64>)
    ensures forall a :: Lookup(imm, a) == ImmatureAt(blocks, atHeight, a)
  {
    imm := map[];
    if atHeight < MATURITY_HEIGHT {
      return;
    }
    var lo := 0;
    if atHeight > COINBASE_MATURITY {
      lo := atHeight - COINBASE_MATURITY + 1;
    }
    var h := lo;
    while h < atHeight && h < |blocks|
      invariant lo <= h <= atHeight
      invariant h <= |blocks| || h == lo
      invariant h <= |blocks| ==> forall a :: Lookup(imm, a) == CoinbaseSum(blocks, lo, h, a)
      invariant h > |blocks| ==> imm == map[]
      decreases atHeight - h
    {
      var b := blocks[h];
      if |b.txs| > 0 && b.txs[0].IsCoinbase() {
        imm := imm[b.txs[0].to := Add64(Lookup(imm, b.txs[0].to), b.txs[0].amount)];
      }
      h := h + 1;
    }
  }

  function Spendable(bal: u64, immature: u64): u64 {
    if immature >= bal then 0 else bal - immature
  }

  // ---------------------------------------------------------------- fee floor

  const FEE_FLOOR: u64 := 1000
  const FEE_SPAN := 20

  function CountBody(blocks: seq<Block>, lo: nat, hi: nat): nat
    requires lo <= hi <= |blocks|
    decreases hi
  {
    if lo == hi then 0
    else CountBody(blocks, lo, hi - 1) + if |blocks[hi - 1].txs| > 1 then |blocks[hi - 1].txs| - 1 else 0
  }

  /** minFeeForActive: flat once the fee market is active, the legacy fullness curve before. */
  function MinFee(cr: Crypto, blocks: seq<Block>, active: bool): u64 {
    var n := if |blocks| < FEE_SPAN then |blocks| else FEE_SPAN;
    if n == 0 || active then FEE_FLOOR
    else cr.legacyFee(CountBody(blocks, |blocks| - n, |blocks|), n * (MAX_BLOCK_TXS - 1))
  }

  method MinFeeOf(cr: Crypto, blocks: seq<Block>, active: bool) returns (fee: u64)
    ensures fee == MinFee(cr, blocks, active)
  {
    var n := FEE_SPAN;
    if |blocks| < n {
      n := |blocks|;
    }
    var capacity := n * (MAX_BLOCK_TXS - 1);
    if n <= 0 || capacity <= 0 {
      return FEE_FLOOR;
    }
    var txs := 0;
    for i := |blocks| - n to |blocks|
      invariant txs == CountBody(blocks, |blocks| - n, i)
    {
      var t := |blocks[i].txs| - 1;
      if t > 0 {
        txs := txs + t;
      }
    }
    if !active {
      return cr.legacyFee(txs, capacity);
    }
    fee := FEE_FLOOR;
  }

  // ------------------------------------------------------------- transactions

  /** CheckSigAt: structure and signature; from CHAIN_ID_HEIGHT the payload binds the chain. */
  predicate SigOk(cr: Crypto, t: Tx, height: nat) {
    && !t.IsCoinbase()
    && ValidAddr(t.to)
    && t.amount != 0
    && t.sender.Key?
    && cr.sigOk(t, height >= CHAIN_ID_HEIGHT)
  }

  /** validateTxAgainstState, given the sender's immature coinbase. */
  predicate TxOk(cr: Crypto, st: State, t: Tx, immature: u64, height: nat) {
    && SigOk(cr, t, height)
    && t.nonce == Get(st, t.From()).nonce
    && t.amount + t.fee < TWO64
    && Spendable(Get(st, t.From()).balance, immature) >= t.amount + t.fee
  }

  /** Body transactions `txs`, in order, on top of `st`, for the block after `prefix`. */
  predicate BodyOk(cr: Crypto, prefix: seq<Block>, st: State, txs: seq<Tx>, minFee: u64) {
    |txs| == 0 ||
    (var rest, t := txs[..|txs| - 1], txs[|txs| - 1];
     && BodyOk(cr, prefix, st, rest, minFee)
     && NewId(cr, rest, t)
     && t.fee >= minFee
     && TxOk(cr, ApplyTxs(st, rest), t, ImmatureAt(prefix, |prefix|, t.From()), |prefix|))
  }

  predicate NewId(cr: Crypto, txs: seq<Tx>, t: Tx) {
    forall x :: x in txs ==> cr.txId(x) != cr.txId(t)
  }

  lemma {:induction false} BodyOkSame(cr: Crypto, prefix: seq<Block>, s: State, t: State, txs: seq<Tx>, minFee: u64)
    requires Same(s, t)
    ensures BodyOk(cr, prefix, s, txs, minFee) == BodyOk(cr, prefix, t, txs, minFee)
  {
    if |txs| > 0 {
      var rest, x := txs[..|txs| - 1], txs[|txs| - 1];
      BodyOkSame(cr, prefix, s, t, rest, minFee);
      ApplyTxsSame(s, t, rest);
      assert Get(ApplyTxs(s, rest), x.From()) == Get(ApplyTxs(t, rest), x.From());
    }
  }

  lemma {:induction false} BodyOkWeaken(cr: Crypto, prefix: seq<Block>, st: State, txs: seq<Tx>, minFee: u64)
    requires BodyOk(cr, prefix, st, txs, minFee)
    ensures BodyOk(cr, prefix, st, txs, 0)
  {
    if |txs| > 0 {
      BodyOkWeaken(cr, prefix, st, txs[..|txs| - 1], minFee);
    }
  }

  lemma {:induction false} BodyOkPrefix(cr: Crypto, prefix: seq<Block>, st: State, txs: seq<Tx>, minFee: u64, k: nat)
    requires BodyOk(cr, prefix, st, txs, minFee) && k <= |txs|
    ensures BodyOk(cr, prefix, st, txs[..k], minFee)
    decreases |txs|
  {
    if k == |txs| {
      assert txs[..k] == txs;
    } else {
      BodyOkPrefix(cr, prefix, st, txs[..|txs| - 1], minFee, k);
      assert txs[..|txs| - 1][..k] == txs[..k];
    }
  }

  // ------------------------------------------------------------------ blocks

  /** epochSeedFor */
  function SeedFor(cr: Crypto, blocks: seq<Block>, height: nat): Seed
    requires height <= |blocks|
  {
    var epoch := height / EPOCH_LENGTH;
    if epoch == 0 then Seed0 else SeedOf(Hash(cr, blocks[epoch * EPOCH_LENGTH - 1]))
  }

  predicate MeetsTarget(cr: Crypto, seed: Seed, hd: Header) {
    cr.pow(seed, hd) <= hd.target
  }

  predicate PowOk(cr: Crypto, prefix: seq<Block>, b: Block) {
    MeetsTarget(cr, SeedFor(cr, prefix, |prefix|), b.hd)
  }

  /** Position, hash link and field encoding. */
  predicate LinkOk(cr: Crypto, prefix: seq<Block>, b: Block)
    requires |prefix| > 0
  {
    && b.hd.height == |prefix|
    && b.hexOk && b.targetOk
    && b.hd.prev == Hash(cr, prefix[|prefix| - 1])
  }

  predicate HeaderOk(cr: Crypto, prefix: seq<Block>, b: Block)
    requires |prefix| > 0
  {
    && b.hd.version == 1
    && LinkOk(cr, prefix, b)
    && b.hd.time > Median(prefix)
  }

  /** Transaction count, root commitment and coinbase rules. */
  predicate ShapeOk(cr: Crypto, b: Block) {
    && 1 <= |b.txs| <= MAX_BLOCK_TXS
    && b.txs[0].IsCoinbase()
    && b.rootLower && b.hd.txRoot == TxRoot(cr, b.txs)
    && b.txs[0].nonce == b.hd.height
    && ValidAddr(b.txs[0].to)
    && b.txs[0].amount == Add64(BlockSubsidy(b.hd.height), TotalFees(b.txs))
  }

  /** The part of validity that depends on the chain alone and on no fork decision. */
  ghost predicate CoreOk(cr: Crypto, prefix: seq<Block>, b: Block)
    requires |prefix| > 0
  {
    && HeaderOk(cr, prefix, b)
    && 1 <= b.hd.target <= MAX_TARGET
    && PowOk(cr, prefix, b)
    && ShapeOk(cr, b)
    && BodyOk(cr, prefix, StateOf(prefix), b.txs[1..], 0)
  }

  ghost predicate ChainOk(cr: Crypto, blocks: seq<Block>) {
    && |blocks| > 0
    && blocks[0] == Genesis(cr)
    && forall i :: 1 <= i < |blocks| ==> CoreAt(cr, blocks, i)
  }

  ghost predicate CoreAt(cr: Crypto, blocks: seq<Block>, i: nat)
    requires 1 <= i < |blocks|
  {
    CoreOk(cr, blocks[..i], blocks[i])
  }

  lemma {:induction false} ChainOkExtend(cr: Crypto, blocks: seq<Block>, b: Block)
    requires ChainOk(cr, blocks) && CoreOk(cr, blocks, b)
    ensures ChainOk(cr, blocks + [b])
  {
    hide CoreOk;
    var next := blocks + [b];
    forall i | 1 <= i < |next| ensures CoreAt(cr, next, i) {
      if i < |blocks| {
        assert CoreAt(cr, blocks, i);
        assert next[..i] == blocks[..i];
      } else {
        assert next[..i] == blocks;
      }
    }
  }

  lemma {:induction false} ChainOkPrefix(cr: Crypto, blocks: seq<Block>, n: nat)
    requires ChainOk(cr, blocks) && 1 <= n <= |blocks|
    ensures ChainOk(cr, blocks[..n])
  {
    forall i | 1 <= i < n ensures CoreAt(cr, blocks[..n], i) {
      assert CoreAt(cr, blocks, i);
      assert blocks[..n][..i] == blocks[..i];
    }
  }

  lemma {:induction false} ChainTimesOk(cr: Crypto, blocks: seq<Block>)
    requires ChainOk(cr, blocks)
    ensures TimesOk(blocks)
  {
    forall i | 1 <= i < |blocks| ensures blocks[i].hd.time > Median(blocks[..i]) {
      assert CoreAt(cr, blocks, i);
    }
  }

  /** Median time past never falls along a valid chain. */
  lemma {:induction false} MedianNeverFalls(cr: Crypto, blocks: seq<Block>, i: nat, j: nat)
    requires ChainOk(cr, blocks) && 1 <= i <= j <= |blocks|
    ensures Median(blocks[..i]) <= Median(blocks[..j])
  {
    ChainTimesOk(cr, blocks);
    hide ChainOk, Median;
    MedianMonotone(blocks, i, j);
  }

  // ------------------------------------------------- acceptance of the next block

  /** What a node's decision depends on besides the chain: checkpoints by height, and the
      cached activation heights (0 = rescan). */
  datatype Rules = Rules(cr: Crypto, checkpoints: map<nat, nat>, lwmaAct: nat, feeAct: nat)

  ghost function RequiredTarget(lwmaAct: nat, prefix: seq<Block>): (t: nat)
    ensures 1 <= t <= MAX_TARGET
  {
    ExpectedTarget(prefix, ActiveWith(lwmaAct, prefix, LWMA_GATE))
  }

  ghost function RequiredFee(cr: Crypto, feeAct: nat, prefix: seq<Block>): u64 {
    if |prefix| < MIN_FEE_HEIGHT then 0 else MinFee(cr, prefix, ActiveWith(feeAct, prefix, FEE_GATE))
  }

  /** The checks of validateBlock before it asks for the required target. */
  ghost predicate HeaderPasses(rules: Rules, prefix: seq<Block>, b: Block, now: nat)
    requires |prefix| > 0
  {
    && HeaderOk(rules.cr, prefix, b)
    && (|prefix| in rules.checkpoints ==> rules.checkpoints[|prefix|] == Hash(rules.cr, b))
    && b.hd.time <= now + MAX_FUTURE_DRIFT
  }

  /** The checks of validateBlock before it asks for the fee floor, which it does from
      MIN_FEE_HEIGHT on. */
  ghost predicate FeeAsked(rules: Rules, prefix: seq<Block>, b: Block, now: nat)
    requires |prefix| > 0
  {
    && HeaderPasses(rules, prefix, b, now)
    && b.hd.target == RequiredTarget(rules.lwmaAct, prefix)
    && PowOk(rules.cr, prefix, b)
    && ShapeOk(rules.cr, b)
    && |prefix| >= MIN_FEE_HEIGHT
  }

  /** Everything validateBlock checks except the proof of work. */
  ghost predicate Unmined(rules: Rules, prefix: seq<Block>, b: Block, now: nat)
    requires |prefix| > 0
  {
    && HeaderPasses(rules, prefix, b, now)
    && b.hd.target == RequiredTarget(rules.lwmaAct, prefix)
    && ShapeOk(rules.cr, b)
    && BodyOk(rules.cr, prefix, StateOf(prefix), b.txs[1..], RequiredFee(rules.cr, rules.feeAct, prefix))
  }

  /** validateBlock accepts `b` as the next block of `prefix` at clock `now`. */
  ghost predicate NextOk(rules: Rules, prefix: seq<Block>, b: Block, now: nat)
    requires |prefix| > 0
  {
    Unmined(rules, prefix, b, now) && PowOk(rules.cr, prefix, b)
  }

  lemma {:induction false} NextIsCore(rules: Rules, prefix: seq<Block>, b: Block, now: nat)
    requires |prefix| > 0 && NextOk(rules, prefix, b, now)
    ensures CoreOk(rules.cr, prefix, b)
  {
    BodyOkWeaken(rules.cr, prefix, StateOf(prefix), b.txs[1..], RequiredFee(rules.cr, rules.feeAct, prefix));
  }

  /** Every block of `nbs` is acceptable in turn on top of `base`. */
  ghost predicate CandidateOk(rules: Rules, base: seq<Block>, nbs: seq<Block>, now: nat)
    requires |base| > 0
  {
    forall i :: 0 <= i < |nbs| ==> CandidateAt(rules, base, nbs, i, now)
  }

  ghost predicate CandidateAt(rules: Rules, base: seq<Block>, nbs: seq<Block>, i: nat, now: nat)
    requires |base| > 0 && i < |nbs|
  {
    NextOk(rules, base + nbs[..i], nbs[i], now)
  }

  lemma {:induction false} CandidateChainOk(rules: Rules, base: seq<Block>, nbs: seq<Block>, n: nat, now: nat)
    requires ChainOk(rules.cr, base) && n <= |nbs|
    requires forall i :: 0 <= i < n ==> CandidateAt(rules, base, nbs, i, now)
    ensures ChainOk(rules.cr, base + nbs[..n])
  {
    if n == 0 {
      assert base + nbs[..0] == base;
    } else {
      hide NextOk, CoreOk;
      var chain, b := base + nbs[..n - 1], nbs[n - 1];
      CandidateChainOk(rules, base, nbs, n - 1, now);
      assert CoreOk(rules.cr, chain, b) by {
        assert CandidateAt(rules, base, nbs, n - 1, now);
        NextIsCore(rules, chain, b, now);
      }
      ChainOkExtend(rules.cr, chain, b);
      assert base + nbs[..n] == chain + [b];
    }
  }

  // ---------------------------------------------------------- hash-linked chains

  /** Heights are positions and every block names its parent's hash. */
  ghost predicate Linked(cr: Crypto, blocks: seq<Block>) {
    && |blocks| > 0
    && blocks[0].hd == Genesis(cr).hd
    && forall i :: 1 <= i < |blocks| ==> LinkAt(cr, blocks, i)
  }

  ghost predicate LinkAt(cr: Crypto, blocks: seq<Block>, i: nat)
    requires 1 <= i < |blocks|
  {
    blocks[i].hd.height == i && blocks[i].hd.prev == Hash(cr, blocks[i - 1])
  }

  lemma {:induction false} ChainLinked(cr: Crypto, blocks: seq<Block>)
    requires ChainOk(cr, blocks)
    ensures Linked(cr, blocks)
  {
    forall i | 1 <= i < |blocks| ensures LinkAt(cr, blocks, i) {
      assert CoreAt(cr, blocks, i);
    }
  }

  /** A block hash determines every header below it. */
  lemma {:induction false} HashFixesHistory(cr: Crypto, xs: seq<Block>, ys: seq<Block>, n: nat, k: nat)
    requires Ideal(cr) && Linked(cr, xs) && Linked(cr, ys)
    requires k < n <= |xs| && n <= |ys| && Hash(cr, xs[n - 1]) == Hash(cr, ys[n - 1])
    ensures xs[k].hd == ys[k].hd
    decreases n
  {
    if k < n - 1 {
      assert LinkAt(cr, xs, n - 1) && LinkAt(cr, ys, n - 1);
      HashFixesHistory(cr, xs, ys, n - 1, k);
    }
  }

  /** The contents of a block whose root commitment was checked follow from its header. */
  ghost predicate Sealed(cr: Crypto, b: Block) {
    b.hexOk && b.rootLower && b.targetOk && b.hd.txRoot == TxRoot(cr, b.txs)
  }

  lemma {:induction false} SealedUnique(cr: Crypto, a: Block, b: Block)
    requires Ideal(cr) && Sealed(cr, a) && Sealed(cr, b) && a.hd == b.hd
    ensures a == b
  {
    var xs, ys := Ids(cr, a.txs), Ids(cr, b.txs);
    assert xs == ys;
    assert |a.txs| == |xs| == |ys| == |b.txs|;
    forall i | 0 <= i < |a.txs| ensures a.txs[i] == b.txs[i] {
      assert xs[i] == ys[i];
    }
    assert a.txs == b.txs;
  }

  lemma {:induction false} ChainSealed(cr: Crypto, blocks: seq<Block>, i: nat)
    requires ChainOk(cr, blocks) && i < |blocks|
    ensures Sealed(cr, blocks[i])
    ensures i == 0 ==> blocks[i].hd.height == 0
    ensures blocks[i].hd.height == i
  {
    if i > 0 {
      assert CoreAt(cr, blocks, i);
    }
  }
}
