/** The epoch seeds (core/chain.go epochSeedFor): every epoch of 4096 blocks is mined under one
    seed, and that seed is the identity of the last block before the epoch. */
module Epochs {
  import opened Types
  import opened Validation

  ghost predicate InEpoch(e: nat, height: nat) {
    4096 * e <= height < 4096 * e + 4096
  }

  /** `seed` is the one that blocks at `height` are mined under: fixed in the first epoch, and in a
      later one the hash of the last block below the epoch. */
  ghost predicate SeedAt(cr: Crypto, blocks: seq<Block>, height: nat, seed: Seed) {
    forall e: nat :: InEpoch(e, height) ==> SeedOfEpoch(cr, blocks, e, seed)
  }

  ghost predicate SeedOfEpoch(cr: Crypto, blocks: seq<Block>, e: nat, seed: Seed) {
    if e == 0 then seed == Seed0 else 4096 * e <= |blocks| && seed == SeedOf(cr.hash(blocks[4096 * e - 1].hd))
  }

  /** The proof of work of the block after `prefix`, judged under the block that fixes the seed. */
  ghost predicate Mined(cr: Crypto, prefix: seq<Block>, hd: Header) {
    forall seed :: SeedAt(cr, prefix, |prefix|, seed) ==> cr.pow(seed, hd) <= hd.target
  }

  lemma {:induction false} EpochIs(e: nat, height: nat)
    requires InEpoch(e, height)
    ensures height / 4096 == e
  {
  }

  lemma {:induction false} SeedIs(cr: Crypto, blocks: seq<Block>, e: nat, height: nat)
    requires height <= |blocks| && InEpoch(e, height)
    ensures SeedOfEpoch(cr, blocks, e, SeedFor(cr, blocks, height))
  {
    EpochIs(e, height);
  }

  /** The seed a node computes is the one of the block below the epoch, and no other. */
  lemma {:induction false} SeedExact(cr: Crypto, blocks: seq<Block>, height: nat, seed: Seed)
    requires height <= |blocks|
    ensures SeedAt(cr, blocks, height, seed) <==> seed == SeedFor(cr, blocks, height)
  {
    var e := height / 4096;
    assert InEpoch(e, height);
    SeedIs(cr, blocks, e, height);
    forall e': nat | InEpoch(e', height) ensures e' == e {
      EpochIs(e', height);
    }
    hide SeedFor;
  }

  /** All heights of one epoch of a chain have one seed. */
  lemma {:induction false} OneSeed(cr: Crypto, blocks: seq<Block>, e: nat, i: nat, j: nat)
    requires 4096 * e <= i <= |blocks| && 4096 * e <= j <= |blocks|
    requires i <= 4096 * e + 4095 && j <= 4096 * e + 4095
    ensures SeedFor(cr, blocks, i) == SeedFor(cr, blocks, j)
  {
    SeedIs(cr, blocks, e, i);
    SeedIs(cr, blocks, e, j);
    hide SeedFor;
  }

  /** Two hash-linked chains give an epoch the same seed exactly when they agree on the block right
      below the epoch, and then they agree on every header below it. */
  lemma {:induction false} SeedsAgree(cr: Crypto, xs: seq<Block>, ys: seq<Block>, e: nat, i: nat, j: nat)
    requires Ideal(cr) && Linked(cr, xs) && Linked(cr, ys)
    requires e > 0 && 4096 * e <= i <= |xs| && 4096 * e <= j <= |ys|
    requires i <= 4096 * e + 4095 && j <= 4096 * e + 4095
    ensures SeedFor(cr, xs, i) == SeedFor(cr, ys, j) <==> xs[4096 * e - 1].hd == ys[4096 * e - 1].hd
    ensures SeedFor(cr, xs, i) == SeedFor(cr, ys, j) ==> forall k :: 0 <= k < 4096 * e ==> xs[k].hd == ys[k].hd
  {
    SeedIs(cr, xs, e, i);
    SeedIs(cr, ys, e, j);
    hide SeedFor, Linked;
    if xs[4096 * e - 1].hd == ys[4096 * e - 1].hd {
      forall k: nat | k < 4096 * e ensures xs[k].hd == ys[k].hd {
        HashFixesHistory(cr, xs, ys, 4096 * e, k);
      }
    }
  }

  /** On valid chains the seed of an epoch commits to the whole chain below it: equal seeds mean
      equal blocks, transactions included. A reorganisation therefore changes the seed of an epoch
      exactly when its fork point lies below the epoch. */
  lemma {:induction false} SeedCommits(cr: Crypto, xs: seq<Block>, ys: seq<Block>, e: nat)
    requires Ideal(cr) && ChainOk(cr, xs) && ChainOk(cr, ys)
    requires e > 0 && 4096 * e <= |xs| && 4096 * e <= |ys|
    ensures SeedFor(cr, xs, 4096 * e) == SeedFor(cr, ys, 4096 * e) <==> xs[..4096 * e] == ys[..4096 * e]
  {
    ChainLinked(cr, xs);
    ChainLinked(cr, ys);
    SeedsAgree(cr, xs, ys, e, 4096 * e, 4096 * e);
    hide SeedFor, Linked;
    if SeedFor(cr, xs, 4096 * e) == SeedFor(cr, ys, 4096 * e) {
      forall k: nat | k < 4096 * e ensures xs[k] == ys[k] {
        ChainSealed(cr, xs, k);
        ChainSealed(cr, ys, k);
        SealedUnique(cr, xs[k], ys[k]);
      }
    } else {
      assert xs[4096 * e - 1].hd != ys[4096 * e - 1].hd;
      assert xs[..4096 * e][4096 * e - 1] != ys[..4096 * e][4096 * e - 1];
    }
  }

  lemma {:induction false} MinedIs(cr: Crypto, prefix: seq<Block>, b: Block)
    ensures PowOk(cr, prefix, b) <==> Mined(cr, prefix, b.hd)
  {
    forall seed ensures SeedAt(cr, prefix, |prefix|, seed) <==> seed == SeedFor(cr, prefix, |prefix|) {
      SeedExact(cr, prefix, |prefix|, seed);
    }
    hide SeedFor, SeedAt;
  }

  /** Every block of a valid chain was mined under the last block below its epoch. */
  lemma {:induction false} ChainMined(cr: Crypto, blocks: seq<Block>, e: nat, i: nat)
    requires ChainOk(cr, blocks) && 1 <= i < |blocks| && 4096 * e <= i <= 4096 * e + 4095
    ensures e == 0 ==> cr.pow(Seed0, blocks[i].hd) <= blocks[i].hd.target
    ensures e > 0 ==> cr.pow(SeedOf(cr.hash(blocks[4096 * e - 1].hd)), blocks[i].hd) <= blocks[i].hd.target
  {
    assert CoreAt(cr, blocks, i);
    SeedIs(cr, blocks[..i], e, i);
    hide SeedFor;
  }
}
