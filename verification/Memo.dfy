/** The validation memos (core/chain.go verifiedPow, powOK, sigOK) and why trusting them accepts
    exactly the blocks that validation without them accepts. */
module Memo {
  import opened Types
  import opened Validation

  type PowKeys = set<(Seed, nat)>
  type SigKeys = set<(nat, nat)>

  /** If `b` stands on the hash-linked chain `prefix`, its proof of work holds there. */
  ghost predicate PowFact(cr: Crypto, prefix: seq<Block>, b: Block) {
    Linked(cr, prefix) && b.hd.height == |prefix| && b.hd.prev == Hash(cr, prefix[|prefix| - 1]) ==> PowOk(cr, prefix, b)
  }

  /** verifiedPow is keyed by block hash alone. */
  ghost predicate VerifiedSound(cr: Crypto, verified: set<nat>) {
    forall prefix, b :: Hash(cr, b) in verified ==> PowFact(cr, prefix, b)
  }

  /** powOK is keyed by epoch seed and block hash. */
  ghost predicate PowSound(cr: Crypto, keys: PowKeys) {
    forall seed, hd :: (seed, cr.hash(hd)) in keys ==> MeetsTarget(cr, seed, hd)
  }

  /** sigOK is keyed by transaction id and height. */
  ghost predicate SigSound(cr: Crypto, keys: SigKeys) {
    forall t, h :: (cr.txId(t), h) in keys ==> SigOk(cr, t, h)
  }

  lemma {:induction false} SeedFixed(cr: Crypto, xs: seq<Block>, ys: seq<Block>)
    requires Ideal(cr) && Linked(cr, xs) && Linked(cr, ys) && |xs| == |ys|
    requires Hash(cr, xs[|xs| - 1]) == Hash(cr, ys[|ys| - 1])
    ensures SeedFor(cr, xs, |xs|) == SeedFor(cr, ys, |ys|)
  {
    var epoch := |xs| / EPOCH_LENGTH;
    if epoch > 0 {
      HashFixesHistory(cr, xs, ys, |xs|, epoch * EPOCH_LENGTH - 1);
    }
  }

  /** A block hash fixes the block's epoch seed, so one verification under it holds for good. */
  lemma {:induction false} FactFromOne(cr: Crypto, prefix: seq<Block>, b: Block)
    requires Ideal(cr) && Linked(cr, prefix) && PowOk(cr, prefix, b)
    requires b.hd.height == |prefix| && b.hd.prev == Hash(cr, prefix[|prefix| - 1])
    ensures VerifiedSound(cr, {Hash(cr, b)})
  {
    forall other, x | Hash(cr, x) in {Hash(cr, b)} ensures PowFact(cr, other, x) {
      assert x.hd == b.hd;
      if Linked(cr, other) && x.hd.height == |other| && x.hd.prev == Hash(cr, other[|other| - 1]) {
        SeedFixed(cr, prefix, other);
      }
    }
  }

  lemma {:induction false} VerifiedUnion(cr: Crypto, v: set<nat>, w: set<nat>)
    requires VerifiedSound(cr, v) && VerifiedSound(cr, w)
    ensures VerifiedSound(cr, v + w)
  {
    forall prefix, b | Hash(cr, b) in v + w ensures PowFact(cr, prefix, b) {
      hide PowFact;
      assert Hash(cr, b) in v || Hash(cr, b) in w;
    }
  }

  lemma {:induction false} VerifiedSubset(cr: Crypto, v: set<nat>, w: set<nat>)
    requires VerifiedSound(cr, v) && w <= v
    ensures VerifiedSound(cr, w)
  {
    hide PowFact;
  }

  const MAX_VERIFIED := 8192

  /** markPowVerified: records a hash, first evicting arbitrary entries when the memo is full. */
  method MarkVerified(cr: Crypto, verified: set<nat>, h: nat) returns (v: set<nat>)
    requires VerifiedSound(cr, verified) && VerifiedSound(cr, {h})
    ensures VerifiedSound(cr, v) && h in v && v <= verified + {h}
    ensures |verified| < MAX_VERIFIED ==> v == verified + {h}
  {
    hide PowFact;
    v := verified;
    if h in v {
      return;
    }
    if |v| >= MAX_VERIFIED {
      var drop := MAX_VERIFIED / 2;
      while drop > 0 && v != {}
        invariant v <= verified
      {
        var k :| k in v;
        v := v - {k};
        drop := drop - 1;
      }
    }
    VerifiedSubset(cr, verified, v);
    VerifiedUnion(cr, v, {h});
    v := v + {h};
  }

  lemma {:induction false} PowAdd(cr: Crypto, keys: PowKeys, seed: Seed, hd: Header)
    requires Ideal(cr) && PowSound(cr, keys) && MeetsTarget(cr, seed, hd)
    ensures PowSound(cr, keys + {(seed, cr.hash(hd))})
  {
    hide MeetsTarget;
    forall s, x | (s, cr.hash(x)) in keys + {(seed, cr.hash(hd))} ensures MeetsTarget(cr, s, x) {
      if (s, cr.hash(x)) !in keys {
        assert x == hd;
      }
    }
  }

  lemma {:induction false} SigAdd(cr: Crypto, keys: SigKeys, t: Tx, h: nat)
    requires Ideal(cr) && SigSound(cr, keys) && SigOk(cr, t, h)
    ensures SigSound(cr, keys + {(cr.txId(t), h)})
  {
    hide SigOk;
    forall x, k | (cr.txId(x), k) in keys + {(cr.txId(t), h)} ensures SigOk(cr, x, k) {
      if (cr.txId(x), k) !in keys {
        assert x == t;
      }
    }
  }

  const POW_OK_MAX := 0x1_0000
  const SIG_OK_MAX := 0x2_0000

  /** The heights of the first `n` candidate blocks run on from `start`. */
  ghost predicate Aligned(nb: seq<Block>, start: nat, n: nat) {
    forall k :: 0 <= k < n && k < |nb| ==> nb[k].hd.height == start + k
  }

  /** A candidate block that meets its target under the seed of its place is on record. */
  ghost predicate PowRecorded(cr: Crypto, base: seq<Block>, nb: seq<Block>, i: nat, keys: PowKeys)
    requires i < |nb|
  {
    var seed := SeedFor(cr, base + nb[..i], |base| + i);
    nb[i].targetOk && MeetsTarget(cr, seed, nb[i].hd) ==> (seed, Hash(cr, nb[i])) in keys
  }

  lemma {:induction false} StillRecorded(cr: Crypto, base: seq<Block>, nb: seq<Block>, n: nat, keys: PowKeys,
      more: PowKeys)
    requires n <= |nb| && keys <= more && forall k :: 0 <= k < n ==> PowRecorded(cr, base, nb, k, keys)
    ensures forall k :: 0 <= k < n ==> PowRecorded(cr, base, nb, k, more)
  {
    hide MeetsTarget, SeedFor;
    forall k | 0 <= k < n ensures PowRecorded(cr, base, nb, k, more) {
      assert PowRecorded(cr, base, nb, k, keys);
    }
  }

  /** PreVerifyPoW: hashes a candidate off the lock, on whatever prefix it claims, and records
      each success under its epoch seed. The candidate need not even link to the chain. The memo is
      pruned on entry only, so everything verified in the call is still on record after it. */
  method PreVerifyPow(cr: Crypto, blocks: seq<Block>, powOK: PowKeys, start: nat,
      nb: seq<Block>) returns (keys: PowKeys)
    requires Ideal(cr) && PowSound(cr, powOK)
    ensures PowSound(cr, keys)
    ensures |powOK| <= POW_OK_MAX ==> powOK <= keys
    ensures 0 < start <= |blocks| ==>
      forall i :: 0 <= i < |nb| && Aligned(nb, start, i + 1) ==> PowRecorded(cr, blocks[..start], nb, i, keys)
  {
    keys := powOK;
    if start == 0 || |nb| == 0 || start > |blocks| {
      return;
    }
    hide MeetsTarget, Ideal, SeedFor, PowSound, PowRecorded;
    var prefix := blocks[..start];
    if |keys| > POW_OK_MAX {
      keys := {};
      NoPow(cr);
    }
    for i := 0 to |nb|
      invariant prefix == blocks[..start] + nb[..i] && PowSound(cr, keys)
      invariant |powOK| <= POW_OK_MAX ==> powOK <= keys
      invariant forall k :: 0 <= k < i ==> PowRecorded(cr, blocks[..start], nb, k, keys)
    {
      var b := nb[i];
      if b.hd.height != start + i {
        return;
      }
      ghost var before := keys;
      var seed := SeedFor(cr, prefix, b.hd.height);
      if (seed, Hash(cr, b)) !in keys && b.targetOk {
        if MeetsTarget(cr, seed, b.hd) {
          PowAdd(cr, keys, seed, b.hd);
          keys := keys + {(seed, Hash(cr, b))};
        }
      }
      StillRecorded(cr, blocks[..start], nb, i, before, keys);
      NowRecorded(cr, blocks[..start], nb, i, keys);
      assert blocks[..start] + nb[..i] + [b] == blocks[..start] + nb[..i + 1];
      prefix := prefix + [b];
    }
  }

  lemma {:induction false} NoPow(cr: Crypto)
    ensures PowSound(cr, {})
  {
  }

  lemma {:induction false} NowRecorded(cr: Crypto, base: seq<Block>, nb: seq<Block>, i: nat, keys: PowKeys)
    requires i < |nb|
    requires var seed := SeedFor(cr, base + nb[..i], |base| + i);
      (seed, Hash(cr, nb[i])) in keys || !nb[i].targetOk || !MeetsTarget(cr, seed, nb[i].hd)
    ensures PowRecorded(cr, base, nb, i, keys)
  {
    hide SeedFor, MeetsTarget;
  }

  lemma {:induction false} CoinbaseUnsigned(cr: Crypto, t: Tx, h: nat)
    ensures SigOk(cr, t, h) ==> !t.IsCoinbase()
  {
  }

  /** Every transaction among the first `n` whose signature holds at height `h` is on record. */
  ghost predicate SigsRecorded(cr: Crypto, h: nat, txs: seq<Tx>, n: nat, keys: SigKeys) {
    forall j :: 0 <= j < n && j < |txs| && SigOk(cr, txs[j], h) ==> (cr.txId(txs[j]), h) in keys
  }

  /** PreVerifySigs, with the same guarantee. */
  method PreVerifySigs(cr: Crypto, sigOK: SigKeys, start: nat, nb: seq<Block>) returns (keys: SigKeys)
    requires Ideal(cr) && SigSound(cr, sigOK)
    ensures SigSound(cr, keys)
    ensures |sigOK| <= SIG_OK_MAX ==> sigOK <= keys
    ensures start > 0 ==>
      forall i :: 0 <= i < |nb| && Aligned(nb, start, i + 1) ==> SigsRecorded(cr, start + i, nb[i].txs, |nb[i].txs|, keys)
  {
    keys := sigOK;
    if start == 0 || |nb| == 0 {
      return;
    }
    hide SigOk, Ideal;
    if |keys| > SIG_OK_MAX {
      keys := {};
    }
    for i := 0 to |nb|
      invariant SigSound(cr, keys) && (|sigOK| <= SIG_OK_MAX ==> sigOK <= keys)
      invariant forall k :: 0 <= k < i ==> SigsRecorded(cr, start + k, nb[k].txs, |nb[k].txs|, keys)
    {
      var h := start + i;
      if nb[i].hd.height != h {
        return;
      }
      for j := 0 to |nb[i].txs|
        invariant SigSound(cr, keys) && (|sigOK| <= SIG_OK_MAX ==> sigOK <= keys)
        invariant forall k :: 0 <= k < i ==> SigsRecorded(cr, start + k, nb[k].txs, |nb[k].txs|, keys)
        invariant SigsRecorded(cr, h, nb[i].txs, j, keys)
      {
        var t := nb[i].txs[j];
        CoinbaseUnsigned(cr, t, h);
        if !t.IsCoinbase() && (cr.txId(t), h) !in keys && SigOk(cr, t, h) {
          SigAdd(cr, keys, t, h);
          keys := keys + {(cr.txId(t), h)};
        }
      }
    }
  }
}
