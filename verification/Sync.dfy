/** Synchronisation (node/node.go syncWithPeerOnce): the tip filter, the search for the common
    ancestor, chunked adoption, and what two nodes agree on once neither can adopt from the other. */
module Sync {
  import opened Types
  import opened Activation
  import opened Retarget
  import opened Validation
  import opened Protocol
  import opened Runs

  // ----------------------------------------------------------------- the filter

  /** An announced cumulative work is hex of at most 80 digits; anything else is no number. */
  datatype Announced = Garbled | Work(value: nat)

  /** tipAhead: more work, or equal work and a smaller tip hash. */
  predicate TipAhead(work: Announced, hash: nat, ourWork: nat, ourHash: nat) {
    work.Work? && (work.value > ourWork || (work.value == ourWork && hash < ourHash))
  }

  /** The filter never skips a peer whose chain would be adopted. */
  lemma {:induction false} FilterComplete(v: View, start: nat, them: seq<Block>, now: nat)
    requires ChainOk(v.rules.cr, v.blocks) && start <= |v.blocks| && start <= |them| && v.blocks[..start] == them[..start]
    requires Judge(v, start, them[start..], now).Adopted? && FairPenalty(|v.blocks| - start, v.penalty)
    ensures |them| > 0
    ensures TipAhead(Work(WorkSum(them)), Hash(v.rules.cr, them[|them| - 1]),
                     WorkSum(v.blocks), Hash(v.rules.cr, v.blocks[|v.blocks| - 1]))
  {
    hide ChainOk, TooDeepFor, DropsCheckpoint, CandidateOk, WorkSum;
    assert v.blocks[..start] + them[start..] == them;
    assert Outweighs(v, start, them[start..]);
    ThresholdAbove(v.blocks, |v.blocks| - start, v.penalty);
  }

  /** The filter is the fork-choice order: it lets through just the peers whose announced chain is
      better than ours, and no announcement that is not a number. */
  lemma {:induction false} FilterIsForkChoice(cr: Crypto, ours: seq<Block>, them: seq<Block>)
    requires |ours| > 0 && |them| > 0
    ensures TipAhead(Work(WorkSum(them)), Hash(cr, them[|them| - 1]), WorkSum(ours), Hash(cr, ours[|ours| - 1]))
      <==> Better(cr, them, ours)
    ensures forall hash: nat, w: nat, h: nat :: !TipAhead(Garbled, hash, w, h)
  {
    hide WorkSum;
  }

  // ---------------------------------------------------- common-ancestor search

  datatype Ancestor = Found(height: nat) | GenesisMismatch

  ghost predicate Agrees(cr: Crypto, ours: seq<Block>, peer: nat -> nat, h: nat)
    requires h < |ours|
  {
    Hash(cr, ours[h]) == peer(h)
  }

  /** The binary search over heights, with `peer` answering /p2p/hash. Every peer answer leads to
      a height that was confirmed; a peer that holds a hash-linked chain gets the greatest one. */
  method FindAncestor(cr: Crypto, ours: seq<Block>, peer: nat -> nat, theirHeight: nat) returns (r: Ancestor)
    requires |ours| > 0
    ensures r.Found? ==> r.height < |ours| && r.height <= theirHeight && Agrees(cr, ours, peer, r.height)
    ensures r.GenesisMismatch? ==> !Agrees(cr, ours, peer, 0)
    ensures r.Found? && Monotone(cr, ours, peer, theirHeight) ==>
      forall h :: r.height < h < |ours| && h <= theirHeight ==> !Agrees(cr, ours, peer, h)
  {
    var ourH := |ours| - 1;
    var lo, hi := 0, ourH;
    if theirHeight < hi {
      hi := theirHeight;
    }
    var anc := 0;
    while lo <= hi
      invariant 0 <= lo <= hi + 1 <= |ours| && 0 <= hi <= theirHeight
      invariant lo == 0 || (anc == lo - 1 && Agrees(cr, ours, peer, anc))
      invariant Monotone(cr, ours, peer, theirHeight) ==>
        forall h :: hi < h < |ours| && h <= theirHeight ==> !Agrees(cr, ours, peer, h)
      decreases hi - lo
    {
      var mid := (lo + hi) / 2;
      if Hash(cr, ours[mid]) == peer(mid) {
        anc := mid;
        lo := mid + 1;
      } else {
        assert !Agrees(cr, ours, peer, mid);
        if mid == 0 {
          return GenesisMismatch;
        }
        hi := mid - 1;
      }
    }
    r := Found(anc);
  }

  /** Agreement at a height implies agreement below it. */
  ghost predicate Monotone(cr: Crypto, ours: seq<Block>, peer: nat -> nat, theirHeight: nat) {
    forall h, k :: 0 <= k <= h < |ours| && h <= theirHeight && Agrees(cr, ours, peer, h) ==> Agrees(cr, ours, peer, k)
  }

  /** A peer that answers from a hash-linked chain is monotone: a hash fixes its ancestors. */
  lemma {:induction false} LinkedPeerMonotone(cr: Crypto, ours: seq<Block>, them: seq<Block>, peer: nat -> nat)
    requires Ideal(cr) && Linked(cr, ours) && Linked(cr, them)
    requires forall h :: 0 <= h < |them| ==> peer(h) == Hash(cr, them[h])
    ensures Monotone(cr, ours, peer, |them| - 1)
  {
    forall h, k | 0 <= k <= h < |ours| && h <= |them| - 1 && Agrees(cr, ours, peer, h)
      ensures Agrees(cr, ours, peer, k)
    {
      HashFixesHistory(cr, ours, them, h + 1, k);
    }
  }

  /** So the search finds the true fork point: everything up to it is shared, nothing above. */
  lemma {:induction false} AncestorIsFork(cr: Crypto, ours: seq<Block>, them: seq<Block>, peer: nat -> nat, anc: nat)
    requires Ideal(cr) && ChainOk(cr, ours) && ChainOk(cr, them)
    requires forall h :: 0 <= h < |them| ==> peer(h) == Hash(cr, them[h])
    requires anc < |ours| && anc < |them| && Agrees(cr, ours, peer, anc)
    ensures ours[..anc + 1] == them[..anc + 1]
  {
    ChainLinked(cr, ours);
    ChainLinked(cr, them);
    hide ChainOk;
    forall k | 0 <= k <= anc ensures ours[k] == them[k] {
      HashFixesHistory(cr, ours, them, anc + 1, k);
      SameBlock(cr, ours, them, k);
    }
  }

  // ------------------------------------------------------------ chunked adoption

  lemma {:induction false} ExtensionVerdict(v: View, nbs: seq<Block>, now: nat)
    requires ChainOk(v.rules.cr, v.blocks) && |nbs| > 0
    ensures Judge(v, |v.blocks|, nbs, now).Adopted? <==> CandidateOk(v.rules, v.blocks, nbs, now)
  {
    var n := |v.blocks|;
    assert v.blocks[..n] == v.blocks;
    hide ChainOk, WorkSum, WorkOf, ActiveWith, MeetsAnchor;
    WorkConcat(v.blocks, nbs);
    if CandidateOk(v.rules, v.blocks, nbs, now) {
      forall i | 0 <= i < |nbs| ensures nbs[i].targetOk && nbs[i].hd.target <= MAX_TARGET {
        assert CandidateAt(v.rules, v.blocks, nbs, i, now);
      }
      WorkPositive(nbs);
    }
    hide CandidateOk;
  }

  lemma {:induction false} WorkPositive(nbs: seq<Block>)
    requires |nbs| > 0 && forall i :: 0 <= i < |nbs| ==> nbs[i].hd.target <= MAX_TARGET
    ensures WorkSum(nbs) > 0
  {
    WorkFloor(nbs[|nbs| - 1].hd.target);
  }

  lemma {:induction false} AdoptedExtension(v: View, v1: View, nbs: seq<Block>, now: nat)
    requires Step(v, AdoptOp(|v.blocks|, nbs, now), v1) && Judge(v, |v.blocks|, nbs, now).Adopted?
    ensures v1.blocks == v.blocks + nbs
  {
    hide Judge, LwmaAfter, FeeAfter;
    assert v.blocks[..|v.blocks|] == v.blocks;
  }

  /** A cache filled during a replay holds the activation of a chain that was replayed. */
  lemma {:induction false} FilledBy(cached: nat, cached': nat, rules: Rules, base: seq<Block>, nbs: seq<Block>,
      now: nat, fee: bool, g: Gate, maxReorg: nat)
    requires g.Valid() && |base| > 0 && cached' == Filled(cached, LookedUp(rules, base, nbs, |nbs|, now, fee), g, maxReorg)
    ensures CacheGrew(cached, cached', base, nbs, g, maxReorg)
  {
    hide ActivationOf, Looks;
    var p := LookedUp(rules, base, nbs, |nbs|, now, fee);
    NothingToFill(cached, g, maxReorg);
    if p != [] {
      var i :| 0 <= i < |nbs| && p == base + nbs[..i] && Looks(rules, base, nbs, i, now, fee);
      assert CacheStep(cached, cached', base + nbs[..i], g, maxReorg);
    }
  }

  /** The caches after adopting the extension are those of its replay. */
  lemma {:induction false} ExtensionCaches(v: View, v1: View, nbs: seq<Block>, now: nat)
    requires Step(v, AdoptOp(|v.blocks|, nbs, now), v1)
    ensures v1.rules.cr == v.rules.cr && v1.rules.checkpoints == v.rules.checkpoints
    ensures CacheGrew(v.rules.lwmaAct, v1.rules.lwmaAct, v.blocks, nbs, LWMA_GATE, v.maxReorg)
    ensures CacheGrew(v.rules.feeAct, v1.rules.feeAct, v.blocks, nbs, FEE_GATE, v.maxReorg)
  {
    hide Judge, CacheGrew, Filled, LookedUp;
    assert v.blocks[..|v.blocks|] == v.blocks;
    if IsReplayed(v, |v.blocks|, nbs, now) {
      FilledBy(v.rules.lwmaAct, v1.rules.lwmaAct, v.rules, v.blocks, nbs, now, false, LWMA_GATE, v.maxReorg);
      FilledBy(v.rules.feeAct, v1.rules.feeAct, v.rules, v.blocks, nbs, now, true, FEE_GATE, v.maxReorg);
    } else {
      NothingToFill(v.rules.lwmaAct, LWMA_GATE, v.maxReorg);
      NothingToFill(v.rules.feeAct, FEE_GATE, v.maxReorg);
      NotGrown(v.rules.lwmaAct, v.blocks, nbs, LWMA_GATE, v.maxReorg);
      NotGrown(v.rules.feeAct, v.blocks, nbs, FEE_GATE, v.maxReorg);
    }
  }

  lemma {:induction false} NotGrown(cached: nat, base: seq<Block>, nbs: seq<Block>, g: Gate, maxReorg: nat)
    requires g.Valid()
    ensures CacheGrew(cached, cached, base, nbs, g, maxReorg)
  {
  }

  /** Adopting an extension in two chunks is adopting it whole. */
  lemma {:induction false} TwoChunks(v: View, v1: View, nbs: seq<Block>, k: nat, now: nat)
    requires ChainOk(v.rules.cr, v.blocks) && 0 < k < |nbs|
    requires Step(v, AdoptOp(|v.blocks|, nbs[..k], now), v1)
    requires Judge(v, |v.blocks|, nbs[..k], now).Adopted?
    ensures Judge(v1, |v1.blocks|, nbs[k..], now).Adopted? <==> Judge(v, |v.blocks|, nbs, now).Adopted?
    ensures v1.blocks + nbs[k..] == v.blocks + nbs
  {
    hide Judge, Step, CandidateOk, ChainOk;
    AdoptedExtension(v, v1, nbs[..k], now);
    HasBlocks(v.rules.cr, v.blocks);
    StepChainOk(v, AdoptOp(|v.blocks|, nbs[..k], now), v1);
    ExtensionVerdict(v, nbs[..k], now);
    ExtensionVerdict(v, nbs, now);
    ExtensionVerdict(v1, nbs[k..], now);
    ChunkedOk(v, v1, nbs, k, now);
    assert nbs[..k] + nbs[k..] == nbs;
  }

  /** The blocks of all chunks in order. */
  function Join(chunks: seq<seq<Block>>): seq<Block> {
    if chunks == [] then [] else chunks[0] + Join(chunks[1..])
  }

  ghost predicate ChunkStep(vs: seq<View>, chunks: seq<seq<Block>>, now: nat, i: nat)
    requires i < |chunks| && |vs| == |chunks| + 1
  {
    |chunks[i]| > 0 && Step(vs[i], AdoptOp(|vs[i].blocks|, chunks[i], now), vs[i + 1])
  }

  /** The chunks are offered one after the other, each as an extension of the chain so far. */
  ghost predicate ChunkRun(vs: seq<View>, chunks: seq<seq<Block>>, now: nat) {
    |vs| == |chunks| + 1 && forall i :: 0 <= i < |chunks| ==> ChunkStep(vs, chunks, now, i)
  }

  ghost predicate ChunkAdopted(vs: seq<View>, chunks: seq<seq<Block>>, now: nat, i: nat)
    requires i < |chunks| && |vs| == |chunks| + 1
  {
    Judge(vs[i], |vs[i].blocks|, chunks[i], now).Adopted?
  }

  ghost predicate AllAdopted(vs: seq<View>, chunks: seq<seq<Block>>, now: nat)
    requires |vs| == |chunks| + 1
  {
    forall i :: 0 <= i < |chunks| ==> ChunkAdopted(vs, chunks, now, i)
  }

  /** However an extension is cut into chunks, all of them are adopted exactly when the whole would
      be, and they leave the same chain. */
  lemma {:induction false} ChunkedExtension(vs: seq<View>, chunks: seq<seq<Block>>, now: nat)
    requires ChunkRun(vs, chunks, now) && |chunks| > 0 && ChainOk(vs[0].rules.cr, vs[0].blocks)
    ensures AllAdopted(vs, chunks, now) <==> Judge(vs[0], |vs[0].blocks|, Join(chunks), now).Adopted?
    ensures AllAdopted(vs, chunks, now) ==> vs[|chunks|].blocks == vs[0].blocks + Join(chunks)
    decreases |chunks|
  {
    hide Judge, Step, ChainOk;
    var v, whole, k := vs[0], Join(chunks), |chunks[0]|;
    assert ChunkStep(vs, chunks, now, 0);
    assert whole[..k] == chunks[0];
    if |chunks| == 1 {
      OnlyChunk(vs, chunks, now);
    } else {
      assert ChunkStep(vs, chunks, now, 1);
      assert |whole| > k && whole[k..] == Join(chunks[1..]);
      if Judge(v, |v.blocks|, chunks[0], now).Adopted? {
        TwoChunks(v, vs[1], whole, k, now);
        StepChainOk(v, AdoptOp(|v.blocks|, chunks[0], now), vs[1]);
        TailRun(vs, chunks, now);
        ChunkedExtension(vs[1..], chunks[1..], now);
        TailAdopted(vs, chunks, now);
      } else {
        FirstChunk(v, whole, k, now);
        assert !ChunkAdopted(vs, chunks, now, 0);
      }
    }
  }

  lemma {:induction false} OnlyChunk(vs: seq<View>, chunks: seq<seq<Block>>, now: nat)
    requires |chunks| == 1 && |vs| == 2 && ChunkStep(vs, chunks, now, 0)
    ensures Join(chunks) == chunks[0]
    ensures AllAdopted(vs, chunks, now) <==> ChunkAdopted(vs, chunks, now, 0)
    ensures ChunkAdopted(vs, chunks, now, 0) ==> vs[1].blocks == vs[0].blocks + chunks[0]
  {
    hide Judge, Step;
    assert Join(chunks[1..]) == [];
    if ChunkAdopted(vs, chunks, now, 0) {
      AdoptedExtension(vs[0], vs[1], chunks[0], now);
    }
  }

  lemma {:induction false} TailRun(vs: seq<View>, chunks: seq<seq<Block>>, now: nat)
    requires ChunkRun(vs, chunks, now) && |chunks| > 1
    ensures ChunkRun(vs[1..], chunks[1..], now)
  {
    hide Step;
    forall i | 0 <= i < |chunks[1..]| ensures ChunkStep(vs[1..], chunks[1..], now, i) {
      assert ChunkStep(vs, chunks, now, i + 1);
    }
  }

  lemma {:induction false} TailAdopted(vs: seq<View>, chunks: seq<seq<Block>>, now: nat)
    requires |vs| == |chunks| + 1 && |chunks| > 1 && ChunkAdopted(vs, chunks, now, 0)
    ensures AllAdopted(vs, chunks, now) <==> AllAdopted(vs[1..], chunks[1..], now)
  {
    hide Judge;
    if AllAdopted(vs, chunks, now) {
      forall i | 0 <= i < |chunks[1..]| ensures ChunkAdopted(vs[1..], chunks[1..], now, i) {
        assert ChunkAdopted(vs, chunks, now, i + 1);
      }
    }
    if AllAdopted(vs[1..], chunks[1..], now) {
      forall i | 0 <= i < |chunks| ensures ChunkAdopted(vs, chunks, now, i) {
        assert i > 0 ==> ChunkAdopted(vs[1..], chunks[1..], now, i - 1);
      }
    }
  }

  /** A refused first chunk stands for a refused extension. */
  lemma {:induction false} FirstChunk(v: View, nbs: seq<Block>, k: nat, now: nat)
    requires ChainOk(v.rules.cr, v.blocks) && 0 < k <= |nbs|
    requires !Judge(v, |v.blocks|, nbs[..k], now).Adopted?
    ensures !Judge(v, |v.blocks|, nbs, now).Adopted?
  {
    hide Judge, ChainOk;
    ExtensionVerdict(v, nbs[..k], now);
    ExtensionVerdict(v, nbs, now);
    HasBlocks(v.rules.cr, v.blocks);
    hide NextOk;
    if CandidateOk(v.rules, v.blocks, nbs, now) {
      forall i | 0 <= i < k ensures CandidateAt(v.rules, v.blocks, nbs[..k], i, now) {
        assert CandidateAt(v.rules, v.blocks, nbs, i, now);
        assert nbs[..k][..i] == nbs[..i];
      }
    }
  }

  /** The rest of a chunked extension is valid on the grown chain exactly when the whole is. */
  lemma {:induction false} ChunkedOk(v: View, v1: View, nbs: seq<Block>, k: nat, now: nat)
    requires |v.blocks| > 0 && 0 < k < |nbs| && v1.blocks == v.blocks + nbs[..k]
    requires Step(v, AdoptOp(|v.blocks|, nbs[..k], now), v1) && CandidateOk(v.rules, v.blocks, nbs[..k], now)
    ensures CandidateOk(v1.rules, v1.blocks, nbs[k..], now) <==> CandidateOk(v.rules, v.blocks, nbs, now)
  {
    var base := v.blocks;
    hide Step, CandidateAt;
    forall i | 0 <= i < |nbs|
      ensures i < k ==> CandidateAt(v.rules, base, nbs, i, now)
      ensures i >= k ==> CandidateAt(v.rules, base, nbs, i, now) == CandidateAt(v1.rules, v1.blocks, nbs[k..], i - k, now)
    {
      if i < k {
        ChunkHead(v.rules, base, nbs, k, i, now);
      } else {
        ChunkTail(v, v1, nbs, k, i, now);
      }
    }
    if CandidateOk(v.rules, base, nbs, now) {
      forall j | 0 <= j < |nbs[k..]| ensures CandidateAt(v1.rules, v1.blocks, nbs[k..], j, now) {
        assert CandidateAt(v.rules, base, nbs, k + j, now);
      }
    }
    if CandidateOk(v1.rules, v1.blocks, nbs[k..], now) {
      forall i | 0 <= i < |nbs| ensures CandidateAt(v.rules, base, nbs, i, now) {
        if i >= k {
          assert CandidateAt(v1.rules, v1.blocks, nbs[k..], i - k, now);
        }
      }
    }
  }

  lemma {:induction false} ChunkHead(rules: Rules, base: seq<Block>, nbs: seq<Block>, k: nat, i: nat, now: nat)
    requires |base| > 0 && i < k <= |nbs| && CandidateOk(rules, base, nbs[..k], now)
    ensures CandidateAt(rules, base, nbs, i, now)
  {
    hide NextOk;
    assert CandidateAt(rules, base, nbs[..k], i, now);
    assert nbs[..k][..i] == nbs[..i];
  }

  lemma {:induction false} CutTwice(base: seq<Block>, nbs: seq<Block>, k: nat, i: nat)
    requires k <= i < |nbs|
    ensures base + nbs[..k] + nbs[k..][..i - k] == base + nbs[..i] && nbs[k..][i - k] == nbs[i]
  {
  }

  lemma {:induction false} CandidateIs(rules: Rules, base: seq<Block>, nbs: seq<Block>, i: nat, now: nat,
      prefix: seq<Block>)
    requires |base| > 0 && i < |nbs| && prefix == base + nbs[..i]
    ensures CandidateAt(rules, base, nbs, i, now) == NextOk(rules, prefix, nbs[i], now)
  {
    hide NextOk;
  }

  lemma {:induction false} ChunkTail(v: View, v1: View, nbs: seq<Block>, k: nat, i: nat, now: nat)
    requires |v.blocks| > 0 && 0 < k <= i < |nbs| && v1.blocks == v.blocks + nbs[..k]
    requires Step(v, AdoptOp(|v.blocks|, nbs[..k], now), v1)
    ensures CandidateAt(v.rules, v.blocks, nbs, i, now) == CandidateAt(v1.rules, v1.blocks, nbs[k..], i - k, now)
  {
    var base, prefix := v.blocks, v.blocks + nbs[..i];
    hide *;
    ExtensionCaches(v, v1, nbs[..k], now);
    CutTwice(base, nbs, k, i);
    CandidateIs(v.rules, base, nbs, i, now, prefix);
    CandidateIs(v1.rules, v1.blocks, nbs[k..], i - k, now, prefix);
    GrewNeutral(base, nbs, k, i, v.rules.lwmaAct, v1.rules.lwmaAct, LWMA_GATE, v.maxReorg);
    GrewNeutral(base, nbs, k, i, v.rules.feeAct, v1.rules.feeAct, FEE_GATE, v.maxReorg);
    assert |prefix| > 0;
    DecisionOnly(v.rules, v1.rules, prefix, nbs[i], now);
  }

  lemma {:induction false} GrewNeutral(base: seq<Block>, nbs: seq<Block>, k: nat, i: nat, cached: nat, cached': nat,
      g: Gate, maxReorg: nat)
    requires g.Valid() && k <= i <= |nbs| && CacheGrew(cached, cached', base, nbs[..k], g, maxReorg)
    ensures ActiveWith(cached', base + nbs[..i], g) == ActiveWith(cached, base + nbs[..i], g)
  {
    if cached' != cached {
      var j :| 0 <= j < k && CacheStep(cached, cached', base + nbs[..k][..j], g, maxReorg);
      var chain := base + nbs[..i];
      hide ActivationOf;
      assert chain[..|base| + j] == base + nbs[..k][..j];
      assert chain[..|chain|] == chain;
      CacheFillNeutral(cached, cached', chain, |base| + j, |chain|, g, maxReorg);
    }
  }

  /** Acceptance depends on the caches through the two fork decisions only. */
  lemma {:induction false} DecisionOnly(r: Rules, s: Rules, prefix: seq<Block>, b: Block, now: nat)
    requires |prefix| > 0 && r.cr == s.cr && r.checkpoints == s.checkpoints
    requires ActiveWith(r.lwmaAct, prefix, LWMA_GATE) == ActiveWith(s.lwmaAct, prefix, LWMA_GATE)
    requires ActiveWith(r.feeAct, prefix, FEE_GATE) == ActiveWith(s.feeAct, prefix, FEE_GATE)
    ensures NextOk(r, prefix, b, now) == NextOk(s, prefix, b, now)
  {
    hide ActiveWith, HeaderOk, ShapeOk, PowOk, BodyOk;
  }

  // ------------------------------------------------------------------ agreement

  /** A node without caches or checkpoints and with clock `now` would accept every block. */
  ghost predicate Acceptable(cr: Crypto, blocks: seq<Block>, now: nat) {
    ChainOk(cr, blocks) && forall i :: 1 <= i < |blocks| ==> AcceptableAt(cr, blocks, i, now)
  }

  ghost predicate AcceptableAt(cr: Crypto, blocks: seq<Block>, i: nat, now: nat)
    requires 1 <= i < |blocks|
  {
    NextOk(Rules(cr, map[], 0, 0), blocks[..i], blocks[i], now)
  }

  /** No checkpoints, no reorg penalty, and activation caches settled below the fork. */
  ghost predicate Plain(v: View, fork: nat) {
    && v.rules.checkpoints == map[] && v.penalty == 0 && fork <= |v.blocks|
    && v.rules.lwmaAct <= fork && Coherent(v.rules.lwmaAct, v.blocks, LWMA_GATE)
    && v.rules.feeAct <= fork && Coherent(v.rules.feeAct, v.blocks, FEE_GATE)
  }

  /** `v` would accept the other chain's blocks above the fork. */
  lemma {:induction false} OtherBranchOk(v: View, them: seq<Block>, fork: nat, now: nat)
    requires Plain(v, fork) && Acceptable(v.rules.cr, them, now)
    requires 0 < fork <= |them| && them[..fork] == v.blocks[..fork]
    ensures CandidateOk(v.rules, v.blocks[..fork], them[fork..], now)
    ensures forall i :: 0 <= i < |them[fork..]| ==> them[fork..][i].targetOk
  {
    var base, nbs := v.blocks[..fork], them[fork..];
    hide CandidateAt, Plain, Acceptable;
    forall i: nat | i < |nbs| ensures CandidateAt(v.rules, base, nbs, i, now) && nbs[i].targetOk {
      OtherBlockOk(v, them, fork, i, now);
    }
  }

  lemma {:induction false} OtherBlockOk(v: View, them: seq<Block>, fork: nat, i: nat, now: nat)
    requires Plain(v, fork) && Acceptable(v.rules.cr, them, now)
    requires 0 < fork <= |them| && them[..fork] == v.blocks[..fork] && i < |them[fork..]|
    ensures CandidateAt(v.rules, v.blocks[..fork], them[fork..], i, now) && them[fork..][i].targetOk
  {
    var base, nbs, prefix := v.blocks[..fork], them[fork..], them[..fork + i];
    assert base + nbs[..i] == prefix;
    assert AcceptableAt(v.rules.cr, them, fork + i, now);
    SettledDecision(v.rules.lwmaAct, v.blocks, them, fork, fork + i, LWMA_GATE);
    SettledDecision(v.rules.feeAct, v.blocks, them, fork, fork + i, FEE_GATE);
    hide ActiveWith, Coherent, BodyOk, PowOk;
    DecisionOnly(v.rules, Rules(v.rules.cr, map[], 0, 0), prefix, nbs[i], now);
  }

  lemma {:induction false} SettledDecision(cached: nat, ours: seq<Block>, them: seq<Block>, fork: nat, k: nat,
      g: Gate)
    requires g.Valid() && Coherent(cached, ours, g) && cached <= fork <= |ours| && fork <= k <= |them|
    requires them[..fork] == ours[..fork]
    ensures ActiveWith(cached, them[..k], g) == ActiveWith(0, them[..k], g)
  {
    assert them[..cached] == them[..fork][..cached] == ours[..cached];
    hide ActiveWith;
    CachedDecision(cached, ours, them, k, g);
  }

  /** The only obstacle left is work: a shallow fork is refused just when it does not outweigh. */
  lemma {:induction false} OnlyWorkDecides(v: View, them: seq<Block>, fork: nat, now: nat)
    requires Plain(v, fork) && Acceptable(v.rules.cr, them, now) && |v.blocks| > 0
    requires 0 < fork < |them| && them[..fork] == v.blocks[..fork]
    requires v.maxReorg == 0 || |v.blocks| - fork <= v.maxReorg
    ensures Judge(v, fork, them[fork..], now).Adopted? <==>
      WorkSum(them) > WorkSum(v.blocks) || TieBreak(v.rules.cr, v.blocks, fork, them[fork..], WorkSum(them), WorkSum(v.blocks))
  {
    OtherBranchOk(v, them, fork, now);
    assert v.blocks[..fork] + them[fork..] == them;
    hide CandidateOk, WorkSum, Acceptable, Coherent, TieBreak, Judge;
    WorkLeft(v, fork, them[fork..], now);
  }

  /** With every other guard passed, the verdict is the comparison of work. */
  lemma {:induction false} WorkLeft(v: View, start: nat, nbs: seq<Block>, now: nat)
    requires |nbs| > 0 && 0 < start <= |v.blocks| && v.rules.checkpoints == map[] && v.penalty == 0
    requires v.maxReorg == 0 || |v.blocks| - start <= v.maxReorg
    requires CandidateOk(v.rules, v.blocks[..start], nbs, now) && forall i :: 0 <= i < |nbs| ==> nbs[i].targetOk
    ensures Judge(v, start, nbs, now).Adopted? <==> Outweighs(v, start, nbs)
  {
    hide CandidateOk, Outweighs, RecoveryActive, MeetsAnchor;
  }

  /** Two nodes that share their first `fork` blocks, within each other's reorg cap, and neither
      of which can adopt the other's branch, have chains of equal work. */
  lemma {:induction false} SettledEqualWork(u: View, v: View, fork: nat, now: nat)
    requires u.rules.cr == v.rules.cr && Plain(u, fork) && Plain(v, fork) && fork > 0
    requires Acceptable(u.rules.cr, u.blocks, now) && Acceptable(v.rules.cr, v.blocks, now)
    requires u.blocks[..fork] == v.blocks[..fork]
    requires u.maxReorg == 0 || |u.blocks| - fork <= u.maxReorg
    requires v.maxReorg == 0 || |v.blocks| - fork <= v.maxReorg
    requires !Judge(u, fork, v.blocks[fork..], now).Adopted? && !Judge(v, fork, u.blocks[fork..], now).Adopted?
    ensures WorkSum(u.blocks) == WorkSum(v.blocks)
  {
    hide Judge, WorkSum, Coherent, TieBreak, Plain;
    assert fork <= |u.blocks| && fork <= |v.blocks| by {
      PlainFork(u, fork);
      PlainFork(v, fork);
    }
    if fork < |v.blocks| {
      OnlyWorkDecides(u, v.blocks, fork, now);
    } else {
      PrefixWork(u.blocks, fork, v.blocks);
    }
    if fork < |u.blocks| {
      OnlyWorkDecides(v, u.blocks, fork, now);
    } else {
      PrefixWork(v.blocks, fork, u.blocks);
    }
  }

  lemma {:induction false} PlainFork(v: View, fork: nat)
    requires Plain(v, fork)
    ensures fork <= |v.blocks|
  {
    hide Coherent;
  }

  lemma {:induction false} PrefixWork(blocks: seq<Block>, n: nat, short: seq<Block>)
    requires n <= |blocks| && n == |short| && blocks[..n] == short[..n]
    ensures WorkSum(short) <= WorkSum(blocks)
  {
    assert blocks == short + blocks[n..];
    hide WorkSum;
    WorkConcat(short, blocks[n..]);
  }

  /** When they are forked by one block at equal height, they hold the same tip: the hash
      tie-break leaves no two different tips standing. */
  lemma {:induction false} SettledSameTip(u: View, v: View, fork: nat, now: nat)
    requires Ideal(u.rules.cr) && u.rules.cr == v.rules.cr && Plain(u, fork) && Plain(v, fork) && fork > 0
    requires Acceptable(u.rules.cr, u.blocks, now) && Acceptable(v.rules.cr, v.blocks, now)
    requires u.blocks[..fork] == v.blocks[..fork] && |u.blocks| == |v.blocks| == fork + 1
    requires !Judge(u, fork, v.blocks[fork..], now).Adopted? && !Judge(v, fork, u.blocks[fork..], now).Adopted?
    ensures u.blocks == v.blocks
  {
    var cr := u.rules.cr;
    SettledShallow(u, v, fork, now);
    AcceptedOk(cr, u.blocks, now);
    AcceptedOk(cr, v.blocks, now);
    hide *;
    ChainSealed(cr, u.blocks, fork);
    ChainSealed(cr, v.blocks, fork);
    assert v.blocks[fork..] == [v.blocks[fork]] && u.blocks[fork..] == [u.blocks[fork]];
    TieSettled(cr, u.blocks, v.blocks, fork, WorkSum(u.blocks));
    SameBlock(cr, u.blocks, v.blocks, fork);
    assert u.blocks == u.blocks[..fork] + [u.blocks[fork]];
    assert v.blocks == v.blocks[..fork] + [v.blocks[fork]];
  }

  /** Neither tip wins the tie-break, so their hashes are equal. */
  lemma {:induction false} TieSettled(cr: Crypto, xs: seq<Block>, ys: seq<Block>, fork: nat, work: nat)
    requires |xs| == |ys| == fork + 1 && xs[fork].hd.height == ys[fork].hd.height
    requires !TieBreak(cr, xs, fork, [ys[fork]], work, work) && !TieBreak(cr, ys, fork, [xs[fork]], work, work)
    ensures Hash(cr, xs[fork]) == Hash(cr, ys[fork])
  {
  }

  lemma {:induction false} AcceptedOk(cr: Crypto, blocks: seq<Block>, now: nat)
    requires Acceptable(cr, blocks, now)
    ensures ChainOk(cr, blocks)
  {
    hide ChainOk;
  }

  lemma {:induction false} SettledShallow(u: View, v: View, fork: nat, now: nat)
    requires u.rules.cr == v.rules.cr && Plain(u, fork) && Plain(v, fork) && fork > 0
    requires Acceptable(u.rules.cr, u.blocks, now) && Acceptable(v.rules.cr, v.blocks, now)
    requires u.blocks[..fork] == v.blocks[..fork] && |u.blocks| == |v.blocks| == fork + 1
    requires !Judge(u, fork, v.blocks[fork..], now).Adopted? && !Judge(v, fork, u.blocks[fork..], now).Adopted?
    ensures WorkSum(u.blocks) == WorkSum(v.blocks)
    ensures !TieBreak(u.rules.cr, u.blocks, fork, v.blocks[fork..], WorkSum(v.blocks), WorkSum(u.blocks))
    ensures !TieBreak(u.rules.cr, v.blocks, fork, u.blocks[fork..], WorkSum(u.blocks), WorkSum(v.blocks))
  {
    hide Judge, WorkSum, Coherent, TieBreak;
    OnlyWorkDecides(u, v.blocks, fork, now);
    OnlyWorkDecides(v, u.blocks, fork, now);
  }
}
