/** Real chains on which the sticky activation caches go wrong: hash-linked blocks that
    validateBlock accepts one by one, built for every node whose proof of work is always met. */
module Witness {
  import opened Types
  import opened Activation
  import opened Retarget
  import opened MedianTime
  import opened Validation
  import opened Protocol
  import opened Runs
  import opened Coherence

  /** Chain lengths whose block times stay far inside uint64. */
  const MAX_LENGTH := 0x1000_0000_0000

  /** Every header meets its target, and the genesis coinbase carries no version tag. */
  ghost predicate Easy(cr: Crypto) {
    (forall s, hd :: cr.pow(s, hd) == 0) && !(TAG_PREFIX <= cr.genesisSig)
  }

  /** The rules of a node that has cached nothing. */
  function Fresh(cr: Crypto): Rules {
    Rules(cr, map[], 0, 0)
  }

  /** The reward goes to the address of the genesis coinbase. */
  function CoinbaseTx(cr: Crypto, height: u64, tagged: bool): Tx {
    Tx(NoSender, Genesis(cr).txs[0].to, BlockSubsidy(height), 0, height, if tagged then COINBASE_TAG else [])
  }

  /** A coinbase-only block one target spacing after its parent, tagged or not. */
  ghost function Mined(cr: Crypto, prefix: seq<Block>, tagged: bool): Block
    requires 0 < |prefix| < MAX_LENGTH
  {
    var n := |prefix|;
    var txs := [CoinbaseTx(cr, n, tagged)];
    Block(Header(1, n, GENESIS_TIME + BLOCK_TARGET_SPACING * n, Hash(cr, prefix[n - 1]), TxRoot(cr, txs),
      RequiredTarget(0, prefix), 0), true, true, true, txs)
  }

  /** `n` blocks, of which those at heights `lo` to `hi` - 1 carry the version tag. */
  ghost function Chain(cr: Crypto, n: nat, lo: nat, hi: nat): (blocks: seq<Block>)
    requires 0 < n <= MAX_LENGTH
    ensures |blocks| == n
  {
    if n == 1 then [Genesis(cr)]
    else
      var prefix := Chain(cr, n - 1, lo, hi);
      prefix + [Mined(cr, prefix, lo <= n - 1 < hi)]
  }

  lemma {:induction false} ChainPrefix(cr: Crypto, n: nat, k: nat, lo: nat, hi: nat)
    requires 0 < k <= n <= MAX_LENGTH
    ensures Chain(cr, n, lo, hi)[..k] == Chain(cr, k, lo, hi)
    decreases n
  {
    hide Mined;
    if k < n {
      ChainPrefix(cr, n - 1, k, lo, hi);
      assert Chain(cr, n, lo, hi)[..k] == Chain(cr, n - 1, lo, hi)[..k];
    }
  }

  lemma {:induction false} ChainBlock(cr: Crypto, n: nat, h: nat, lo: nat, hi: nat)
    requires 0 < h < n <= MAX_LENGTH
    ensures Chain(cr, n, lo, hi)[h] == Mined(cr, Chain(cr, h, lo, hi), lo <= h < hi)
  {
    ChainPrefix(cr, n, h + 1, lo, hi);
    assert Chain(cr, n, lo, hi)[h] == Chain(cr, n, lo, hi)[..h + 1][h];
  }

  /** Chains with the same first tagged height agree until the tags differ. */
  lemma {:induction false} ChainShared(cr: Crypto, n: nat, lo: nat, hi: nat, hi': nat)
    requires 0 < n <= MAX_LENGTH && n <= hi && n <= hi'
    ensures Chain(cr, n, lo, hi) == Chain(cr, n, lo, hi')
  {
    hide Mined;
    if n > 1 {
      ChainShared(cr, n - 1, lo, hi, hi');
    }
  }

  // -------------------------------------------------------------------- validity

  ghost predicate Under(s: seq<u64>, v: int) {
    forall i :: 0 <= i < |s| ==> s[i] < v
  }

  lemma {:induction false} AllBelow(s: seq<u64>, v: int)
    requires Under(s, v)
    ensures Below(s, v) == |s|
  {
    if s != [] {
      AllBelow(s[1..], v);
    }
  }

  lemma {:induction false} ChainTimes(cr: Crypto, n: nat, h: nat, lo: nat, hi: nat)
    requires h < n <= MAX_LENGTH
    ensures Chain(cr, n, lo, hi)[h].hd.time == GENESIS_TIME + BLOCK_TARGET_SPACING * h
  {
    if h > 0 {
      ChainBlock(cr, n, h, lo, hi);
    } else {
      ChainPrefix(cr, n, 1, lo, hi);
      assert Chain(cr, n, lo, hi)[0] == Chain(cr, n, lo, hi)[..1][0];
    }
  }

  lemma {:induction false} LaterThanMedian(cr: Crypto, n: nat, lo: nat, hi: nat)
    requires 0 < n < MAX_LENGTH
    ensures GENESIS_TIME + BLOCK_TARGET_SPACING * n > Median(Chain(cr, n, lo, hi))
  {
    var blocks, v := Chain(cr, n, lo, hi), GENESIS_TIME + BLOCK_TARGET_SPACING * n;
    hide Chain, Window, Median, Below, Under;
    WindowTimes(cr, n, lo, hi);
    AllBelow(Window(blocks), v);
    MedianRank(blocks, v);
  }

  lemma {:induction false} WindowTimes(cr: Crypto, n: nat, lo: nat, hi: nat)
    requires 0 < n < MAX_LENGTH
    ensures Under(Window(Chain(cr, n, lo, hi)), GENESIS_TIME + BLOCK_TARGET_SPACING * n)
  {
    var blocks := Chain(cr, n, lo, hi);
    hide Chain, Window;
    forall h | 0 <= h < n ensures blocks[h].hd.time < GENESIS_TIME + BLOCK_TARGET_SPACING * n {
      ChainTimes(cr, n, h, lo, hi);
    }
  }

  lemma {:induction false} MinedShape(cr: Crypto, prefix: seq<Block>, tagged: bool)
    requires 0 < |prefix| < MAX_LENGTH
    ensures ShapeOk(cr, Mined(cr, prefix, tagged)) && |Mined(cr, prefix, tagged).txs| == 1
  {
    hide RequiredTarget, BlockSubsidy;
    var b := Mined(cr, prefix, tagged);
    assert Genesis(cr).txs[0].to[..4] == ADDR_PREFIX;
    assert b.txs[..0] == [];
    assert TotalFees([]) == 0;
  }

  /** A fresh node accepts the next block of such a chain. */
  lemma {:induction false} MinedOk(cr: Crypto, n: nat, lo: nat, hi: nat, tagged: bool, now: nat)
    requires Easy(cr) && 0 < n < MAX_LENGTH && now >= GENESIS_TIME + BLOCK_TARGET_SPACING * n
    ensures NextOk(Fresh(cr), Chain(cr, n, lo, hi), Mined(cr, Chain(cr, n, lo, hi), tagged), now)
  {
    var prefix := Chain(cr, n, lo, hi);
    MinedShape(cr, prefix, tagged);
    LaterThanMedian(cr, n, lo, hi);
    hide ShapeOk, RequiredTarget, BlockSubsidy, Chain, Median, SeedFor, RequiredFee;
    var b := Mined(cr, prefix, tagged);
    assert b.txs[1..] == [];
    assert PowOk(cr, prefix, b);
  }

  lemma {:induction false} ChainValid(cr: Crypto, n: nat, lo: nat, hi: nat)
    requires Easy(cr) && 0 < n <= MAX_LENGTH
    ensures ChainOk(cr, Chain(cr, n, lo, hi))
  {
    hide Mined, CoreOk, NextOk;
    if n > 1 {
      var prefix, now := Chain(cr, n - 1, lo, hi), GENESIS_TIME + BLOCK_TARGET_SPACING * n;
      ChainValid(cr, n - 1, lo, hi);
      MinedOk(cr, n - 1, lo, hi, lo <= n - 1 < hi, now);
      NextIsCore(Fresh(cr), prefix, Mined(cr, prefix, lo <= n - 1 < hi), now);
      ChainOkExtend(cr, prefix, Mined(cr, prefix, lo <= n - 1 < hi));
    }
  }

  /** A fresh node that holds the first `start` blocks accepts all the others in turn. */
  lemma {:induction false} BranchOk(cr: Crypto, n: nat, start: nat, lo: nat, hi: nat, i: nat, now: nat)
    requires Easy(cr) && 0 < start && start + i < n <= MAX_LENGTH
    requires now >= GENESIS_TIME + BLOCK_TARGET_SPACING * n
    ensures var c := Chain(cr, n, lo, hi); CandidateAt(Fresh(cr), c[..start], c[start..], i, now)
  {
    hide Mined, NextOk, Chain;
    var c := Chain(cr, n, lo, hi);
    ChainPrefix(cr, n, start + i, lo, hi);
    ChainBlock(cr, n, start + i, lo, hi);
    assert c[..start] + c[start..][..i] == c[..start + i];
    MinedOk(cr, start + i, lo, hi, lo <= start + i < hi, now);
  }

  // --------------------------------------------------------------------- signals

  /** How many heights of [x, y) are tagged. */
  function Overlap(x: nat, y: nat, lo: nat, hi: nat): int {
    var l, r := if x < lo then lo else x, if y < hi then y else hi;
    if l < r then r - l else 0
  }

  lemma {:induction false} Version(cr: Crypto, n: nat, h: nat, lo: nat, hi: nat)
    requires Easy(cr) && h < n <= MAX_LENGTH && lo > 0
    ensures CoinbaseVersion(Chain(cr, n, lo, hi)[h]) == if lo <= h < hi then NODE_CONSENSUS_VERSION else 1
  {
    hide RequiredTarget, BlockSubsidy;
    if h > 0 {
      ChainBlock(cr, n, h, lo, hi);
      if lo <= h < hi {
        TagRoundTrip(Chain(cr, n, lo, hi)[h]);
      }
    } else {
      ChainPrefix(cr, n, 1, lo, hi);
      assert Chain(cr, n, lo, hi)[0] == Chain(cr, n, lo, hi)[..1][0];
    }
  }

  lemma {:induction false} SignalsCounted(cr: Crypto, n: nat, x: nat, y: nat, lo: nat, hi: nat, required: int)
    requires Easy(cr) && x <= y <= n <= MAX_LENGTH && n > 0 && lo > 0 && 1 < required <= NODE_CONSENSUS_VERSION
    ensures Signals(Chain(cr, n, lo, hi), x, y, required) == Overlap(x, y, lo, hi)
    decreases y
  {
    hide Chain, CoinbaseVersion;
    if x < y {
      SignalsCounted(cr, n, x, y - 1, lo, hi, required);
      Version(cr, n, y - 1, lo, hi);
    }
  }

  /** Too few tagged blocks before height `h`. */
  predicate Quiet(g: Gate, h: nat, lo: nat, hi: nat)
    requires g.window <= h
  {
    Overlap(h - g.window, h, lo, hi) < g.threshold
  }

  /** Where the chain activates, from the number of tagged blocks in each window. */
  lemma {:induction false} ChainActivation(cr: Crypto, n: nat, lo: nat, hi: nat, g: Gate, a: nat)
    requires Easy(cr) && 0 < n <= MAX_LENGTH && lo > 0 && g.Valid() && 1 < g.version <= NODE_CONSENSUS_VERSION
    requires a != 0 ==> g.Start() <= a <= n && !Quiet(g, a, lo, hi)
    requires forall h :: g.Start() <= h <= n && (a == 0 || h < a) ==> Quiet(g, h, lo, hi)
    ensures ActivationOf(Chain(cr, n, lo, hi), g) == a
  {
    var blocks := Chain(cr, n, lo, hi);
    hide Chain, Qualifies, Quiet;
    forall h | g.Start() <= h <= n ensures Qualifies(blocks, g, h) == !Quiet(g, h, lo, hi) {
      WindowCounted(cr, n, lo, hi, g, h);
    }
    ActivationUnique(blocks, g, a, ActivationOf(blocks, g));
  }

  lemma {:induction false} WindowCounted(cr: Crypto, n: nat, lo: nat, hi: nat, g: Gate, h: nat)
    requires Easy(cr) && 0 < n <= MAX_LENGTH && lo > 0 && 1 < g.version <= NODE_CONSENSUS_VERSION
    requires g.window <= h <= n
    ensures Qualifies(Chain(cr, n, lo, hi), g, h) == !Quiet(g, h, lo, hi)
  {
    hide Chain, Overlap, Signals;
    SignalsCounted(cr, n, h - g.window, h, lo, hi, g.version);
  }

  lemma {:induction false} TooShort(blocks: seq<Block>, g: Gate)
    requires g.Valid() && |blocks| < g.Start()
    ensures ActivationOf(blocks, g) == 0
  {
    assert IsActivation(blocks, g, ActivationOf(blocks, g));
  }

  // ------------------------------------------------------------------------ work

  /** Below height 100 the legacy rule repeats the genesis target. */
  lemma {:induction false} SteadyTarget(cr: Crypto, n: nat, h: nat, lo: nat, hi: nat)
    requires h < n <= SIGNAL_WINDOW
    ensures Chain(cr, n, lo, hi)[h].hd.target == GENESIS_TARGET
    decreases h
  {
    if h == 0 {
      ChainPrefix(cr, n, 1, lo, hi);
      assert Chain(cr, n, lo, hi)[0] == Chain(cr, n, lo, hi)[..1][0];
    } else {
      ChainBlock(cr, n, h, lo, hi);
      var prefix := Chain(cr, h, lo, hi);
      TooShort(prefix, LWMA_GATE);
      hide ActivationOf, LegacyTarget, BlockSubsidy;
      if h == 1 {
        ShortTarget(prefix);
      } else {
        SteadyLegacy(cr, h, lo, hi);
      }
    }
  }

  lemma {:induction false} ShortTarget(blocks: seq<Block>)
    requires |blocks| < 2
    ensures LegacyTarget(blocks) == GENESIS_TARGET
  {
  }

  lemma {:induction false} SteadyLegacy(cr: Crypto, n: nat, lo: nat, hi: nat)
    requires 2 <= n < SIGNAL_WINDOW
    ensures LegacyTarget(Chain(cr, n, lo, hi)) == GENESIS_TARGET
    decreases n, 0
  {
    var blocks := Chain(cr, n, lo, hi);
    hide Chain, Diff64, LegacyTarget;
    var w := if n - 1 < RETARGET_WINDOW then n - 1 else RETARGET_WINDOW;
    forall i | n - w <= i < n ensures blocks[i].hd.target == GENESIS_TARGET {
      SteadyTarget(cr, n, i, lo, hi);
    }
    SteadySpan(cr, n, w, lo, hi);
    LegacyFixpoint(blocks, GENESIS_TARGET);
  }

  lemma {:induction false} SteadySpan(cr: Crypto, n: nat, w: nat, lo: nat, hi: nat)
    requires w < n <= SIGNAL_WINDOW
    ensures var blocks := Chain(cr, n, lo, hi);
      Diff64(blocks[n - 1].hd.time, blocks[n - 1 - w].hd.time) == w * BLOCK_TARGET_SPACING
  {
    hide Chain, Diff64;
    ChainTimes(cr, n, n - 1, lo, hi);
    ChainTimes(cr, n, n - 1 - w, lo, hi);
    SmallDiff(GENESIS_TIME + BLOCK_TARGET_SPACING * (n - 1 - w), BLOCK_TARGET_SPACING * w);
  }

  lemma {:induction false} SmallDiff(a: u64, d: nat)
    requires d < TWO63 && a + d < TWO64
    ensures Diff64(a + d, a) == d
  {
  }

  lemma {:induction false} SteadyWork(cr: Crypto, n: nat, k: nat, lo: nat, hi: nat)
    requires 0 < n <= SIGNAL_WINDOW && k <= n
    ensures SumWork(Chain(cr, n, lo, hi), 0, k) == k * WorkOf(GENESIS_TARGET)
  {
    hide Chain, WorkOf;
    if k > 0 {
      SteadyWork(cr, n, k - 1, lo, hi);
      SteadyTarget(cr, n, k - 1, lo, hi);
      assert k * WorkOf(GENESIS_TARGET) == (k - 1) * WorkOf(GENESIS_TARGET) + WorkOf(GENESIS_TARGET);
    }
  }

  /** Of two such chains the longer one has more work. */
  lemma {:induction false} LongerIsHeavier(cr: Crypto, n: nat, m: nat, lo: nat, hi: nat, hi': nat)
    requires 0 < n < m <= SIGNAL_WINDOW
    ensures WorkSum(Chain(cr, n, lo, hi)) < WorkSum(Chain(cr, m, lo, hi'))
  {
    hide Chain;
    SteadyWork(cr, n, n, lo, hi);
    SteadyWork(cr, m, m, lo, hi');
    WorkFloor(GENESIS_TARGET);
    hide WorkOf;
    MulMono(n + 1, m, WorkOf(GENESIS_TARGET));
    assert (n + 1) * WorkOf(GENESIS_TARGET) == n * WorkOf(GENESIS_TARGET) + WorkOf(GENESIS_TARGET);
  }

  // -------------------------------------------------------------------- verdicts

  /** No guard of TryAdoptChain stops a heavier candidate of well-formed targets. */
  lemma {:induction false} GuardsPassed(v: View, start: nat, nbs: seq<Block>, now: nat)
    requires |nbs| > 0 && 0 < start <= |v.blocks| && v.rules.checkpoints == map[] && v.penalty == 0
    requires !TooDeepFor(v, start, nbs) && WorkSum(v.blocks[..start] + nbs) > WorkSum(v.blocks)
    requires forall i :: 0 <= i < |nbs| ==> nbs[i].targetOk
    ensures Judge(v, start, nbs, now) == if CandidateOk(v.rules, v.blocks[..start], nbs, now) then Adopted else InvalidBlock
  {
    hide TooDeepFor, CandidateOk, WorkSum, TieBreak, SignedProduct;
  }

  lemma {:induction false} ShortLookUp(v: View, start: nat, nbs: seq<Block>, now: nat, fee: bool)
    requires 0 < |v.blocks| && start + |nbs| <= SIGNAL_WINDOW
    ensures Filled(0, LookUp(v, AdoptOp(start, nbs, now), fee), if fee then FEE_GATE else LWMA_GATE, v.maxReorg) == 0
  {
    hide Judge, Looks;
    var looked := LookUp(v, AdoptOp(start, nbs, now), fee);
    assert |looked| < SIGNAL_WINDOW by {
      if IsReplayed(v, start, nbs, now) {
        ReplayRange(v, start, nbs, now);
      }
    }
    TooShort(looked, if fee then FEE_GATE else LWMA_GATE);
  }

  // ------------------------------------------- an abandoned candidate fills a cache

  ghost function Node(cr: Crypto, blocks: seq<Block>, drAct: nat, anchor: Anchor, maxReorg: nat): View {
    View(Fresh(cr), blocks, drAct, anchor, maxReorg, 0)
  }

  /** Why the last block of a stray branch is refused after its target was looked up. */
  datatype Fault = NoTxs | UpperCaseRoot

  /** Acceptable tagged blocks up to length `n`, then one with a fault in its body or in the
      spelling of its root. */
  ghost function StrayBranch(cr: Crypto, n: nat, why: Fault): (nbs: seq<Block>)
    requires 0 < n < MAX_LENGTH
    ensures |nbs| == n
  {
    var c := Chain(cr, n, 1, n);
    var b := Mined(cr, c, true);
    c[1..] + [if why.NoTxs? then b.(txs := []) else b.(rootLower := false)]
  }

  lemma {:induction false} StrayOk(cr: Crypto, n: nat, why: Fault, i: nat, now: nat)
    requires Easy(cr) && i + 1 < n < MAX_LENGTH && now >= GENESIS_TIME + BLOCK_TARGET_SPACING * n
    ensures CandidateAt(Fresh(cr), [Genesis(cr)], StrayBranch(cr, n, why), i, now)
    ensures StrayBranch(cr, n, why)[i].targetOk
  {
    var c, nbs := Chain(cr, n, 1, n), StrayBranch(cr, n, why);
    BranchOk(cr, n, 1, 1, n, i, now);
    ChainPrefix(cr, n, 1, 1, n);
    assert c[..1] == [Genesis(cr)];
    hide Mined, StrayBranch, Chain, Median, RequiredTarget, RequiredFee, ShapeOk, BodyOk, PowOk;
    assert nbs[i] == c[1..][i] && nbs[..i] == c[1..][..i];
  }

  /** The last block of the branch is refused, after its header was accepted. */
  lemma {:induction false} StrayRefused(cr: Crypto, n: nat, why: Fault, now: nat)
    requires Easy(cr) && 0 < n < MAX_LENGTH && now >= GENESIS_TIME + BLOCK_TARGET_SPACING * n
    ensures var c, bad := Chain(cr, n, 1, n), StrayBranch(cr, n, why)[n - 1];
      HeaderPasses(Fresh(cr), c, bad, now) && !NextOk(Fresh(cr), c, bad, now)
    ensures [Genesis(cr)] + StrayBranch(cr, n, why)[..n - 1] == Chain(cr, n, 1, n)
    ensures WorkOf(StrayBranch(cr, n, why)[n - 1].hd.target) > 0 && StrayBranch(cr, n, why)[n - 1].targetOk
  {
    var c := Chain(cr, n, 1, n);
    MinedOk(cr, n, 1, n, true, now);
    ChainPrefix(cr, n, 1, 1, n);
    WorkFloor(RequiredTarget(0, c));
    hide Chain, Median, RequiredTarget, RequiredFee, BodyOk, PowOk, WorkOf, BlockSubsidy;
    assert c == c[..1] + c[1..] && c[..1] == [Genesis(cr)];
    assert StrayBranch(cr, n, why)[..n - 1] == c[1..];
  }

  lemma {:induction false} StrayJudged(cr: Crypto, n: nat, why: Fault, maxReorg: nat, now: nat)
    requires Easy(cr) && 0 < n < MAX_LENGTH && now >= GENESIS_TIME + BLOCK_TARGET_SPACING * n
    ensures var v := Node(cr, [Genesis(cr)], 0, Anchor(0, 0), maxReorg);
      && Judge(v, 1, StrayBranch(cr, n, why), now).InvalidBlock?
      && LookUp(v, AdoptOp(1, StrayBranch(cr, n, why), now), false) == Chain(cr, n, 1, n)
  {
    var base, nbs := [Genesis(cr)], StrayBranch(cr, n, why);
    StrayRefused(cr, n, why, now);
    forall i | 0 <= i < n - 1 ensures CandidateAt(Fresh(cr), base, nbs, i, now) && nbs[i].targetOk {
      StrayOk(cr, n, why, i, now);
    }
    StrayWeight(cr, n, why, now);
    var v := Node(cr, base, 0, Anchor(0, 0), maxReorg);
    hide *;
    assert base[..1] == base;
    StrayFound(Fresh(cr), base, nbs, now);
    AtTip(v, nbs);
    GuardsPassed(v, 1, nbs, now);
    LookedUpBy(v, 1, nbs, now);
  }

  lemma {:induction false} AtTip(v: View, nbs: seq<Block>)
    ensures !TooDeepFor(v, |v.blocks|, nbs)
  {
  }

  lemma {:induction false} StrayWeight(cr: Crypto, n: nat, why: Fault, now: nat)
    requires Easy(cr) && 0 < n < MAX_LENGTH && now >= GENESIS_TIME + BLOCK_TARGET_SPACING * n
    ensures WorkSum([Genesis(cr)] + StrayBranch(cr, n, why)) > WorkSum([Genesis(cr)])
  {
    var nbs := StrayBranch(cr, n, why);
    StrayRefused(cr, n, why, now);
    hide *;
    WorkConcat([Genesis(cr)], nbs);
    assert nbs == nbs[..n - 1] + [nbs[n - 1]];
    WorkConcat(nbs[..n - 1], [nbs[n - 1]]);
    WorkOfOne(nbs[n - 1]);
  }

  /** The last block of `nbs` is looked up and refused. */
  lemma {:induction false} StrayFound(rules: Rules, base: seq<Block>, nbs: seq<Block>, now: nat)
    requires |base| > 0 && |nbs| > 0
    requires forall i :: 0 <= i < |nbs| - 1 ==> CandidateAt(rules, base, nbs, i, now)
    requires var c, bad := base + nbs[..|nbs| - 1], nbs[|nbs| - 1];
      HeaderPasses(rules, c, bad, now) && !NextOk(rules, c, bad, now)
    ensures !CandidateOk(rules, base, nbs, now)
    ensures LookedUp(rules, base, nbs, |nbs|, now, false) == base + nbs[..|nbs| - 1]
  {
    assert !CandidateAt(rules, base, nbs, |nbs| - 1, now);
    assert Looks(rules, base, nbs, |nbs| - 1, now, false);
    hide HeaderPasses, NextOk;
  }

  lemma {:induction false} LookedUpBy(v: View, start: nat, nbs: seq<Block>, now: nat)
    requires |v.blocks| >= start > 0 && Judge(v, start, nbs, now).InvalidBlock?
    ensures LookUp(v, AdoptOp(start, nbs, now), false) == LookedUp(v.rules, v.blocks[..start], nbs, |nbs|, now, false)
  {
    hide Judge, LookedUp;
  }

  ghost predicate Accepts(rules: Rules, base: seq<Block>, nbs: seq<Block>, n: nat, now: nat)
    requires |base| > 0 && n <= |nbs|
  {
    forall i :: 0 <= i < n ==> CandidateAt(rules, base, nbs, i, now)
  }

  /** A node at genesis replays a candidate of signalling blocks that ends in an unacceptable one,
      with no transactions or with its transaction root in upper case. The candidate is refused
      and the chain stays as it was, but its activation height stays in the cache. */
  lemma {:induction false} AbandonedCandidateMisleads(cr: Crypto, why: Fault, maxReorg: nat, now: nat, v': View)
    requires Easy(cr) && maxReorg < MAX_LENGTH - SIGNAL_WINDOW
    requires now >= GENESIS_TIME + BLOCK_TARGET_SPACING * (SIGNAL_WINDOW + maxReorg)
    requires var v := Node(cr, [Genesis(cr)], 0, Anchor(0, 0), maxReorg);
      Step(v, AdoptOp(1, StrayBranch(cr, SIGNAL_WINDOW + maxReorg, why), now), v')
    ensures var v := Node(cr, [Genesis(cr)], 0, Anchor(0, 0), maxReorg);
      var nbs := StrayBranch(cr, SIGNAL_WINDOW + maxReorg, why);
      && ChainOk(cr, v.blocks) && AllCoherent(v)
      && Accepts(v.rules, v.blocks, nbs, |nbs| - 1, now) && Judge(v, 1, nbs, now).InvalidBlock?
      && v'.blocks == v.blocks && v'.rules.lwmaAct == SIGNAL_WINDOW && !Coherent(v'.rules.lwmaAct, v'.blocks, LWMA_GATE)
      && Step(v, AdoptOp(1, nbs, now), Abandoned(v, nbs, now))
  {
    var n, v := SIGNAL_WINDOW + maxReorg, Node(cr, [Genesis(cr)], 0, Anchor(0, 0), maxReorg);
    var nbs := StrayBranch(cr, n, why);
    StrayJudged(cr, n, why, maxReorg, now);
    ChainActivation(cr, n, 1, n, LWMA_GATE, SIGNAL_WINDOW);
    ChainValid(cr, 1, 1, n);
    assert Chain(cr, 1, 1, n) == v.blocks;
    forall i | 0 <= i < n - 1 ensures CandidateAt(v.rules, v.blocks, nbs, i, now) {
      StrayOk(cr, n, why, i, now);
    }
    RefusedFills(v, nbs, now, v');
    AbandonedStep(v, nbs, now);
    hide *;
    FilledAt(Chain(cr, n, 1, n), SIGNAL_WINDOW, maxReorg);
    TooHigh(SIGNAL_WINDOW, v.blocks);
  }

  lemma {:induction false} RefusedFills(v: View, nbs: seq<Block>, now: nat, v': View)
    requires Step(v, AdoptOp(1, nbs, now), v') && Judge(v, 1, nbs, now).InvalidBlock?
    ensures v'.blocks == v.blocks
    ensures v'.rules.lwmaAct == Filled(v.rules.lwmaAct, LookUp(v, AdoptOp(1, nbs, now), false), LWMA_GATE, v.maxReorg)
  {
    hide Judge, LookUp, Filled, FeeAfter, RecoveryAfter;
  }

  lemma {:induction false} FilledAt(blocks: seq<Block>, a: nat, maxReorg: nat)
    requires ActivationOf(blocks, LWMA_GATE) == a && |blocks| >= a + maxReorg
    ensures Filled(0, blocks, LWMA_GATE, maxReorg) == a
  {
  }

  lemma {:induction false} TooHigh(c: nat, blocks: seq<Block>)
    requires c > |blocks|
    ensures !Coherent(c, blocks, LWMA_GATE)
  {
  }

  /** Such a step exists. */
  lemma {:induction false} AbandonedStep(v: View, nbs: seq<Block>, now: nat)
    requires |v.blocks| > 0 && Judge(v, 1, nbs, now).InvalidBlock?
    ensures Step(v, AdoptOp(1, nbs, now), Abandoned(v, nbs, now))
  {
    hide Judge, LookUp, Filled;
  }

  ghost function Abandoned(v: View, nbs: seq<Block>, now: nat): View
    requires |v.blocks| > 0
  {
    var op := AdoptOp(1, nbs, now);
    var feeAct := Filled(v.rules.feeAct, LookUp(v, op, true), FEE_GATE, v.maxReorg);
    v.(rules := v.rules.(lwmaAct := LwmaAfter(v, op), feeAct := feeAct), drAct := RecoveryAfter(v, op))
  }

  /** A valid chain of a hundred blocks that never signalled, on which the height remembered by
      the misled node answers differently from a rescan. */
  lemma {:induction false} MisledDecision(cr: Crypto)
    requires Easy(cr)
    ensures var plain := Chain(cr, SIGNAL_WINDOW, 1, 1);
      && ChainOk(cr, plain) && plain[0] == Genesis(cr)
      && ActiveWith(SIGNAL_WINDOW, plain, LWMA_GATE) && !ActiveWith(0, plain, LWMA_GATE)
  {
    var plain := Chain(cr, SIGNAL_WINDOW, 1, 1);
    ChainValid(cr, SIGNAL_WINDOW, 1, 1);
    ChainActivation(cr, SIGNAL_WINDOW, 1, 1, LWMA_GATE, 0);
    ChainPrefix(cr, SIGNAL_WINDOW, 1, 1, 1);
    assert plain[0] == plain[..1][0] == Genesis(cr);
    hide ChainOk, Chain, ActivationOf, Easy;
  }

  // ----------------------------------------------- a stale height opens deep reorgs

  const CAP := 10

  lemma {:induction false} ForkShared(cr: Crypto, start: nat, n: nat, m: nat, hi: nat, hi': nat)
    requires 0 < start <= n <= MAX_LENGTH && start <= m <= MAX_LENGTH && start <= hi && start <= hi'
    ensures Chain(cr, n, 2, hi)[..start] == Chain(cr, m, 2, hi')[..start]
  {
    hide *;
    ChainPrefix(cr, n, start, 2, hi);
    ChainPrefix(cr, m, start, 2, hi');
    ChainShared(cr, start, 2, hi, hi');
  }

  lemma {:induction false} BranchAccepted(cr: Crypto, start: nat, m: nat, hi: nat, now: nat)
    requires Easy(cr) && 0 < start < m <= MAX_LENGTH && now >= GENESIS_TIME + BLOCK_TARGET_SPACING * m
    ensures var c := Chain(cr, m, 2, hi);
      CandidateOk(Fresh(cr), c[..start], c[start..], now) && forall i :: 0 <= i < m - start ==> c[start..][i].targetOk
  {
    var c := Chain(cr, m, 2, hi);
    forall i | 0 <= i < m - start ensures CandidateAt(Fresh(cr), c[..start], c[start..], i, now) && c[start..][i].targetOk {
      BranchOk(cr, m, start, 2, hi, i, now);
      ChainBlock(cr, m, start + i, 2, hi);
      hide Chain, CandidateAt, RequiredTarget;
    }
    hide Chain, CandidateAt;
  }

  /** On a chain too short for the LWMA and fee gates a fork within reach is adopted and leaves
      both caches empty. */
  lemma {:induction false} ForkAdopted(cr: Crypto, v: View, start: nat, n: nat, m: nat, hi: nat, hi': nat, now: nat)
    requires Easy(cr) && 0 < start <= n < m <= SIGNAL_WINDOW && start <= hi && start <= hi'
    requires v.rules == Fresh(cr) && v.penalty == 0 && v.blocks == Chain(cr, n, 2, hi)
    requires now >= GENESIS_TIME + BLOCK_TARGET_SPACING * m
    requires !TooDeepFor(v, start, Chain(cr, m, 2, hi')[start..])
    ensures var nbs := Chain(cr, m, 2, hi')[start..];
      var op := AdoptOp(start, nbs, now);
      && Judge(v, start, nbs, now).Adopted? && v.blocks[..start] + nbs == Chain(cr, m, 2, hi')
      && Filled(0, LookUp(v, op, false), LWMA_GATE, v.maxReorg) == 0
      && Filled(0, LookUp(v, op, true), FEE_GATE, v.maxReorg) == 0
  {
    var c := Chain(cr, m, 2, hi');
    ForkShared(cr, start, n, m, hi, hi');
    LongerIsHeavier(cr, n, m, 2, hi, hi');
    BranchAccepted(cr, start, m, hi', now);
    hide Chain, TooDeepFor, CandidateOk, WorkSum, Judge, LookUp, Filled, Easy;
    assert c[..start] + c[start..] == c;
    GuardsPassed(v, start, c[start..], now);
    ShortLookUp(v, start, c[start..], now, false);
    ShortLookUp(v, start, c[start..], now, true);
  }

  /** Sixty blocks of which 2 to 59 signal, and longer forks of it that signal up to 48 and 39. */
  ghost function FirstChain(cr: Crypto): (c: seq<Block>)
    ensures |c| == 60
  {
    Chain(cr, 60, 2, 60)
  }

  ghost function SecondChain(cr: Crypto): (c: seq<Block>)
    ensures |c| == 61
  {
    Chain(cr, 61, 2, 49)
  }

  ghost function ThirdChain(cr: Crypto): (c: seq<Block>)
    ensures |c| == 62
  {
    Chain(cr, 62, 2, 40)
  }

  ghost function StaleOps(cr: Crypto, now: nat): (ops: seq<Op>)
    ensures |ops| == 4
  {
    [AnchorOp(Anchor(49, Hash(cr, SecondChain(cr)[49]))), AdoptOp(49, SecondChain(cr)[49..], now),
     AnchorOp(Anchor(50, Hash(cr, ThirdChain(cr)[50]))), AdoptOp(40, ThirdChain(cr)[40..], now)]
  }

  ghost function StaleViews(cr: Crypto): (vs: seq<View>)
    ensures |vs| == 5
  {
    var a, b := Anchor(49, Hash(cr, SecondChain(cr)[49])), Anchor(50, Hash(cr, ThirdChain(cr)[50]));
    [Node(cr, FirstChain(cr), 0, Anchor(0, 0), CAP), Node(cr, FirstChain(cr), 0, a, CAP),
     Node(cr, SecondChain(cr), 50, a, CAP), Node(cr, SecondChain(cr), 50, b, CAP), Node(cr, ThirdChain(cr), 50, b, CAP)]
  }

  lemma {:induction false} StaleActivations(cr: Crypto)
    requires Easy(cr)
    ensures ActivationOf(FirstChain(cr), RECOVERY_GATE) == 50
    ensures ActivationOf(SecondChain(cr), RECOVERY_GATE) == 0
  {
    ChainActivation(cr, 60, 2, 60, RECOVERY_GATE, 50);
    ChainActivation(cr, 61, 2, 49, RECOVERY_GATE, 0);
  }

  /** A node whose deep-recovery flag is up lets an anchored branch through at any depth. */
  lemma {:induction false} AnchoredFork(v: View, start: nat, nbs: seq<Block>)
    requires RecoveryActive(v) && MeetsAnchor(v.rules.cr, v.anchor, start, nbs) && start <= |v.blocks|
    ensures !TooDeepFor(v, start, nbs)
  {
    hide RecoveryActive, MeetsAnchor;
  }

  /** An adoption that leaves the LWMA and fee caches empty. */
  lemma {:induction false} AdoptionStep(v: View, op: Op, v': View)
    requires |v.blocks| > 0 && op.AdoptOp? && op.start <= |v.blocks| && v.rules.lwmaAct == 0 && v.rules.feeAct == 0
    requires Judge(v, op.start, op.nbs, op.now).Adopted?
    requires Filled(0, LookUp(v, op, false), LWMA_GATE, v.maxReorg) == 0
    requires Filled(0, LookUp(v, op, true), FEE_GATE, v.maxReorg) == 0
    requires v' == v.(blocks := v.blocks[..op.start] + op.nbs, drAct := RecoveryAfter(v, op))
    ensures Step(v, op, v')
  {
    hide Judge, LookUp, Filled, RecoveryAfter;
  }

  /** The first adoption removes the signals that had activated deep recovery, just after it
      filled the cache from them. */
  lemma {:induction false} FirstAdoption(cr: Crypto, v: View, op: Op, v': View)
    requires Easy(cr) && v == StaleViews(cr)[1] && v' == StaleViews(cr)[2] && op.AdoptOp? && op == StaleOps(cr, op.now)[1]
    requires op.now >= GENESIS_TIME + BLOCK_TARGET_SPACING * SIGNAL_WINDOW
    ensures Step(v, op, v') && Outdates(v, op, RecoveryAfter(v, op), RECOVERY_GATE)
  {
    StaleActivations(cr);
    hide Chain, ActivationOf, Judge, LookUp, Easy, SecondChain, FirstChain;
    assert RecoveryAfter(v, op) == 50;
    hide Filled;
    AnchoredFork(v, 49, op.nbs);
    assert SecondChain(cr) == Chain(cr, 61, 2, 49) && FirstChain(cr) == Chain(cr, 60, 2, 60);
    ForkAdopted(cr, v, 49, 60, 61, 60, 49, op.now);
    AdoptionStep(v, op, v');
  }

  /** The second one is as deep, and nothing on the chain allows it. */
  lemma {:induction false} SecondAdoption(cr: Crypto, v: View, op: Op, v': View)
    requires Easy(cr) && v == StaleViews(cr)[3] && v' == StaleViews(cr)[4] && op.AdoptOp? && op == StaleOps(cr, op.now)[3]
    requires op.now >= GENESIS_TIME + BLOCK_TARGET_SPACING * SIGNAL_WINDOW
    ensures Step(v, op, v') && DeepReorg(v, op, v') && !ActiveWith(0, v.blocks, RECOVERY_GATE)
  {
    StaleActivations(cr);
    hide Chain, ActivationOf, Judge, LookUp, Easy;
    assert RecoveryAfter(v, op) == 50;
    hide Filled;
    AnchoredFork(v, 40, op.nbs);
    ForkAdopted(cr, v, 40, 61, 62, 49, 40, op.now);
    AdoptionStep(v, op, v');
  }

  /** A run from a coherent node in which a reorg twice as deep as the cap replaces a chain on
      which deep recovery is not active: the run that `Coherence.RecoveryKept` shuts out. */
  lemma {:induction false} StaleRecoveryRun(cr: Crypto, now: nat)
    requires Easy(cr) && now >= GENESIS_TIME + BLOCK_TARGET_SPACING * SIGNAL_WINDOW
    ensures var vs, ops := StaleViews(cr), StaleOps(cr, now);
      && Run(vs, ops) && ChainOk(cr, vs[0].blocks) && AllCoherent(vs[0]) && !RecoveryKept(vs, ops, 3)
      && DeepReorg(vs[3], ops[3], vs[4]) && !ActiveWith(0, vs[3].blocks, RECOVERY_GATE)
  {
    var vs, ops := StaleViews(cr), StaleOps(cr, now);
    ChainValid(cr, 60, 2, 60);
    AnchorSteps(cr, now);
    AllEmpty(vs[0]);
    hide *;
    FirstAdoption(cr, vs[1], ops[1], vs[2]);
    SecondAdoption(cr, vs[3], ops[3], vs[4]);
    RunOfFour(vs, ops);
  }

  lemma {:induction false} RunOfFour(vs: seq<View>, ops: seq<Op>)
    requires |ops| == 4 && |vs| == 5 && Step(vs[0], ops[0], vs[1]) && Step(vs[1], ops[1], vs[2])
    requires Step(vs[2], ops[2], vs[3]) && Step(vs[3], ops[3], vs[4])
    ensures Run(vs, ops)
    ensures RecoveryKept(vs, ops, 3) ==> !Outdates(vs[1], ops[1], RecoveryAfter(vs[1], ops[1]), RECOVERY_GATE)
  {
    hide Step, Outdates, RecoveryAfter;
    forall i | 0 <= i < |ops| ensures StepAt(vs, ops, i) {
      assert i == 0 || i == 1 || i == 2 || i == 3;
    }
  }

  lemma {:induction false} AllEmpty(v: View)
    requires v.rules.lwmaAct == 0 && v.rules.feeAct == 0 && v.drAct == 0
    ensures AllCoherent(v)
  {
  }

  lemma {:induction false} AnchorSteps(cr: Crypto, now: nat)
    ensures var vs, ops := StaleViews(cr), StaleOps(cr, now);
      && Step(vs[0], ops[0], vs[1]) && Step(vs[2], ops[2], vs[3]) && ops[1].AdoptOp? && ops[3].AdoptOp?
      && ops[1].now == now && ops[3].now == now && vs[0].blocks == Chain(cr, 60, 2, 60)
      && vs[0].rules == Fresh(cr) && vs[0].drAct == 0
  {
    hide Chain, Step;
    var vs, ops := StaleViews(cr), StaleOps(cr, now);
    AnchorStep(vs[0], ops[0], vs[1]);
    AnchorStep(vs[2], ops[2], vs[3]);
  }

  lemma {:induction false} AnchorStep(v: View, op: Op, v': View)
    requires op.AnchorOp? && |v.blocks| > 0 && v' == v.(anchor := op.anchor) && op.anchor.height > v.anchor.height
    ensures Step(v, op, v')
  {
    NothingToFill(v.rules.lwmaAct, LWMA_GATE, v.maxReorg);
    NothingToFill(v.rules.feeAct, FEE_GATE, v.maxReorg);
  }
}
