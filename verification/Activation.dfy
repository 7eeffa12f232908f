/** Readiness-gated forks (core/upgrade.go) and the sticky activation caches. */
module Activation {
  import opened Types

  const NODE_CONSENSUS_VERSION := 4
  const FEE_MARKET_VERSION := 2
  const LWMA_VERSION := 3
  const DEEP_RECOVERY_VERSION := 4
  const SIGNAL_WINDOW := 100
  const SIGNAL_THRESHOLD := 80
  const LWMA_THRESHOLD := 90
  const DEEP_RECOVERY_WINDOW := 50
  const DEEP_RECOVERY_PERCENT := 95
  const DEEP_RECOVERY_REQUIRED := (DEEP_RECOVERY_WINDOW * DEEP_RECOVERY_PERCENT + 99) / 100

  const TAG_PREFIX: Text := [99, 114, 98, 110, 111, 100, 101, 47] // "crbnode/"

  // ------------------------------------------------- the version a block signals

  /** The value of a non-empty string of decimal digits, or -1. */
  function Digits(s: Text): int {
    if |s| == 0 || !(48 <= s[|s| - 1] <= 57) then -1
    else if |s| == 1 then s[0] - 48
    else
      var hi := Digits(s[..|s| - 1]);
      if hi < 0 then -1 else 10 * hi + s[|s| - 1] - 48
  }

  /** strconv.Atoi followed by the `v < 1` test: the parsed value, or 1. */
  function SignalledVersion(s: Text): (v: int)
    ensures v >= 1
  {
    var d := if |s| > 0 && s[0] == 43 then Digits(s[1..]) else Digits(s);
    if 1 <= d < 0x8000_0000_0000_0000 then d else 1
  }

  function CoinbaseVersion(b: Block): (v: int)
    ensures v >= 1
  {
    if |b.txs| == 0 || !(TAG_PREFIX <= b.txs[0].sig) then 1
    else SignalledVersion(b.txs[0].sig[|TAG_PREFIX|..])
  }

  const COINBASE_TAG: Text := TAG_PREFIX + [48 + NODE_CONSENSUS_VERSION]

  /** The tag this node stamps into its templates is read back as its own version. */
  lemma {:induction false} TagRoundTrip(b: Block)
    requires |b.txs| > 0 && b.txs[0].sig == COINBASE_TAG
    ensures CoinbaseVersion(b) == NODE_CONSENSUS_VERSION
  {
    assert COINBASE_TAG[|TAG_PREFIX|..] == [48 + NODE_CONSENSUS_VERSION];
  }

  // ------------------------------------------------------------------ counting

  ghost function Signals(blocks: seq<Block>, lo: nat, hi: nat, required: int): nat
    requires lo <= hi <= |blocks|
    decreases hi
  {
    if lo == hi then 0
    else Signals(blocks, lo, hi - 1, required) + if CoinbaseVersion(blocks[hi - 1]) >= required then 1 else 0
  }

  /** A fork's gate: its height floor, required version, window and threshold. */
  datatype Gate = Gate(floor: nat, version: int, window: nat, threshold: int) {
    /** The thresholds are real supermajorities within the window. */
    predicate Valid() {
      window / 2 < threshold <= window
    }

    function Start(): nat {
      if floor < window then window else floor
    }
  }

  const FEE_GATE := Gate(FEE_MARKET_HEIGHT, FEE_MARKET_VERSION, SIGNAL_WINDOW, SIGNAL_THRESHOLD)
  const LWMA_GATE := Gate(0, LWMA_VERSION, SIGNAL_WINDOW, LWMA_THRESHOLD)
  const RECOVERY_GATE := Gate(0, DEEP_RECOVERY_VERSION, DEEP_RECOVERY_WINDOW, DEEP_RECOVERY_REQUIRED)

  /** signalCountWin: signals in the window that ends just before height `at`. */
  method SignalCount(blocks: seq<Block>, at: nat, required: int, window: nat) returns (n: nat)
    ensures window == 0 || at < window || at > |blocks| ==> n == 0
    ensures 0 < window <= at <= |blocks| ==> n == Signals(blocks, at - window, at, required)
  {
    n := 0;
    if window == 0 || at < window || at > |blocks| {
      return;
    }
    for h := at - window to at
      invariant n == Signals(blocks, at - window, h, required)
    {
      if CoinbaseVersion(blocks[h]) >= required {
        n := n + 1;
      }
    }
  }

  ghost predicate Qualifies(blocks: seq<Block>, g: Gate, a: nat)
    requires g.window <= a <= |blocks|
  {
    Signals(blocks, a - g.window, a, g.version) >= g.threshold
  }

  /** `a` is the first height whose preceding window met the gate, or 0 if there is none. */
  ghost predicate IsActivation(blocks: seq<Block>, g: Gate, a: nat) {
    if a == 0 then forall h :: g.Start() <= h <= |blocks| ==> !Qualifies(blocks, g, h)
    else
      && g.Start() <= a <= |blocks|
      && Qualifies(blocks, g, a)
      && forall h :: g.Start() <= h < a ==> !Qualifies(blocks, g, h)
  }

  ghost function ActivationOf(blocks: seq<Block>, g: Gate): (a: nat)
    requires g.Valid()
    ensures IsActivation(blocks, g, a)
  {
    if exists h :: g.Start() <= h <= |blocks| && Qualifies(blocks, g, h) then
      FirstFrom(blocks, g, g.Start())
    else 0
  }

  ghost function FirstFrom(blocks: seq<Block>, g: Gate, from: nat): (a: nat)
    requires g.Valid() && g.Start() <= from
    requires exists h :: from <= h <= |blocks| && Qualifies(blocks, g, h)
    requires forall h :: g.Start() <= h < from ==> !Qualifies(blocks, g, h)
    ensures a != 0 && IsActivation(blocks, g, a)
    decreases |blocks| - from
  {
    if Qualifies(blocks, g, from) then from else FirstFrom(blocks, g, from + 1)
  }

  lemma {:induction false} ActivationUnique(blocks: seq<Block>, g: Gate, a: nat, a': nat)
    requires g.Valid() && IsActivation(blocks, g, a) && IsActivation(blocks, g, a')
    ensures a == a'
  {
  }

  /** activationHeightWin: the scan for the first qualifying height. */
  method ActivationHeight(blocks: seq<Block>, g: Gate) returns (a: nat)
    requires g.Valid()
    ensures a == ActivationOf(blocks, g)
  {
    var n := |blocks|;
    if n < g.floor {
      ActivationUnique(blocks, g, 0, ActivationOf(blocks, g));
      return 0;
    }
    var start := g.floor;
    if start < g.window {
      start := g.window;
    }
    a := start;
    while a <= n
      invariant start <= a
      invariant forall h :: start <= h < a && h <= n ==> !Qualifies(blocks, g, h)
    {
      var c := SignalCount(blocks, a, g.version, g.window);
      if c >= g.threshold {
        ActivationUnique(blocks, g, a, ActivationOf(blocks, g));
        return;
      }
      a := a + 1;
    }
    a := 0;
    ActivationUnique(blocks, g, 0, ActivationOf(blocks, g));
  }

  // ------------------------------------------------------------- stickiness

  lemma {:induction false} SignalsShared(xs: seq<Block>, ys: seq<Block>, lo: nat, hi: nat, required: int)
    requires lo <= hi <= |xs| && hi <= |ys| && xs[..hi] == ys[..hi]
    ensures Signals(xs, lo, hi, required) == Signals(ys, lo, hi, required)
    decreases hi
  {
    if lo < hi {
      assert xs[hi - 1] == xs[..hi][hi - 1] == ys[hi - 1];
      assert xs[..hi - 1] == xs[..hi][..hi - 1] == ys[..hi - 1];
      SignalsShared(xs, ys, lo, hi - 1, required);
    }
  }

  lemma {:induction false} QualifiesShared(xs: seq<Block>, ys: seq<Block>, g: Gate, n: nat)
    requires n <= |xs| && n <= |ys| && xs[..n] == ys[..n]
    ensures forall h :: g.window <= h <= n ==> Qualifies(xs, g, h) == Qualifies(ys, g, h)
  {
    forall h | g.window <= h <= n ensures Qualifies(xs, g, h) == Qualifies(ys, g, h) {
      assert xs[..h] == xs[..n][..h] == ys[..h];
      SignalsShared(xs, ys, h - g.window, h, g.version);
    }
  }

  /** Once a chain has an activation height `a`, every chain sharing its first `a` blocks has
      the same one, and every shorter prefix of those blocks is inactive. */
  lemma {:induction false} ActivationSticky(blocks: seq<Block>, other: seq<Block>, g: Gate)
    requires g.Valid()
    requires var a := ActivationOf(blocks, g); a != 0 && a <= |other| && other[..a] == blocks[..a]
    ensures ActivationOf(other, g) == ActivationOf(blocks, g)
    ensures forall k :: 0 <= k < ActivationOf(blocks, g) ==> ActivationOf(blocks[..k], g) == 0
  {
    var a := ActivationOf(blocks, g);
    QualifiesShared(blocks, other, g, a);
    ActivationUnique(other, g, a, ActivationOf(other, g));
    forall k | 0 <= k < a ensures ActivationOf(blocks[..k], g) == 0 {
      QualifiesShared(blocks, blocks[..k], g, k);
      ActivationUnique(blocks[..k], g, 0, ActivationOf(blocks[..k], g));
    }
  }

  // ------------------------------------------------------------------ caches

  /** The decision "is the fork active for the block after `blocks`", from a cached height
      when there is one (non-zero) and from a rescan otherwise. */
  ghost predicate ActiveWith(cached: nat, blocks: seq<Block>, g: Gate)
    requires g.Valid()
  {
    var a := if cached != 0 then cached else ActivationOf(blocks, g);
    a != 0 && |blocks| >= a
  }

  /** What the cache must satisfy to be trusted on `blocks`. */
  ghost predicate Coherent(cached: nat, blocks: seq<Block>, g: Gate)
    requires g.Valid()
  {
    cached == 0 || (cached <= |blocks| && ActivationOf(blocks, g) == cached)
  }

  /** What a look-up on `blocks` leaves in the cache. */
  ghost function Filled(cached: nat, blocks: seq<Block>, g: Gate, maxReorg: nat): nat
    requires g.Valid()
  {
    if cached != 0 then cached
    else
      var a := ActivationOf(blocks, g);
      if |blocks| >= a + maxReorg then a else 0
  }

  /** lwmaActivationC, feeMarketActivationC and deepRecoveryActivationC: the scan result is
      kept only once it is buried `maxReorg` blocks deep. */
  method ActivationCached(cached: nat, blocks: seq<Block>, g: Gate, maxReorg: nat)
    returns (a: nat, cached': nat)
    requires g.Valid()
    ensures a == if cached != 0 then cached else ActivationOf(blocks, g)
    ensures cached' == Filled(cached, blocks, g, maxReorg)
    ensures CacheStep(cached, cached', blocks, g, maxReorg)
  {
    if cached != 0 {
      return cached, cached;
    }
    a := ActivationHeight(blocks, g);
    cached' := cached;
    if a != 0 && |blocks| >= a + maxReorg {
      cached' := a;
    }
  }

  /** The only way a cached height changes while `blocks` is examined. */
  ghost predicate CacheStep(cached: nat, cached': nat, blocks: seq<Block>, g: Gate, maxReorg: nat)
    requires g.Valid()
  {
    cached' == cached || (cached == 0 && cached' == ActivationOf(blocks, g) && |blocks| >= cached' + maxReorg)
  }

  /** A coherent cache answers like a rescan on every prefix of every chain that shares the
      first `cached` blocks. */
  lemma {:induction false} CachedDecision(cached: nat, blocks: seq<Block>, other: seq<Block>, k: nat, g: Gate)
    requires g.Valid() && Coherent(cached, blocks, g)
    requires cached <= |other| && other[..cached] == blocks[..cached] && k <= |other|
    ensures ActiveWith(cached, other[..k], g) == ActiveWith(0, other[..k], g)
    ensures cached != 0 && k >= cached ==> Coherent(cached, other[..k], g)
  {
    if cached != 0 {
      ActivationSticky(blocks, other, g);
      if k < cached {
        ActivationSticky(other, other, g);
      } else {
        assert other[..k][..cached] == other[..cached];
        ActivationSticky(blocks, other[..k], g);
      }
    }
  }

  /** Filling the cache from a prefix does not change any later decision on the same chain:
      validation may consult the cache it started with throughout. */
  lemma {:induction false} CacheFillNeutral(cached: nat, cached': nat, chain: seq<Block>, j: nat, k: nat, g: Gate,
      maxReorg: nat)
    requires g.Valid() && j <= k <= |chain|
    requires CacheStep(cached, cached', chain[..j], g, maxReorg)
    ensures ActiveWith(cached', chain[..k], g) == ActiveWith(cached, chain[..k], g)
  {
    if cached' != cached && cached' != 0 {
      assert chain[..k][..cached'] == chain[..j][..cached'];
      ActivationSticky(chain[..j], chain[..k], g);
    }
  }

  /** Of two look-ups on a growing chain only the second matters. */
  lemma {:induction false} FilledTwice(cached: nat, prefix: seq<Block>, blocks: seq<Block>, g: Gate, maxReorg: nat)
    requires g.Valid() && prefix <= blocks
    ensures Filled(Filled(cached, prefix, g, maxReorg), blocks, g, maxReorg) == Filled(cached, blocks, g, maxReorg)
  {
    var a := ActivationOf(prefix, g);
    if cached == 0 && a != 0 {
      assert blocks[..a] == prefix[..a];
      ActivationSticky(prefix, blocks, g);
    }
  }

  /** A height cached when the chain had length `n` survives one reorg that keeps all but the
      last `maxReorg` of those blocks. */
  lemma {:induction false} CacheSurvivesReorg(cached: nat, blocks: seq<Block>, next: seq<Block>, keep: nat, g: Gate,
      maxReorg: nat)
    requires g.Valid() && CacheStep(0, cached, blocks, g, maxReorg)
    requires keep <= |blocks| <= keep + maxReorg
    requires keep <= |next| && next[..keep] == blocks[..keep]
    ensures Coherent(cached, next, g)
  {
    if cached != 0 {
      assert next[..cached] == next[..keep][..cached] == blocks[..cached];
      ActivationSticky(blocks, next, g);
    }
  }
}
