/** What the readiness gates of core/upgrade.go measure: the version a coinbase tag stands for, and
    the supermajorities that activate the three forks. */
module Readiness {
  import opened Types
  import opened Activation

  // ------------------------------------------------------------------- the tag

  /** strconv.Itoa for non-negative numbers. */
  function Decimal(n: nat): (s: Text)
    ensures |s| > 0 && forall i :: 0 <= i < |s| ==> 48 <= s[i] <= 57
  {
    if n < 10 then [48 + n] else Decimal(n / 10) + [48 + n % 10]
  }

  lemma {:induction false} DigitsBack(n: nat)
    ensures Digits(Decimal(n)) == n
  {
    var s := Decimal(n);
    if n >= 10 {
      DigitsBack(n / 10);
      assert s[..|s| - 1] == Decimal(n / 10);
    }
  }

  /** Every version number that fits an int is read back from its tag, with or without a plus sign;
      a larger one counts as version 1. */
  lemma {:induction false} VersionBack(n: nat, b: Block)
    requires |b.txs| > 0
    requires b.txs[0].sig == TAG_PREFIX + Decimal(n) || b.txs[0].sig == TAG_PREFIX + [43] + Decimal(n)
    ensures CoinbaseVersion(b) == if 1 <= n <= 9_223_372_036_854_775_807 then n else 1
  {
    hide Digits, Decimal;
    var s := b.txs[0].sig[|TAG_PREFIX|..];
    DigitsBack(n);
    if b.txs[0].sig == TAG_PREFIX + Decimal(n) {
      assert s == Decimal(n);
    } else {
      assert s == [43] + Decimal(n);
      assert s[1..] == Decimal(n);
    }
  }

  lemma {:induction false} DigitsOnly(s: Text, i: nat)
    requires i < |s| && !(48 <= s[i] <= 57)
    ensures Digits(s) == -1
  {
    if i < |s| - 1 {
      DigitsOnly(s[..|s| - 1], i);
    }
  }

  /** A tag with anything but digits behind the prefix and its optional plus sign counts as version
      1, and so does a coinbase without the prefix. */
  lemma {:induction false} OtherTagsAreOld(b: Block, i: nat)
    requires |b.txs| > 0
    requires !([99, 114, 98, 110, 111, 100, 101, 47] <= b.txs[0].sig) || |b.txs[0].sig| == 8
      || (8 <= i < |b.txs[0].sig| && !(48 <= b.txs[0].sig[i] <= 57) && (i == 8 ==> b.txs[0].sig[i] != 43))
    ensures CoinbaseVersion(b) == 1
  {
    if TAG_PREFIX <= b.txs[0].sig && |b.txs[0].sig| > 8 {
      var s := b.txs[0].sig[8..];
      DigitsOnly(s, i - 8);
      if s[0] == 43 {
        DigitsOnly(s[1..], i - 9);
      }
    }
  }

  // ----------------------------------------------------------------- the gates

  ghost predicate Signalling(blocks: seq<Block>, i: nat, version: int) {
    i < |blocks| && CoinbaseVersion(blocks[i]) >= version
  }

  /** The blocks of [lo, hi) that signal at least `version`. */
  ghost function Signallers(blocks: seq<Block>, lo: nat, hi: nat, version: int): set<nat> {
    set i: nat | lo <= i < hi && Signalling(blocks, i, version)
  }

  lemma {:induction false} SignalsAreSignallers(blocks: seq<Block>, lo: nat, hi: nat, version: int)
    requires lo <= hi <= |blocks|
    ensures Signals(blocks, lo, hi, version) == |Signallers(blocks, lo, hi, version)|
    decreases hi
  {
    hide CoinbaseVersion;
    if lo == hi {
      assert Signallers(blocks, lo, hi, version) == {};
    } else {
      SignalsAreSignallers(blocks, lo, hi - 1, version);
      var rest := Signallers(blocks, lo, hi - 1, version);
      assert Signallers(blocks, lo, hi, version) == if Signalling(blocks, hi - 1, version) then rest + {hi - 1} else rest;
    }
  }

  /** At least `threshold` of the `window` blocks below height `a` signal `version`. */
  ghost predicate Supermajority(blocks: seq<Block>, a: nat, version: int, window: nat, threshold: nat) {
    window <= a <= |blocks| && |Signallers(blocks, a - window, a, version)| >= threshold
  }

  ghost predicate IsFirst(blocks: seq<Block>, a: nat, start: nat, version: int, window: nat, threshold: nat) {
    && start <= a && Supermajority(blocks, a, version, window, threshold)
    && forall h: nat :: start <= h < a ==> !Supermajority(blocks, h, version, window, threshold)
  }

  /** The three forks activate at the first height whose preceding window holds their supermajority:
      LWMA at 90 of 100 blocks of version 3, the fee market at 80 of 100 of version 2 from height 3195
      on, deep recovery at 48 of 50 of version 4. */
  lemma {:induction false} ForksActivateAt(blocks: seq<Block>, a: nat)
    requires a > 0
    ensures ActivationOf(blocks, LWMA_GATE) == a <==> IsFirst(blocks, a, 100, 3, 100, 90)
    ensures ActivationOf(blocks, FEE_GATE) == a <==> IsFirst(blocks, a, 3195, 2, 100, 80)
    ensures ActivationOf(blocks, RECOVERY_GATE) == a <==> IsFirst(blocks, a, 50, 4, 50, 48)
  {
    hide ActivationOf, IsActivation, IsFirst;
    GateIsFirst(blocks, LWMA_GATE, a);
    GateIsFirst(blocks, FEE_GATE, a);
    GateIsFirst(blocks, RECOVERY_GATE, a);
  }

  lemma {:induction false} GateIsFirst(blocks: seq<Block>, g: Gate, a: nat)
    requires g.Valid() && g.threshold > 0 && a > 0
    ensures ActivationOf(blocks, g) == a <==> IsFirst(blocks, a, g.Start(), g.version, g.window, g.threshold)
  {
    forall h: nat | g.window <= h <= |blocks|
      ensures Qualifies(blocks, g, h) <==> Supermajority(blocks, h, g.version, g.window, g.threshold)
    {
      SignalsAreSignallers(blocks, h - g.window, h, g.version);
    }
    hide ActivationOf, Signallers, Qualifies, Supermajority;
    if IsFirst(blocks, a, g.Start(), g.version, g.window, g.threshold) {
      assert g.window <= a <= |blocks| by {
        InRange(blocks, a, g.version, g.window, g.threshold);
      }
      ActivationUnique(blocks, g, a, ActivationOf(blocks, g));
    }
  }

  lemma {:induction false} InRange(blocks: seq<Block>, a: nat, version: int, window: nat, threshold: nat)
    requires Supermajority(blocks, a, version, window, threshold)
    ensures window <= a <= |blocks|
  {
  }

  /** Blocks [lo, hi) all carry this node's tag. */
  ghost predicate Tagged(blocks: seq<Block>, lo: nat, hi: nat) {
    forall i: nat :: lo <= i < hi ==> Signalling(blocks, i, 4)
  }

  lemma {:induction false} TaggedCount(blocks: seq<Block>, lo: nat, hi: nat, version: int)
    requires lo <= hi <= |blocks| && Tagged(blocks, lo, hi) && version <= 4
    ensures Signals(blocks, lo, hi, version) == hi - lo
    decreases hi
  {
    if lo < hi {
      TaggedCount(blocks, lo, hi - 1, version);
      assert Signalling(blocks, hi - 1, 4);
    }
  }

  /** A window of blocks built from this node's templates activates every fork: LWMA and the fee
      market after 100 of them, the latter not below height 3195, and deep recovery after 50. */
  lemma {:induction false} TemplatesActivate(blocks: seq<Block>, n: nat)
    requires n <= |blocks| && Tagged(blocks, |blocks| - n, |blocks|)
    ensures n >= 100 ==> 0 < ActivationOf(blocks, LWMA_GATE) <= |blocks|
    ensures n >= 100 && |blocks| >= 3195 ==> 3195 <= ActivationOf(blocks, FEE_GATE) <= |blocks|
    ensures n >= 50 ==> 0 < ActivationOf(blocks, RECOVERY_GATE) <= |blocks|
  {
    hide ActivationOf;
    if n >= 50 {
      TaggedCount(blocks, |blocks| - 50, |blocks|, 4);
      assert Qualifies(blocks, RECOVERY_GATE, |blocks|);
    }
    if n >= 100 {
      TaggedCount(blocks, |blocks| - 100, |blocks|, 3);
      TaggedCount(blocks, |blocks| - 100, |blocks|, 2);
      assert Qualifies(blocks, LWMA_GATE, |blocks|);
      assert Qualifies(blocks, FEE_GATE, |blocks|);
    }
  }
}
