/** Share difficulty of the solo stratum bridge (cmd/cereblix-stratum/solodiff.go). */
module Stratum {
  import opened Types
  import opened Retarget

  const SHARE_SHIFT: nat := 4096 // << 12

  datatype Diff = Unset | Diff(value: nat)

  /** targetToDiff: a target that is not positive counts as difficulty 1. */
  function TargetToDiff(t: int): nat {
    if t <= 0 then 1 else WorkOf(t)
  }

  function Unclamped(d: nat): int
    requires d > 0
  {
    TWO256 / d - 1
  }

  /** diffToTarget: the inverse, kept in [1, MaxTarget]. */
  function DiffToTarget(d: nat): (t: nat)
    ensures 1 <= t <= MAX_TARGET
  {
    if d == 0 then MAX_TARGET
    else
      var t := Unclamped(d);
      if t < 1 then 1 else if t > MAX_TARGET then MAX_TARGET else t
  }

  function ClampDiff(d: nat, lo: nat, hi: nat): nat {
    if d < lo then lo else if d > hi then hi else d
  }

  /** diffBounds: easiest, hardest and default share difficulty. */
  function Bounds(net: int): (nat, nat, nat) {
    var hi, lo := TargetToDiff(net), TargetToDiff(MAX_TARGET);
    var dt := if net * SHARE_SHIFT > MAX_TARGET then MAX_TARGET else net * SHARE_SHIFT;
    var def := TargetToDiff(dt);
    var atLeast := if def < lo then lo else def;
    (lo, hi, if atLeast > hi then hi else atLeast)
  }

  // ------------------------------------------------------------- the Galois pair

  lemma {:induction false} WorkAntitone(t: nat, u: nat)
    requires t <= u
    ensures WorkOf(u) <= WorkOf(t)
  {
    var q := TWO256 / (u + 1);
    DivGalois(TWO256, u + 1, q);
    MulMono(t + 1, u + 1, q);
    assert q * (t + 1) == (t + 1) * q && q * (u + 1) == (u + 1) * q;
    DivGalois(TWO256, t + 1, q);
  }

  /** A difficulty is no harder than a target's exactly when its own target is no smaller. */
  lemma {:induction false} Galois(d: nat, t: nat)
    requires d > 0
    ensures d <= WorkOf(t) <==> t <= Unclamped(d)
  {
    DivGalois(TWO256, t + 1, d);
    DivGalois(TWO256, d, t + 1);
    assert d * (t + 1) == (t + 1) * d;
  }

  /** The two conversions are a Galois pair on every target the chain can require, except at the
      target 1, where the clamp raises the harder difficulties to it. */
  lemma {:induction false} ShareGalois(d: nat, t: nat)
    requires d > 0 && 1 <= t <= MAX_TARGET
    ensures d <= WorkOf(t) ==> t <= DiffToTarget(d)
    ensures t >= 2 ==> (d <= WorkOf(t) <==> t <= DiffToTarget(d))
    ensures t == 1 ==> t <= DiffToTarget(d)
  {
    Galois(d, t);
  }

  /** For every network target the chain allows: easiest <= default <= hardest. */
  lemma {:induction false} BoundsOrdered(net: int)
    ensures var (lo, hi, def) := Bounds(net);
      && (0 < net <= MAX_TARGET ==> 0 < lo <= def <= hi)
      && def <= hi
  {
    if 0 < net <= MAX_TARGET {
      WorkAntitone(net, MAX_TARGET);
    }
  }

  /** The default share is 4096 times easier than a block, up to rounding, unless that is easier
      than the chain allows. */
  lemma {:induction false} DefaultIsEasier(net: int)
    requires 0 < net <= MAX_TARGET
    ensures var (lo, hi, def) := Bounds(net);
      DiffToTarget(def) >= if net * SHARE_SHIFT > MAX_TARGET then MAX_TARGET else net * SHARE_SHIFT
  {
    var dt := if net * SHARE_SHIFT > MAX_TARGET then MAX_TARGET else net * SHARE_SHIFT;
    WorkAntitone(dt, MAX_TARGET);
    WorkAntitone(net, dt);
    ShareGalois(WorkOf(dt), dt);
  }

  /** As difficulties, up to the same rounding: where it can be 4096 times easier, the default is at
      least a 4096th of the hardest and at most twice that. */
  lemma {:induction false} DefaultTight(net: nat)
    requires 0 < net && 4096 * net <= MAX_TARGET
    ensures var (_, hi, def) := Bounds(net); hi / 4096 <= def <= hi / 2048
  {
    var dt, hi := 4096 * net, WorkOf(net);
    var q, d := hi / 4096, WorkOf(dt);
    WorkAntitone(dt, MAX_TARGET);
    WorkAntitone(net, dt);
    Share(net, 4096, q, hi);
    Product(q, dt + 1, 4096 * (net + 1));
    DivGalois(TWO256, dt + 1, q);
    DivGalois(TWO256, dt + 1, d);
    Product(d, 2048 * (net + 1), dt + 1);
    Share(net, 2048, d, hi);
  }

  lemma {:induction false} Product(q: nat, a: nat, b: nat)
    requires a <= b
    ensures q * a <= q * b
  {
    MulMono(a, b, q);
    assert q * a == a * q && q * b == b * q;
  }

  /** A difficulty is at most a k-th of a target's exactly when k times it fits. */
  lemma {:induction false} Share(net: nat, k: nat, q: nat, hi: nat)
    requires k > 0 && hi == TWO256 / (net + 1)
    ensures q <= hi / k <==> q * (k * (net + 1)) <= TWO256
  {
    DivGalois(hi, k, q);
    DivGalois(TWO256, net + 1, q * k);
    assert q * (k * (net + 1)) == q * k * (net + 1);
  }

  /** A requested difficulty is served as the nearest one within the bounds. */
  lemma {:induction false} ClampNearest(d: nat, lo: nat, hi: nat, x: nat)
    requires lo <= x <= hi
    ensures lo <= ClampDiff(d, lo, hi) <= hi
    ensures var r := ClampDiff(d, lo, hi); (if r < d then d - r else r - d) <= if x < d then d - x else x - d
  {
  }

  // ------------------------------------------------------------------ connections

  class Client {
    var fixedDiff: Diff
    var curDiff: Diff

    constructor (fixed: Diff)
      ensures fixedDiff == fixed && curDiff == Unset
    {
      fixedDiff, curDiff := fixed, Unset;
    }

    /** shareTargetHex, for any current difficulty that vardiff may have left. A share is never
        harder than a block; its target is the clamped difficulty's own, so the final safety check
        replaces it exactly when the network target is easier than the chain allows. */
    method ShareTarget(net: int) returns (tgt: int)
      requires net > 0
      modifies `curDiff
      ensures net <= tgt
      ensures curDiff.Diff?
      ensures tgt == if net > MAX_TARGET then net else DiffToTarget(curDiff.value)
      ensures net <= MAX_TARGET ==> tgt <= MAX_TARGET && Bounds(net).0 <= curDiff.value <= Bounds(net).1
      ensures curDiff.value == var (lo, hi, _) := Bounds(net);
        if fixedDiff.Diff? then ClampDiff(fixedDiff.value, lo, hi)
        else if old(curDiff).Unset? then lo
        else ClampDiff(old(curDiff).value, lo, hi)
    {
      var (lo, hi, _) := Bounds(net);
      BoundsOrdered(net);
      hide Bounds, WorkOf;
      if fixedDiff.Diff? {
        curDiff := Diff(ClampDiff(fixedDiff.value, lo, hi));
      } else if curDiff.Unset? {
        curDiff := Diff(lo);
      } else {
        curDiff := Diff(ClampDiff(curDiff.value, lo, hi));
      }
      tgt := DiffToTarget(curDiff.value);
      if net <= MAX_TARGET {
        HardestIs(net);
        ShareGalois(curDiff.value, net);
      }
      if tgt < net {
        tgt := net;
      }
    }
  }

  lemma {:induction false} HardestIs(net: int)
    requires net > 0
    ensures Bounds(net).1 == WorkOf(net)
  {
  }
}
