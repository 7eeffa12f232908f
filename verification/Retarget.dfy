/** Work, the two retarget rules and their bounds (core/chain.go legacyTarget and lwmaTarget,
    core/types.go WorkOf). */
module Retarget {
  import opened Types

  const TWO256: nat := 0x1_0000_0000_0000_0000_0000_0000_0000_0000_0000_0000_0000_0000_0000_0000_0000_0000

  /** Expected hashes for a target. */
  function WorkOf(target: nat): nat {
    TWO256 / (target + 1)
  }

  function SumWork(blocks: seq<Block>, lo: nat, hi: nat): nat
    requires lo <= hi <= |blocks|
    decreases hi
  {
    if lo == hi then 0 else SumWork(blocks, lo, hi - 1) + WorkOf(blocks[hi - 1].hd.target)
  }

  function SumTargets(blocks: seq<Block>, lo: nat, hi: nat): nat
    requires lo <= hi <= |blocks|
    decreases hi
  {
    if lo == hi then 0 else SumTargets(blocks, lo, hi - 1) + blocks[hi - 1].hd.target
  }

  // ------------------------------------------------------- int64 differences

  const TWO63 := 0x8000_0000_0000_0000

  /** int64(a) - int64(b) of two uint64 times, with int64 wrap-around. */
  function Diff64(a: u64, b: u64): (d: int)
    ensures -TWO63 <= d < TWO63
  {
    var d := (a - b) % TWO64;
    if d < TWO63 then d else d - TWO64
  }

  function Clamp(x: int, lo: int, hi: int): (r: int)
    requires lo <= hi
    ensures lo <= r <= hi
  {
    if x < lo then lo else if x > hi then hi else x
  }

  /** Both rules end by forcing the result into [1, MAX_TARGET]. */
  function ClampTarget(x: int): (r: nat)
    ensures 1 <= r <= MAX_TARGET
  {
    if x > MAX_TARGET then MAX_TARGET else if x <= 0 then 1 else x
  }

  // ------------------------------------------------------------ legacy rule

  function LegacyTarget(blocks: seq<Block>): (r: nat)
    ensures 1 <= r <= MAX_TARGET
  {
    var h := |blocks|;
    if h < 2 then GENESIS_TARGET else
      var window := if h - 1 < RETARGET_WINDOW then h - 1 else RETARGET_WINDOW;
      var expected := window * BLOCK_TARGET_SPACING;
      var actual := Clamp(Diff64(blocks[h - 1].hd.time, blocks[h - 1 - window].hd.time), expected / 4, expected * 4);
      ClampTarget(SumTargets(blocks, h - window, h) / window * actual / expected)
  }

  method LegacyTargetOf(blocks: seq<Block>) returns (r: nat)
    ensures r == LegacyTarget(blocks)
  {
    var h := |blocks|;
    if h < 2 {
      return GENESIS_TARGET;
    }
    var window := RETARGET_WINDOW;
    if h - 1 < window {
      window := h - 1;
    }
    var expected := window * BLOCK_TARGET_SPACING;
    var actual := Diff64(blocks[h - 1].hd.time, blocks[h - 1 - window].hd.time);
    if actual < expected / 4 {
      actual := expected / 4;
    }
    if actual > expected * 4 {
      actual := expected * 4;
    }
    var sum := 0;
    for i := h - window to h
      invariant sum == SumTargets(blocks, h - window, i)
    {
      sum := sum + blocks[i].hd.target;
    }
    var next := sum / window * actual / expected;
    if next > MAX_TARGET {
      next := MAX_TARGET;
    }
    if next <= 0 {
      next := 1;
    }
    r := next;
  }

  // -------------------------------------------------------------- LWMA rule

  const SOLVE_MAX := 10 * BLOCK_TARGET_SPACING

  function SolveTime(blocks: seq<Block>, i: nat): (st: int)
    requires 1 <= i < |blocks|
    ensures 1 <= st <= SOLVE_MAX
  {
    Clamp(Diff64(blocks[i].hd.time, blocks[i - 1].hd.time), 1, SOLVE_MAX)
  }

  /** The sum of k * solvetime_k over the first `k` blocks of the window starting at `lo`. */
  function Weighted(blocks: seq<Block>, lo: nat, k: nat): nat
    requires 1 <= lo && lo + k <= |blocks|
  {
    if k == 0 then 0 else Weighted(blocks, lo, k - 1) + k * SolveTime(blocks, lo + k - 1)
  }

  /** The difficulty LWMA asks for, before it is turned into a target. */
  function LwmaDifficulty(blocks: seq<Block>): int
    requires |blocks| > LWMA_WINDOW
  {
    var h, N := |blocks|, LWMA_WINDOW;
    var weighted := Weighted(blocks, h - N, N);
    WeightedBounds(blocks, h - N, N);
    SumWork(blocks, h - N, h) * (BLOCK_TARGET_SPACING * (N + 1)) / (2 * weighted)
  }

  function TargetForWork(d: int): int {
    TWO256 / (if d <= 0 then 1 else d) - 1
  }

  function LwmaTarget(blocks: seq<Block>): (r: nat)
    ensures 1 <= r <= MAX_TARGET
  {
    if |blocks| < LWMA_WINDOW + 1 then LegacyTarget(blocks)
    else ClampTarget(TargetForWork(LwmaDifficulty(blocks)))
  }

  method LwmaTargetOf(blocks: seq<Block>) returns (r: nat)
    ensures r == LwmaTarget(blocks)
  {
    var h, N := |blocks|, LWMA_WINDOW;
    if h < N + 1 {
      r := LegacyTargetOf(blocks);
      return;
    }
    var sumD, weighted := 0, 0;
    for k := 1 to N + 1
      invariant sumD == SumWork(blocks, h - N, h - N + k - 1)
      invariant weighted == Weighted(blocks, h - N, k - 1)
    {
      var idx := h - N + (k - 1);
      var st := Diff64(blocks[idx].hd.time, blocks[idx - 1].hd.time);
      if st < 1 {
        st := 1;
      }
      if st > SOLVE_MAX {
        st := SOLVE_MAX;
      }
      weighted := weighted + k * st;
      sumD := sumD + WorkOf(blocks[idx].hd.target);
    }
    WeightedBounds(blocks, h - N, N);
    var nextD := sumD * (BLOCK_TARGET_SPACING * (N + 1)) / (2 * weighted);
    if nextD <= 0 {
      nextD := 1;
    }
    var next := TWO256 / nextD - 1;
    if next > MAX_TARGET {
      next := MAX_TARGET;
    }
    if next <= 0 {
      next := 1;
    }
    r := next;
  }

  /** expectedTargetActive */
  function ExpectedTarget(blocks: seq<Block>, lwmaActive: bool): (r: nat)
    ensures 1 <= r <= MAX_TARGET
  {
    if lwmaActive then LwmaTarget(blocks) else LegacyTarget(blocks)
  }

  // -------------------------------------------------------------- properties

  /** 1 + 2 + ... + k */
  function Triangle(k: nat): nat {
    if k == 0 then 0 else Triangle(k - 1) + k
  }

  lemma {:induction false} TriangleClosed(k: nat)
    ensures 2 * Triangle(k) == k * (k + 1)
  {
    if k > 0 {
      TriangleClosed(k - 1);
      assert k * (k + 1) == (k - 1) * k + 2 * k;
    }
  }

  lemma {:induction false} WeightedBounds(blocks: seq<Block>, lo: nat, k: nat)
    requires 1 <= lo && lo + k <= |blocks|
    ensures Triangle(k) <= Weighted(blocks, lo, k) <= SOLVE_MAX * Triangle(k)
    ensures k == LWMA_WINDOW ==> Triangle(k) == 4095
  {
    if k > 0 {
      WeightedBounds(blocks, lo, k - 1);
      hide SolveTime, TWO63;
      TermBounds(k, SolveTime(blocks, lo + k - 1));
    }
    WindowTriangle(k);
  }

  lemma {:induction false} TermBounds(k: nat, st: nat)
    requires 1 <= st <= SOLVE_MAX
    ensures k <= k * st <= SOLVE_MAX * k
  {
    MulMono(1, st, k);
    MulMono(st, SOLVE_MAX, k);
    assert k * st == st * k;
  }

  lemma {:induction false} WindowTriangle(k: nat)
    ensures k == LWMA_WINDOW ==> Triangle(k) == 4095
  {
    TriangleClosed(k);
    hide Triangle;
  }

  lemma {:induction false} DivBounds(a: nat, b: nat)
    requires b > 0
    ensures a / b * b <= a < (a / b + 1) * b
  {
  }

  lemma {:induction false} MulMono(a: nat, b: nat, c: nat)
    requires a <= b
    ensures a * c <= b * c
  {
  }

  /** q is the quotient a / b when q * b <= a < (q + 1) * b. */
  lemma {:induction false} DivUnique(a: nat, b: nat, q: nat)
    requires b > 0 && q * b <= a < (q + 1) * b
    ensures a / b == q
  {
    var p := a / b;
    DivBounds(a, b);
    if p < q {
      MulMono(p + 1, q, b);
    } else if p > q {
      MulMono(q + 1, p, b);
    }
  }

  /** Floor division is a Galois connection: q * b <= a exactly when q <= a / b. */
  lemma {:induction false} DivGalois(a: nat, b: nat, q: nat)
    requires b > 0
    ensures q * b <= a <==> q <= a / b
  {
    DivBounds(a, b);
    if q <= a / b {
      MulMono(q, a / b, b);
    } else {
      MulMono(a / b + 1, q, b);
    }
  }

  lemma {:induction false} DifficultyArithmetic(sum: nat, w: nat)
    requires 4095 <= w <= 2_457_000
    ensures var d := sum * 5460 / (2 * w); sum / 900 <= d && 3 * d <= 2 * sum
  {
    DifficultyAbove(sum, w);
    DifficultyBelow(sum, w);
  }

  lemma {:induction false} DifficultyBelow(sum: nat, w: nat)
    requires 4095 <= w
    ensures 3 * (sum * 5460 / (2 * w)) <= 2 * sum
  {
    DivScaled(sum * 5460, 2 * w, 8190);
  }

  lemma {:induction false} DivScaled(a: nat, b: nat, c: nat)
    requires 0 < c <= b
    ensures c * (a / b) <= a
  {
    DivBounds(a, b);
    MulMono(c, b, a / b);
    assert b * (a / b) == a / b * b;
  }

  lemma {:induction false} DifficultyAbove(sum: nat, w: nat)
    requires 0 < w <= 2_457_000
    ensures sum / 900 <= sum * 5460 / (2 * w)
  {
    var q := sum / 900;
    MulMono(2 * w, 4_914_000, q);
    ScaledQuotient(sum);
    assert q * (2 * w) == 2 * w * q;
    DivGalois(sum * 5460, 2 * w, q);
  }

  lemma {:induction false} ScaledQuotient(sum: nat)
    ensures 4_914_000 * (sum / 900) <= sum * 5460
  {
  }

  /** LWMA never moves the difficulty below a tenth, or above sixty times, the window's average. */
  lemma {:induction false} LwmaDifficultyBounds(blocks: seq<Block>)
    requires |blocks| > LWMA_WINDOW
    ensures var sum := SumWork(blocks, |blocks| - LWMA_WINDOW, |blocks|);
      sum / (10 * LWMA_WINDOW) <= LwmaDifficulty(blocks) && LwmaDifficulty(blocks) * LWMA_WINDOW <= 60 * sum
  {
    var h, N := |blocks|, LWMA_WINDOW;
    WeightedBounds(blocks, h - N, N);
    DifficultyArithmetic(SumWork(blocks, h - N, h), Weighted(blocks, h - N, N));
  }

  /** Work and target form a Galois pair, so a work value that comes from a target is
      reproduced by the round trip through `TargetForWork`. */
  lemma {:induction false} WorkRoundTrip(n: nat, t: nat)
    requires n > 0 && n / (t + 1) > 0
    ensures n / (n / (n / (t + 1))) == n / (t + 1)
  {
    var d := n / (t + 1);
    var u := n / d;
    DivGalois(n, t + 1, d);
    assert d * (t + 1) == (t + 1) * d;
    DivGalois(n, d, t + 1);          // t + 1 <= u
    DivGalois(n, d, u);              // u * d <= n
    assert u * d == d * u;
    DivGalois(n, u, d);              // d <= n / u
    DivBounds(n, u);
    MulMono(t + 1, u, n / u);
    assert n / u * u == u * (n / u) && n / u * (t + 1) == (t + 1) * (n / u);
    DivGalois(n, t + 1, n / u);      // n / u <= d
  }

  /** Block `i` has work `d` and came exactly one target spacing after its parent. */
  ghost predicate OnTime(blocks: seq<Block>, i: nat, d: nat)
    requires 1 <= i < |blocks|
  {
    && blocks[i].hd.target >= 1 && WorkOf(blocks[i].hd.target) == d
    && Diff64(blocks[i].hd.time, blocks[i - 1].hd.time) == BLOCK_TARGET_SPACING
  }

  lemma {:induction false} ConstantWindow(blocks: seq<Block>, lo: nat, k: nat, d: nat)
    requires 1 <= lo && lo + k <= |blocks|
    requires forall i :: lo <= i < lo + k ==> OnTime(blocks, i, d)
    ensures SumWork(blocks, lo, lo + k) == k * d
    ensures 2 * Weighted(blocks, lo, k) == BLOCK_TARGET_SPACING * (k * (k + 1))
  {
    if k > 0 {
      ConstantWindow(blocks, lo, k - 1, d);
      assert OnTime(blocks, lo + k - 1, d);
      assert k * d == (k - 1) * d + d;
      assert k * (k + 1) == (k - 1) * k + 2 * k;
    }
  }

  /** Work D at the floor or above: its target needs no clamping and has work D. */
  lemma {:induction false} WorkSurvivesClamp(t: nat, d: nat)
    requires d == WorkOf(t) && d >= 4095 && t >= 1
    ensures WorkOf(ClampTarget(TargetForWork(d))) == d
  {
    WorkRoundTrip(TWO256, t);
    var u := TWO256 / d;
    DivBounds(TWO256, d);
    if d == 4095 {
      assert TargetForWork(4095) > MAX_TARGET;
    } else {
      MulMono(4096, d, u);
      assert u <= MAX_TARGET;
      DivGalois(TWO256, t + 1, d);
      assert d * (t + 1) == (t + 1) * d;
      DivGalois(TWO256, d, t + 1);
      assert u >= 2;
    }
  }

  lemma {:induction false} OnSchedule(sum: nat, w: nat, d: nat)
    requires sum == 90 * d && w == 60 * 4095
    ensures sum * 5460 / (2 * w) == d
  {
    assert sum * 5460 == d * 491_400;
    MulDiv(d, 491_400);
  }

  lemma {:induction false} ScheduledDifficulty(blocks: seq<Block>, d: nat)
    requires |blocks| > LWMA_WINDOW
    requires forall i :: |blocks| - LWMA_WINDOW <= i < |blocks| ==> OnTime(blocks, i, d)
    ensures SumWork(blocks, |blocks| - LWMA_WINDOW, |blocks|) == 90 * d
    ensures Weighted(blocks, |blocks| - LWMA_WINDOW, LWMA_WINDOW) == 60 * 4095
  {
    var lo := |blocks| - LWMA_WINDOW;
    ConstantWindow(blocks, lo, LWMA_WINDOW, d);
  }

  /** A window of constant work D found exactly on schedule keeps work D, down to the
      difficulty floor. */
  lemma {:induction false} LwmaFixpoint(blocks: seq<Block>, d: nat)
    requires |blocks| > LWMA_WINDOW && d >= 4095
    requires forall i :: |blocks| - LWMA_WINDOW <= i < |blocks| ==> OnTime(blocks, i, d)
    ensures WorkOf(LwmaTarget(blocks)) == d
  {
    ScheduledDifficulty(blocks, d);
    assert OnTime(blocks, |blocks| - 1, d);
    OnSchedule(SumWork(blocks, |blocks| - LWMA_WINDOW, |blocks|), Weighted(blocks, |blocks| - LWMA_WINDOW, LWMA_WINDOW), d);
    WorkSurvivesClamp(blocks[|blocks| - 1].hd.target, d);
  }

  lemma {:induction false} MulDiv(x: nat, w: nat)
    requires w > 0
    ensures x * w / w == x
  {
    assert x * w < (x + 1) * w by { assert (x + 1) * w == x * w + w; }
    DivUnique(x * w, w, x);
  }

  /** A legacy window of one target found exactly on schedule repeats that target. */
  lemma {:induction false} LegacyFixpoint(blocks: seq<Block>, t: nat)
    requires |blocks| >= 2 && 1 <= t <= MAX_TARGET
    requires var w := if |blocks| - 1 < RETARGET_WINDOW then |blocks| - 1 else RETARGET_WINDOW;
      && (forall i :: |blocks| - w <= i < |blocks| ==> blocks[i].hd.target == t)
      && Diff64(blocks[|blocks| - 1].hd.time, blocks[|blocks| - 1 - w].hd.time) == w * BLOCK_TARGET_SPACING
    ensures LegacyTarget(blocks) == t
  {
    var h := |blocks|;
    var w := if h - 1 < RETARGET_WINDOW then h - 1 else RETARGET_WINDOW;
    ConstantTargets(blocks, h - w, h, t);
    assert w * t == t * w;
    MulDiv(t, w);
    MulDiv(t, w * BLOCK_TARGET_SPACING);
  }

  lemma {:induction false} ConstantTargets(blocks: seq<Block>, lo: nat, hi: nat, t: nat)
    requires lo <= hi <= |blocks|
    requires forall i :: lo <= i < hi ==> blocks[i].hd.target == t
    ensures SumTargets(blocks, lo, hi) == (hi - lo) * t
    decreases hi
  {
    if lo < hi {
      ConstantTargets(blocks, lo, hi - 1, t);
      assert (hi - lo) * t == (hi - 1 - lo) * t + t;
    }
  }

  /** A legal target has at least the work of the difficulty floor. */
  lemma {:induction false} WorkFloor(target: nat)
    requires target <= MAX_TARGET
    ensures WorkOf(target) >= 4095
  {
    DivGalois(TWO256, target + 1, 4095);
    MulMono(target + 1, MAX_TARGET + 1, 4095);
  }
}
