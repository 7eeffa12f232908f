/** How the two retarget rules answer to fast and slow blocks (core/chain.go legacyTarget and
    lwmaTarget). */
module Response {
  import opened Types
  import opened Retarget

  lemma {:induction false} DivMono(a: nat, b: nat, n: nat)
    requires n > 0 && a <= b
    ensures a / n <= b / n
  {
    var q := a / n;
    NonNegative(a, n);
    DivBounds(a, n);
    DivGalois(b, n, q);
  }

  lemma {:induction false} NonNegative(a: nat, n: nat)
    requires n > 0
    ensures a / n >= 0
  {
  }

  /** A larger divisor gives a smaller quotient. */
  lemma {:induction false} DivAnti(a: nat, m: nat, n: nat)
    requires 0 < m <= n
    ensures a / n <= a / m
  {
    var q := a / n;
    DivBounds(a, n);
    MulMono(m, n, q);
    assert q * n == n * q && q * m == m * q;
    DivGalois(a, m, q);
  }

  lemma {:induction false} ClampMono(x: int, y: int)
    requires x <= y
    ensures ClampTarget(x) <= ClampTarget(y)
  {
  }

  // ------------------------------------------------------------ the legacy rule

  /** How many blocks the legacy rule averages over. */
  function Span(blocks: seq<Block>): nat
    requires |blocks| >= 2
  {
    if |blocks| <= 20 then |blocks| - 1 else 20
  }

  function Average(blocks: seq<Block>): nat
    requires |blocks| >= 2
  {
    SumTargets(blocks, |blocks| - Span(blocks), |blocks|) / Span(blocks)
  }

  /** The time the averaged blocks took. */
  function Elapsed(blocks: seq<Block>): int
    requires |blocks| >= 2
  {
    Diff64(blocks[|blocks| - 1].hd.time, blocks[|blocks| - 1 - Span(blocks)].hd.time)
  }

  /** The elapsed time as the rule counts it: at least a quarter of the schedule, at most four
      times. */
  function Counted(t: int, w: nat): (c: nat)
    ensures 15 * w <= c <= 240 * w
  {
    if t < 15 * w then 15 * w else if t > 240 * w then 240 * w else t
  }

  lemma {:induction false} LegacyIs(blocks: seq<Block>)
    requires |blocks| >= 2
    ensures LegacyTarget(blocks) ==
      ClampTarget(Average(blocks) * Counted(Elapsed(blocks), Span(blocks)) / (60 * Span(blocks)))
  {
    hide ClampTarget, Diff64, SumTargets;
  }

  lemma {:induction false} Scaled(avg: nat, c: nat, e: nat)
    requires e > 0
    ensures c <= e ==> avg * c / e <= avg
    ensures c >= e ==> avg * c / e >= avg
  {
    DivGalois(avg * c, e, avg);
    DivBounds(avg * c, e);
    if c <= e {
      MulMono(c, e, avg);
      DivMono(avg * c, avg * e, e);
      MulDiv(avg, e);
    } else {
      MulMono(e, c, avg);
    }
  }

  lemma {:induction false} Quarter(avg: nat, w: nat)
    requires w > 0
    ensures avg * (15 * w) / (60 * w) == avg / 4
    ensures avg * (240 * w) / (60 * w) == 4 * avg
  {
    var q := avg / 4;
    var u := 15 * w;
    DivBounds(avg, 4);
    MulMono(q * 4, avg, u);
    MulMono(avg + 1, (q + 1) * 4, u);
    ByFour(q, u);
    ByFour(q + 1, u);
    assert (avg + 1) * u == avg * u + u;
    DivUnique(avg * u, 4 * u, q);
    Shift(avg, w);
    MulDiv(4 * avg, 60 * w);
  }

  lemma {:induction false} ByFour(q: nat, u: nat)
    ensures q * 4 * u == q * (4 * u)
  {
  }

  lemma {:induction false} Shift(avg: nat, w: nat)
    ensures avg * (240 * w) == 4 * avg * (60 * w)
  {
  }

  /** The answer of the legacy rule: a window faster than schedule never eases the average target,
      a slower one never tightens it, and the limits of a quarter and four times the average are
      reached at a quarter of the schedule and at four times the schedule. */
  lemma {:induction false} LegacyResponse(blocks: seq<Block>)
    requires |blocks| >= 2
    ensures var w, avg, t, r := Span(blocks), Average(blocks), Elapsed(blocks), LegacyTarget(blocks);
      && (t <= 60 * w ==> r <= ClampTarget(avg))
      && (t >= 60 * w ==> r >= ClampTarget(avg))
      && (t <= 15 * w ==> r == ClampTarget(avg / 4))
      && (t >= 240 * w ==> r == ClampTarget(4 * avg))
      && ClampTarget(avg / 4) <= r <= ClampTarget(4 * avg)
  {
    var w, avg, t := Span(blocks), Average(blocks), Elapsed(blocks);
    LegacyIs(blocks);
    hide LegacyTarget, Average, Elapsed, ClampTarget;
    CountedResponse(avg, t, w);
    var raw := avg * Counted(t, w) / (60 * w);
    hide Counted;
    ClampMono(avg / 4, raw);
    ClampMono(raw, 4 * avg);
    if t <= 60 * w {
      ClampMono(raw, avg);
    }
    if t >= 60 * w {
      ClampMono(avg, raw);
    }
  }

  lemma {:induction false} CountedResponse(avg: nat, t: int, w: nat)
    requires w > 0
    ensures var raw := avg * Counted(t, w) / (60 * w);
      && avg / 4 <= raw <= 4 * avg
      && (t <= 60 * w ==> raw <= avg) && (t >= 60 * w ==> raw >= avg)
      && (t <= 15 * w ==> raw == avg / 4) && (t >= 240 * w ==> raw == 4 * avg)
  {
    var c, e := Counted(t, w), 60 * w;
    Quarter(avg, w);
    Scaled(avg, c, e);
    ScaledMono(avg, 15 * w, c, e);
    ScaledMono(avg, c, 240 * w, e);
  }

  lemma {:induction false} ScaledMono(avg: nat, c: nat, d: nat, e: nat)
    requires e > 0 && c <= d
    ensures avg * c / e <= avg * d / e
  {
    MulMono(c, d, avg);
    Commuted(avg, c);
    Commuted(avg, d);
    DivMono(avg * c, avg * d, e);
  }

  lemma {:induction false} Commuted(a: nat, b: nat)
    ensures a * b == b * a && a * b >= 0
  {
  }

  /** The longer the same targets took, the easier the next one. */
  lemma {:induction false} LegacyMonotone(xs: seq<Block>, ys: seq<Block>)
    requires |xs| == |ys| >= 2 && Average(xs) == Average(ys) && Elapsed(xs) <= Elapsed(ys)
    ensures LegacyTarget(xs) <= LegacyTarget(ys)
  {
    LegacyIs(xs);
    LegacyIs(ys);
    hide LegacyTarget, Elapsed, Average, ClampTarget, Counted;
    CountedMono(Average(xs), Elapsed(xs), Elapsed(ys), Span(xs));
  }

  lemma {:induction false} CountedMono(avg: nat, t: int, t': int, w: nat)
    requires w > 0 && t <= t'
    ensures ClampTarget(avg * Counted(t, w) / (60 * w)) <= ClampTarget(avg * Counted(t', w) / (60 * w))
  {
    assert Counted(t, w) <= Counted(t', w);
    hide Counted, ClampTarget;
    ScaledMono(avg, Counted(t, w), Counted(t', w), 60 * w);
    ClampMono(avg * Counted(t, w) / (60 * w), avg * Counted(t', w) / (60 * w));
  }

  /** The average lies between the least and the greatest target of the window. */
  lemma {:induction false} AverageBetween(blocks: seq<Block>, lo: nat, hi: nat)
    requires |blocks| >= 2
    requires forall i :: |blocks| - Span(blocks) <= i < |blocks| ==> lo <= blocks[i].hd.target <= hi
    ensures lo <= Average(blocks) <= hi
  {
    var w, n := Span(blocks), |blocks|;
    SumBetween(blocks, n - w, n, lo, hi);
    var sum := SumTargets(blocks, n - w, n);
    hide SumTargets;
    assert w * lo == lo * w && w * hi == hi * w;
    DivGalois(sum, w, lo);
    DivMono(sum, hi * w, w);
    MulDiv(hi, w);
  }

  lemma {:induction false} SumBetween(blocks: seq<Block>, a: nat, b: nat, lo: nat, hi: nat)
    requires a <= b <= |blocks| && forall i :: a <= i < b ==> lo <= blocks[i].hd.target <= hi
    ensures (b - a) * lo <= SumTargets(blocks, a, b) <= (b - a) * hi
    decreases b
  {
    if a < b {
      SumBetween(blocks, a, b - 1, lo, hi);
      assert (b - a) * lo == (b - 1 - a) * lo + lo && (b - a) * hi == (b - 1 - a) * hi + hi;
    }
  }

  /** Differences of times are plain ones unless they exceed an int64. */
  lemma {:induction false} TimesExact(a: u64, b: u64)
    requires -0x8000_0000_0000_0000 <= a - b < 0x8000_0000_0000_0000
    ensures Diff64(a, b) == a - b
  {
    if a < b {
      assert (a - b) % TWO64 == a - b + TWO64;
    }
  }

  /** A chain of genesis alone asks for the genesis target, whose work is 32767, and a chain of at
      most 90 blocks for the legacy target, whichever rule is active. */
  lemma {:induction false} ShortHistory(blocks: seq<Block>)
    ensures |blocks| < 2 ==> LegacyTarget(blocks) == GENESIS_TARGET && WorkOf(GENESIS_TARGET) == 32767
    ensures |blocks| <= 90 ==> LwmaTarget(blocks) == LegacyTarget(blocks)
  {
  }

  // -------------------------------------------------------------- the LWMA rule

  /** A solve time counts as it is between one second and ten minutes, and as those limits beyond. */
  lemma {:induction false} SolveTimeIs(blocks: seq<Block>, i: nat)
    requires 1 <= i < |blocks|
    requires var d := blocks[i].hd.time - blocks[i - 1].hd.time; -0x8000_0000_0000_0000 <= d < 0x8000_0000_0000_0000
    ensures var d := blocks[i].hd.time - blocks[i - 1].hd.time;
      SolveTime(blocks, i) == if d <= 1 then 1 else if d >= 600 then 600 else d
  {
    TimesExact(blocks[i].hd.time, blocks[i - 1].hd.time);
    hide Diff64;
  }

  /** Every block of the window took at most as long in `xs` as in `ys`. */
  ghost predicate Faster(xs: seq<Block>, ys: seq<Block>, lo: nat, k: nat)
    requires 1 <= lo && lo + k <= |xs| && lo + k <= |ys|
  {
    forall i :: lo <= i < lo + k ==> SolveTime(xs, i) <= SolveTime(ys, i)
  }

  lemma {:induction false} FasterWeighs(xs: seq<Block>, ys: seq<Block>, lo: nat, k: nat)
    requires 1 <= lo && lo + k <= |xs| && lo + k <= |ys| && Faster(xs, ys, lo, k)
    ensures Weighted(xs, lo, k) <= Weighted(ys, lo, k)
  {
    hide SolveTime;
    if k > 0 {
      FasterWeighs(xs, ys, lo, k - 1);
      var s, t := SolveTime(xs, lo + k - 1), SolveTime(ys, lo + k - 1);
      MulMono(s, t, k);
      assert k * s == s * k && k * t == t * k;
    }
  }

  /** The difficulty for a work sum and a weighted solve time. */
  lemma {:induction false} DifficultyAnti(sum: nat, v: nat, w: nat)
    requires 0 < v <= w
    ensures sum * 5460 / (2 * w) <= sum * 5460 / (2 * v)
  {
    DivAnti(sum * 5460, 2 * v, 2 * w);
  }

  lemma {:induction false} TargetAnti(d: int, d': int)
    requires d <= d'
    ensures ClampTarget(TargetForWork(d')) <= ClampTarget(TargetForWork(d))
  {
    var m, n: nat := if d <= 0 then 1 else d, if d' <= 0 then 1 else d';
    DivAnti(TWO256, m, n);
  }

  lemma {:induction false} LwmaIs(blocks: seq<Block>)
    requires |blocks| > 90
    ensures var h := |blocks|;
      && 4095 <= Weighted(blocks, h - 90, 90)
      && LwmaDifficulty(blocks) == SumWork(blocks, h - 90, h) * 5460 / (2 * Weighted(blocks, h - 90, 90))
      && LwmaTarget(blocks) == ClampTarget(TargetForWork(LwmaDifficulty(blocks)))
  {
    WeightedBounds(blocks, |blocks| - 90, 90);
    hide Weighted, SumWork, ClampTarget, TargetForWork;
  }

  /** LWMA tightens when blocks come faster: of two windows of 90 blocks with the same work, the one
      in which every block was at least as fast gets the harder target. */
  lemma {:induction false} LwmaMonotone(xs: seq<Block>, ys: seq<Block>)
    requires |xs| > 90 && |ys| > 90 && |xs| == |ys|
    requires SumWork(xs, |xs| - 90, |xs|) == SumWork(ys, |ys| - 90, |ys|) && Faster(xs, ys, |xs| - 90, 90)
    ensures LwmaDifficulty(ys) <= LwmaDifficulty(xs) && LwmaTarget(xs) <= LwmaTarget(ys)
  {
    var lo := |xs| - 90;
    LwmaIs(xs);
    LwmaIs(ys);
    FasterWeighs(xs, ys, lo, 90);
    hide LwmaDifficulty, LwmaTarget, Weighted, SumWork, Faster, ClampTarget, TargetForWork;
    DifficultyAnti(SumWork(xs, lo, |xs|), Weighted(xs, lo, 90), Weighted(ys, lo, 90));
    TargetAnti(LwmaDifficulty(ys), LwmaDifficulty(xs));
  }

  lemma {:induction false} EachAtMost(blocks: seq<Block>, lo: nat, k: nat, s: nat)
    requires 1 <= lo && lo + k <= |blocks|
    ensures (forall i :: lo <= i < lo + k ==> SolveTime(blocks, i) <= s) ==> Weighted(blocks, lo, k) <= s * Triangle(k)
    ensures (forall i :: lo <= i < lo + k ==> SolveTime(blocks, i) >= s) ==> Weighted(blocks, lo, k) >= s * Triangle(k)
  {
    hide SolveTime;
    if k > 0 {
      EachAtMost(blocks, lo, k - 1, s);
      var st := SolveTime(blocks, lo + k - 1);
      if st <= s {
        MulMono(st, s, k);
      }
      if st >= s {
        MulMono(s, st, k);
      }
      assert s * Triangle(k) == s * Triangle(k - 1) + s * k;
      assert k * st == st * k;
    }
  }

  /** A window in which no block took longer than the minute never eases the average difficulty, and
      one in which none took less never tightens it. */
  lemma {:induction false} LwmaResponse(blocks: seq<Block>)
    requires |blocks| > 90
    ensures var lo, sum := |blocks| - 90, SumWork(blocks, |blocks| - 90, |blocks|);
      && ((forall i :: lo <= i < |blocks| ==> SolveTime(blocks, i) <= 60) ==> LwmaDifficulty(blocks) >= sum / 90)
      && ((forall i :: lo <= i < |blocks| ==> SolveTime(blocks, i) >= 60) ==> LwmaDifficulty(blocks) <= sum / 90)
  {
    var lo := |blocks| - 90;
    LwmaIs(blocks);
    EachAtMost(blocks, lo, 90, 60);
    WindowTriangle(90);
    var sum, weighted := SumWork(blocks, lo, |blocks|), Weighted(blocks, lo, 90);
    hide LwmaDifficulty, SumWork, Weighted, SolveTime;
    OnScheduleQuotient(sum);
    if weighted <= 60 * 4095 {
      DifficultyAnti(sum, weighted, 60 * 4095);
    }
    if weighted >= 60 * 4095 {
      DifficultyAnti(sum, 60 * 4095, weighted);
    }
  }

  lemma {:induction false} OnScheduleQuotient(sum: nat)
    ensures sum * 5460 / (2 * (60 * 4095)) == sum / 90
  {
    var q := sum / 90;
    DivBounds(sum, 90);
    assert q * 491_400 <= sum * 5460 < (q + 1) * 491_400;
    DivUnique(sum * 5460, 491_400, q);
  }

  /** `ys` differs from `xs` only in the solve time of block `j`, which took `extra` longer. */
  ghost predicate Slower(xs: seq<Block>, ys: seq<Block>, lo: nat, k: nat, j: nat, extra: nat)
    requires 1 <= lo && lo + k <= |xs| && lo + k <= |ys|
  {
    forall i :: lo <= i < lo + k ==> SolveTime(ys, i) == SolveTime(xs, i) + if i == j then extra else 0
  }

  lemma {:induction false} SlowerWeighs(xs: seq<Block>, ys: seq<Block>, lo: nat, k: nat, j: nat, extra: nat)
    requires 1 <= lo && lo + k <= |xs| && lo + k <= |ys| && Slower(xs, ys, lo, k, j, extra) && lo <= j
    ensures Weighted(ys, lo, k) == Weighted(xs, lo, k) + if j < lo + k then (j - lo + 1) * extra else 0
  {
    hide SolveTime;
    if k > 0 {
      SlowerWeighs(xs, ys, lo, k - 1, j, extra);
      var s := SolveTime(xs, lo + k - 1);
      if j == lo + k - 1 {
        assert k * (s + extra) == k * s + k * extra;
      }
    }
  }

  /** Newer blocks weigh more: the same delay eases the target at least as much on the later of two
      blocks of the window. */
  lemma {:induction false} NewerWeighsMore(xs: seq<Block>, ys: seq<Block>, zs: seq<Block>, i: nat, j: nat, extra: nat)
    requires |xs| == |ys| == |zs| > 90 && |xs| - 90 <= i < j < |xs|
    requires Slower(xs, ys, |xs| - 90, 90, i, extra) && Slower(xs, zs, |xs| - 90, 90, j, extra)
    requires SumWork(ys, |ys| - 90, |ys|) == SumWork(zs, |zs| - 90, |zs|)
    ensures Weighted(zs, |xs| - 90, 90) == Weighted(ys, |xs| - 90, 90) + (j - i) * extra
    ensures LwmaDifficulty(zs) <= LwmaDifficulty(ys) && LwmaTarget(ys) <= LwmaTarget(zs)
  {
    var lo := |xs| - 90;
    SlowerWeighs(xs, ys, lo, 90, i, extra);
    SlowerWeighs(xs, zs, lo, 90, j, extra);
    LwmaIs(ys);
    LwmaIs(zs);
    hide LwmaDifficulty, LwmaTarget, Weighted, SumWork, Slower, ClampTarget, TargetForWork;
    Apart(i - lo + 1, j - i, extra);
    DifficultyAnti(SumWork(ys, lo, |ys|), Weighted(ys, lo, 90), Weighted(zs, lo, 90));
    TargetAnti(LwmaDifficulty(zs), LwmaDifficulty(ys));
  }

  lemma {:induction false} Apart(a: nat, b: nat, extra: nat)
    ensures (a + b) * extra == a * extra + b * extra && b * extra >= 0
  {
  }
}
