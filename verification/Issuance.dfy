/** The issuance schedule (core/types.go BlockSubsidy): what every height issues, and what all of
    them issue together. */
module Issuance {
  import opened Types
  import opened Ledger
  import opened Retarget
  import opened Validation
  import opened Conservation
  import Words

  lemma {:induction false} ShiftIsQuotient(x: nat, k: nat)
    ensures ShiftRight(x, k) == x / Words.Pow2(k)
  {
    if k > 0 {
      ShiftIsQuotient(x, k - 1);
      HalfOfQuotient(x, Words.Pow2(k - 1));
    }
  }

  lemma {:induction false} HalfOfQuotient(x: nat, p: nat)
    requires p > 0
    ensures x / p / 2 == x / (2 * p)
  {
    var q := x / p;
    var h := q / 2;
    DivBounds(x, p);
    MulMono(2 * h, q, p);
    MulMono(q + 1, 2 * h + 2, p);
    Regroup(h, p);
    DivUnique(x, 2 * p, h);
  }

  lemma {:induction false} Regroup(h: nat, p: nat)
    ensures h * (2 * p) == 2 * h * p && (h + 1) * (2 * p) == (2 * h + 2) * p
  {
  }

  /** What a block issues after `k` halvings: five billion synapses, halved and rounded down. */
  function EraReward(k: nat): nat {
    Quotient(5_000_000_000, Words.Pow2(k));
    5_000_000_000 / Words.Pow2(k)
  }

  lemma {:induction false} Quotient(a: nat, b: nat)
    requires b > 0
    ensures a / b >= 0
  {
  }

  lemma {:induction false} SpentByThen(k: nat)
    requires k >= 33
    ensures EraReward(k) == 0
  {
    if k == 33 {
      assert Words.Pow2(8) == 256;
      Words.Pow2Sum(8, 8);
      Words.Pow2Sum(16, 16);
      assert Words.Pow2(33) == 2 * Words.Pow2(32);
    } else {
      SpentByThen(k - 1);
      HalfOfQuotient(5_000_000_000, Words.Pow2(k - 1));
    }
  }

  /** Every height issues the reward of its era of 1051200 blocks. The cut-off at 33 halvings changes nothing. */
  lemma {:induction false} SubsidyExact(height: nat)
    ensures BlockSubsidy(height) == EraReward(height / 1_051_200)
  {
    var k := height / 1_051_200;
    ShiftIsQuotient(5_000_000_000, k);
    if k >= 33 {
      SpentByThen(k);
    }
  }

  /** What one block of each of the first `n` eras issues. */
  ghost function EraSum(n: nat): nat {
    if n == 0 then 0 else EraSum(n - 1) + EraReward(n - 1)
  }

  /** The coins issued up to a height: all of the eras passed, and the present one so far. Genesis,
      height 0, issues nothing. */
  lemma {:induction false} IssuedExactly(era: nat, offset: nat)
    requires offset < 1_051_200
    ensures SubsidySum(1_051_200 * era + offset)
      == 1_051_200 * EraSum(era) + (offset + 1) * EraReward(era) - 5_000_000_000
    decreases era, offset
  {
    hide BlockSubsidy, EraReward;
    var height := 1_051_200 * era + offset;
    var r := EraReward(era);
    IssuedNext(era, offset);
    if offset > 0 {
      hide SubsidySum, EraSum;
      IssuedExactly(era, offset - 1);
      OneMore(offset, r);
    } else if era > 0 {
      hide SubsidySum;
      IssuedExactly(era - 1, 1_051_199);
    } else {
      FirstEra();
    }
  }

  lemma {:induction false} OneMore(offset: nat, r: nat)
    ensures (offset + 1) * r == offset * r + r
  {
  }

  lemma {:induction false} IssuedNext(era: nat, offset: nat)
    requires offset < 1_051_200
    ensures var height := 1_051_200 * era + offset;
      height > 0 ==> SubsidySum(height) == SubsidySum(height - 1) + EraReward(era)
  {
    hide BlockSubsidy, EraReward;
    EraOf(era, offset);
    SubsidyExact(1_051_200 * era + offset);
  }

  lemma {:induction false} EraOf(era: nat, offset: nat)
    requires offset < 1_051_200
    ensures (1_051_200 * era + offset) / 1_051_200 == era
  {
  }

  lemma {:induction false} FirstEra()
    ensures EraReward(0) == 5_000_000_000
  {
  }

  /** The sum of `x` and its first `n - 1` halves. */
  ghost function Halves(x: nat, n: nat): nat {
    if n == 0 then 0 else x + Halves(x / 2, n - 1)
  }

  lemma {:induction false} ShiftHalf(x: nat, k: nat)
    ensures ShiftRight(x, k + 1) == ShiftRight(x / 2, k)
  {
    if k > 0 {
      ShiftHalf(x, k - 1);
    }
  }

  lemma {:induction false} HalvesStep(x: nat, n: nat)
    ensures Halves(x, n + 1) == Halves(x, n) + ShiftRight(x, n)
  {
    if n > 0 {
      HalvesStep(x / 2, n - 1);
      ShiftHalf(x, n - 1);
    } else {
      assert Halves(x / 2, 0) == 0;
    }
  }

  lemma {:induction false} ErasHalve(n: nat)
    ensures EraSum(n) == Halves(5_000_000_000, n)
  {
    if n > 0 {
      ErasHalve(n - 1);
      ShiftIsQuotient(5_000_000_000, n - 1);
      HalvesStep(5_000_000_000, n - 1);
    }
  }

  lemma {:induction false} FourHalves(x: nat, n: nat)
    ensures Halves(x, n + 4) == x + x / 2 + x / 4 + x / 8 + Halves(x / 16, n)
  {
    assert x / 2 / 2 == x / 4 && x / 4 / 2 == x / 8 && x / 8 / 2 == x / 16;
    assert Halves(x, n + 4) == x + Halves(x / 2, n + 3);
    assert Halves(x / 2, n + 3) == x / 2 + Halves(x / 4, n + 2);
    assert Halves(x / 4, n + 2) == x / 4 + Halves(x / 8, n + 1);
  }

  lemma {:induction false} OneHalf(x: nat)
    ensures Halves(x, 1) == x
  {
    assert Halves(x / 2, 0) == 0;
  }

  lemma {:induction false} ThirtyThreeHalves()
    ensures Halves(5_000_000_000, 33) == 9_999_999_989
  {
    hide *;
    FourHalves(5_000_000_000, 29);
    FourHalves(312_500_000, 25);
    FourHalves(19_531_250, 21);
    FourHalves(1_220_703, 17);
    FourHalves(76_293, 13);
    FourHalves(4_768, 9);
    FourHalves(298, 5);
    FourHalves(18, 1);
    OneHalf(1);
  }

  lemma {:induction false} AllEras(n: nat)
    requires n >= 33
    ensures EraSum(n) == 9_999_999_989
  {
    hide Halves, EraReward;
    if n == 33 {
      ErasHalve(33);
      ThirtyThreeHalves();
    } else {
      AllEras(n - 1);
      SpentByThen(n - 1);
    }
  }

  lemma {:induction false} IssuedInFull(era: nat, offset: nat)
    requires era >= 33 && offset < 1_051_200
    ensures SubsidySum(1_051_200 * era + offset) == 10_511_994_988_436_800
  {
    hide EraReward, EraSum, SubsidySum;
    IssuedExactly(era, offset);
    AllEras(era);
    SpentByThen(era);
  }

  /** The coins that will ever exist: no height exceeds that sum, and from the 33rd halving on it has
      been issued in full. */
  lemma {:induction false} FinalSupply(height: nat)
    ensures SubsidySum(height) <= 10_511_994_988_436_800
    ensures height >= 33 * 1_051_200 ==> SubsidySum(height) == 10_511_994_988_436_800
    decreases height < 33 * 1_051_200
  {
    var last: nat := 33 * 1_051_200;
    if height >= last {
      var era, offset := height / 1_051_200, height % 1_051_200;
      IssuedInFull(era, offset);
    } else {
      FinalSupply(last);
      IssuedGrows(height, last);
    }
  }

  lemma {:induction false} IssuedGrows(a: nat, b: nat)
    requires a <= b
    ensures SubsidySum(a) <= SubsidySum(b)
  {
    if a < b {
      IssuedGrows(a, b - 1);
    }
  }

  /** All coins of a valid chain: they are what its height has issued, and never exceed the final
      supply. */
  lemma {:induction false} CoinsExactly(cr: Crypto, blocks: seq<Block>, era: nat, offset: nat)
    requires ChainOk(cr, blocks) && offset < 1_051_200 && |blocks| == 1_051_200 * era + offset + 1
    ensures Total(StateOf(blocks)) == 1_051_200 * EraSum(era) + (offset + 1) * EraReward(era) - 5_000_000_000
    ensures Total(StateOf(blocks)) <= 10_511_994_988_436_800
  {
    hide Total, StateOf, ChainOk, SubsidySum, EraSum, EraReward;
    ChainConserves(cr, blocks);
    IssuedExactly(era, offset);
    FinalSupply(|blocks| - 1);
  }
}
