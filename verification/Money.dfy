/** The money supply: what every block adds, and the total the election compares against. */
module Money {
  import opened Difficulty

  const BLOCKS_PER_PERIOD := 144000
  const UNITS_PER_COIN := 0x40000000
  const FIRST_SUBSIDY := 4166 * UNITS_PER_COIN
  const MAX_UNITS := UNITS_PER_COIN * 6000000000

  lemma {:induction false} PowPositive(base: nat, e: nat)
    requires base > 0
    ensures Pow(base, e) > 0
  {
    if e > 0 { PowPositive(base, e - 1); }
  }

  /** New money per block in a period: 4166 coins, nine tenths of it in the next period, and
      so on, rounded down from the exact value. */
  function BlockSubsidy(period: nat): nat {
    PowPositive(9, period);
    PowPositive(10, period);
    Pow(9, period) * FIRST_SUBSIDY / Pow(10, period)
  }

  /** The subsidy is the whole part of 4166 coins times 0.9 to the power of the period. */
  lemma SubsidyIs(period: nat)
    ensures var s, exact := BlockSubsidy(period), Pow(9, period) * (4166 * 0x40000000);
            s * Pow(10, period) <= exact < (s + 1) * Pow(10, period)
  {
    PowPositive(9, period);
    PowPositive(10, period);
    WholePart(Pow(9, period) * FIRST_SUBSIDY, Pow(10, period));
  }

  lemma WholePart(a: nat, b: nat)
    requires b > 0
    ensures (a / b) * b <= a < (a / b + 1) * b
  {
  }

  /** The new money of all blocks below a height. */
  function Minted(height: nat): nat {
    if height == 0 then 0 else Minted(height - 1) + BlockSubsidy((height - 1) / BLOCKS_PER_PERIOD)
  }

  /** One block of each of the first periods. */
  function PeriodSum(periods: nat): nat {
    if periods == 0 then 0 else PeriodSum(periods - 1) + BlockSubsidy(periods - 1)
  }

  function Times(a: nat, b: nat): nat { a * b }

  lemma TimesNext(a: nat, b: nat)
    ensures Times(a, b + 1) == Times(a, b) + a && Times(a, 0) == 0
    ensures Times(a, BLOCKS_PER_PERIOD) == a * BLOCKS_PER_PERIOD
  {
  }

  lemma PeriodOf(p: nat, d: nat)
    requires d < BLOCKS_PER_PERIOD
    ensures (p * BLOCKS_PER_PERIOD + d) / BLOCKS_PER_PERIOD == p
  {
  }

  /** d blocks into period p; counting whole periods at once gives the same total as counting
      every block. */
  lemma {:induction false} MintedByPeriods(p: nat, d: nat)
    requires d <= 144000
    ensures Minted(p * 144000 + d) == PeriodSum(p) * 144000 + Times(BlockSubsidy(p), d)
    decreases p, d
  {
    hide BlockSubsidy, Times;
    if d > 0 {
      MintedByPeriods(p, d - 1);
      PeriodOf(p, d - 1);
      TimesNext(BlockSubsidy(p), d - 1);
    } else {
      TimesNext(BlockSubsidy(p), 0);
      if p > 0 {
        MintedByPeriods(p - 1, 144000);
        TimesNext(BlockSubsidy(p - 1), 0);
      }
    }
  }

  /** The first 144000 blocks mint 4166 coins each, the next 144000 nine tenths of that. */
  lemma FirstPeriods(d: nat)
    requires d <= 144000
    ensures Minted(d) == 4166 * 0x40000000 * d
    ensures Minted(144000 + d) == Minted(144000) + 41660 * 0x40000000 * 9 / 100 * d
  {
    hide Minted;
    MintedByPeriods(0, d);
    MintedByPeriods(1, d);
    MintedByPeriods(1, 0);
    assert BlockSubsidy(0) == 4166 * 0x40000000;
    assert Pow(9, 1) == 9 && Pow(10, 1) == 10;
    assert BlockSubsidy(1) == 41660 * 0x40000000 * 9 / 100;
  }

  /** The loop over periods. */
  method PktCalcTotalMoney(height: nat) returns (total: nat)
    ensures total == Minted(height)
  {
    var p := height / BLOCKS_PER_PERIOD;
    total := 0;
    for i := 0 to p
      invariant total == PeriodSum(i) * BLOCKS_PER_PERIOD
    {
      total := total + BlockSubsidy(i) * BLOCKS_PER_PERIOD;
    }
    var upto := p * BLOCKS_PER_PERIOD;
    MintedByPeriods(p, height - upto);
    assert Times(BlockSubsidy(p), height - upto) == BlockSubsidy(p) * (height - upto);
    total := total + BlockSubsidy(p) * (height - upto);
  }

  // ----- the supply is capped

  lemma DivTimes(a: nat, b: nat)
    requires b > 0
    ensures (a / b) * b <= a
  {
  }

  lemma Step(s: nat, sub: nat, t: nat, n: nat, x: nat)
    requires s * t <= 10 * x * (t - n) && sub * t <= n * x
    ensures (s + sub) * (10 * t) <= 10 * x * (10 * t - 9 * n)
  {
    assert (s + sub) * (10 * t) == 10 * (s * t) + 10 * (sub * t);
    assert 10 * x * (10 * t - 9 * n) == 10 * (10 * x * (t - n)) + 10 * (n * x);
  }

  /** The geometric bound: p periods stay below ten times the first. */
  lemma {:induction false} PeriodsBounded(p: nat)
    ensures PeriodSum(p) * Pow(10, p) <= 10 * FIRST_SUBSIDY * (Pow(10, p) - Pow(9, p))
  {
    if p > 0 {
      PeriodsBounded(p - 1);
      PowPositive(10, p - 1);
      PowPositive(9, p - 1);
      var t, n := Pow(10, p - 1), Pow(9, p - 1);
      DivTimes(n * FIRST_SUBSIDY, t);
      Step(PeriodSum(p - 1), BlockSubsidy(p - 1), t, n, FIRST_SUBSIDY);
    }
  }

  lemma Cancel(s: nat, t: nat, n: nat, x: nat)
    requires t > 0 && n > 0 && x > 0 && s * t <= x * (t - n)
    ensures s < x
  {
    assert x * (t - n) < x * t;
    if s >= x { TimesMonotone(x, s, t); }
  }

  lemma TimesMonotone(a: nat, b: nat, t: nat)
    requires a <= b
    ensures a * t <= b * t
  {
  }

  lemma PeriodSumBelow(p: nat)
    ensures PeriodSum(p) < 10 * FIRST_SUBSIDY
  {
    PeriodsBounded(p);
    PowPositive(10, p);
    PowPositive(9, p);
    Cancel(PeriodSum(p), Pow(10, p), Pow(9, p), 10 * FIRST_SUBSIDY);
  }

  lemma {:induction false} MintedMonotone(a: nat, b: nat)
    requires a <= b
    ensures Minted(a) <= Minted(b)
  {
    if a < b { MintedMonotone(a, b - 1); }
  }

  /** At no height has more been minted than the six thousand million coins of the network's
      parameters, and the total fits a signed 64-bit integer. */
  lemma SupplyIsCapped(height: nat)
    ensures Minted(height) < MAX_UNITS < 0x8000_0000_0000_0000
  {
    hide BlockSubsidy;
    var p := height / BLOCKS_PER_PERIOD + 1;
    MintedMonotone(height, p * BLOCKS_PER_PERIOD);
    MintedByPeriods(p, 0);
    assert Times(BlockSubsidy(p), 0) == 0;
    PeriodSumBelow(p);
  }
}
