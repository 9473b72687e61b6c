/** The fee multiplier update, in parts per billion as Fixed64 holds it. */
module FeeMultiplier {
  import opened Base
  import opened LoanMath

  const BILLION: int := 1_000_000_000
  const I64_MAX: int := 0x7fff_ffff_ffff_ffff
  const I64_MIN: int := -0x8000_0000_0000_0000

  /** MaximumBlockWeight and a quarter of it, the runtime's target. */
  const MAX_WEIGHT: U32 := 1_000_000_000
  const TARGET_WEIGHT: U32 := 250_000_000

  type I64 = x: int | I64_MIN <= x <= I64_MAX

  function Saturate(x: int): (r: I64)
    ensures I64_MIN <= x <= I64_MAX ==> r == x
  {
    if x > I64_MAX then I64_MAX else if x < I64_MIN then I64_MIN else x
  }

  /** Division that rounds toward zero. */
  function Quotient(a: int, b: nat): int
    requires b > 0
  {
    if a >= 0 then a / b else -((-a) / b)
  }

  /** from_rational: what does not fit becomes the largest value. */
  function FromRational(n: int, d: nat): I64
    requires d > 0
  {
    var q := Quotient(n * BILLION, d);
    if I64_MIN <= q <= I64_MAX then q else I64_MAX
  }

  function SaturatingMul(a: I64, b: I64): I64 {
    var p := Saturate(a * b);
    QuotientShrinks(p);
    Quotient(p, BILLION)
  }

  lemma QuotientShrinks(p: I64)
    ensures I64_MIN <= Quotient(p, BILLION) <= I64_MAX
  {
  }

  function FirstTerm(diff: I64): I64 {
    SaturatingMul(FromRational(4, 100_000), diff)
  }

  function SecondTerm(diff: I64): I64 {
    SaturatingMul(FromRational(1, 1_000_000_000), SaturatingMul(diff, diff))
  }

  /** How far the block is from the target, as a fraction of the largest block. */
  function Distance(weight: U32, target: U32, max: U32): I64
    requires max > 0
  {
    FromRational(if weight >= target then weight - target else target - weight, max)
  }

  /** convert, with the block's weight as an input. Above the target everything saturates; below
      it the two terms are subtracted unchecked. */
  function Convert(m: I64, weight: U32, target: U32, max: U32): I64
    requires 0 < max && target <= max
  {
    var diff := Distance(weight, target, max);
    if weight >= target then Saturate(m + Saturate(FirstTerm(diff) + SecondTerm(diff)))
    else
      DistanceAtMostOne(weight, target, max);
      FirstCoversSecond(diff);
      var down: I64 := FirstTerm(diff) - SecondTerm(diff);
      var lowered := Saturate(m - down);
      if lowered >= FromRational(-1, 1) then lowered else FromRational(-1, 1)
  }

  lemma DistanceAtMostOne(weight: U32, target: U32, max: U32)
    requires 0 < max && weight <= max && target <= max
    ensures 0 <= Distance(weight, target, max) <= BILLION
  {
    FractionAtMostOne(if weight >= target then weight - target else target - weight, max);
  }

  lemma FractionAtMostOne(n: nat, max: nat)
    requires 0 < max && n <= max
    ensures 0 <= n * BILLION / max <= BILLION
  {
    MulMonotone(BILLION, n, max);
    FloorMonotone(BILLION * n, BILLION * max, max);
    Swap(n, BILLION);
    Swap(max, BILLION);
    ExactQuotient(max, BILLION);
  }

  /** Any block at or above its target, however heavy, leaves the multiplier at least where it was. */
  lemma OverTargetNeverLowers(m: I64, weight: U32, target: U32, max: U32)
    requires 0 < max && target <= max && weight >= target
    ensures Convert(m, weight, target, max) >= m
  {
    var diff := Distance(weight, target, max);
    FloorAtLeast((weight - target) * BILLION, max, 0);
    assert diff >= 0;
    NonNegativeProduct(40_000, diff);
    NonNegativeProduct(diff, diff);
    NonNegativeProduct(1, SaturatingMul(diff, diff));
  }

  lemma NonNegativeProduct(a: I64, b: I64)
    requires a >= 0 && b >= 0
    ensures SaturatingMul(a, b) >= 0
  {
    assert a * b >= 0;
  }

  /** Why the unchecked subtraction is safe: the second term is 0 except at a distance of exactly
      one, where it is 1 against 40,000. */
  lemma FirstCoversSecond(diff: I64)
    requires 0 <= diff <= BILLION
    ensures FirstTerm(diff) == 40_000 * diff / BILLION
    ensures SecondTerm(diff) == if diff == BILLION then 1 else 0
    ensures 0 <= SecondTerm(diff) <= FirstTerm(diff) <= 40_000
  {
    var square := diff * diff;
    MulMonotone(diff, diff, BILLION);
    assert square <= BILLION * BILLION;
    FloorAtLeast(square, BILLION, BILLION);
    FloorAtLeast(square, BILLION, BILLION + 1);
    assert FromRational(4, 100_000) == 40_000 && FromRational(1, 1_000_000_000) == 1;
    assert SaturatingMul(diff, diff) == square / BILLION;
    if diff < BILLION {
      MulMonotone(diff, diff, BILLION - 1);
      MulMonotone(BILLION - 1, diff, BILLION - 1);
      assert square < BILLION * BILLION;
    }
  }

  /** With the runtime's weights the second term is never seen and the step is 40,000 parts
      times the distance. */
  lemma RuntimeStep(m: I64, weight: U32)
    requires weight <= MAX_WEIGHT
    ensures var distance := if weight >= TARGET_WEIGHT then weight - TARGET_WEIGHT else TARGET_WEIGHT - weight;
            var step := 40_000 * distance / BILLION;
            Convert(m, weight, TARGET_WEIGHT, MAX_WEIGHT) ==
            if weight >= TARGET_WEIGHT then Saturate(m + step)
            else if m - step >= -BILLION then m - step else -BILLION
  {
    var n := if weight >= TARGET_WEIGHT then weight - TARGET_WEIGHT else TARGET_WEIGHT - weight;
    var diff := Distance(weight, TARGET_WEIGHT, MAX_WEIGHT);
    ExactQuotient(BILLION, n);
    assert n * BILLION == BILLION * n;
    assert diff == n;
    FirstCoversSecond(diff);
  }

  /** A block below the target lowers the multiplier or keeps it exactly when it started at -1
      or above; from there it never ends below -1, never moves by more than 10,000 down or
      30,000 up, and a block at or above the target never lowers it. */
  lemma StepIsBounded(m: I64, weight: U32)
    requires weight <= MAX_WEIGHT
    ensures var n := Convert(m, weight, TARGET_WEIGHT, MAX_WEIGHT);
            && (weight < TARGET_WEIGHT ==> n >= -BILLION && (n <= m <==> m >= -BILLION))
            && (weight >= TARGET_WEIGHT ==> n >= m)
            && (m >= -BILLION ==> n >= -BILLION && m - 10_000 <= n)
            && (m >= -BILLION || weight >= TARGET_WEIGHT ==> n <= m + 30_000)
  {
    RuntimeStep(m, weight);
  }

  /** From any multiplier, a heavier block gives no lower one exactly when this is not so: the two
      blocks lie on both sides of the target, and the step up from far below -1 ends below the -1
      that the lighter block jumps to. From -1 or above that never happens. */
  lemma HeavierIsDearerIff(m: I64, light: U32, heavy: U32)
    requires light <= heavy <= MAX_WEIGHT
    ensures Convert(m, light, TARGET_WEIGHT, MAX_WEIGHT) <= Convert(m, heavy, TARGET_WEIGHT, MAX_WEIGHT) <==>
            (light < TARGET_WEIGHT <= heavy ==> m + 40_000 * (heavy - TARGET_WEIGHT) / BILLION >= -BILLION)
    ensures m >= -BILLION ==>
            Convert(m, light, TARGET_WEIGHT, MAX_WEIGHT) <= Convert(m, heavy, TARGET_WEIGHT, MAX_WEIGHT)
  {
    RuntimeStep(m, light);
    RuntimeStep(m, heavy);
    if heavy < TARGET_WEIGHT {
      FloorMonotone(40_000 * (TARGET_WEIGHT - heavy), 40_000 * (TARGET_WEIGHT - light), BILLION);
    } else if light >= TARGET_WEIGHT {
      FloorMonotone(40_000 * (light - TARGET_WEIGHT), 40_000 * (heavy - TARGET_WEIGHT), BILLION);
    }
  }

  // ---------- many blocks ----------

  function AfterBlocks(m: I64, weights: seq<U32>): I64
    decreases |weights|
  {
    if weights == [] then m else AfterBlocks(Convert(m, weights[0], TARGET_WEIGHT, MAX_WEIGHT), weights[1..])
  }

  /** Over any run of blocks a multiplier that starts at -1 or above stays there and drifts by at
      most 10,000 down and 30,000 up a block. */
  lemma {:induction false} DriftIsBounded(m: I64, weights: seq<U32>)
    requires m >= -BILLION && forall w :: w in weights ==> w <= MAX_WEIGHT
    ensures AfterBlocks(m, weights) >= -BILLION
    ensures m - 10_000 * |weights| <= AfterBlocks(m, weights) <= m + 30_000 * |weights|
    decreases |weights|
  {
    if weights != [] {
      assert weights[0] in weights && forall w :: w in weights[1..] ==> w in weights;
      StepIsBounded(m, weights[0]);
      DriftIsBounded(Convert(m, weights[0], TARGET_WEIGHT, MAX_WEIGHT), weights[1..]);
    }
  }

  /** Empty blocks lower it by exactly 10,000 each until it rests at -1. */
  lemma {:induction false} EmptyChain(m: I64, weights: seq<U32>)
    requires m >= -BILLION && forall w :: w in weights ==> w == 0
    ensures AfterBlocks(m, weights) == if m - 10_000 * |weights| >= -BILLION then m - 10_000 * |weights| else -BILLION
    decreases |weights|
  {
    if weights != [] {
      assert weights[0] in weights && forall w :: w in weights[1..] ==> w in weights;
      RuntimeStep(m, 0);
      EmptyChain(Convert(m, 0, TARGET_WEIGHT, MAX_WEIGHT), weights[1..]);
    }
  }

  /** The steps the repository's tests expect of the update: from 0 at four weights, onwards at
      twice the target, downwards on empty blocks, and saturated at the top for heavy blocks. */
  lemma PinnedSteps()
    ensures Convert(0, TARGET_WEIGHT / 4, TARGET_WEIGHT, MAX_WEIGHT) == -7_500
    ensures Convert(0, TARGET_WEIGHT / 2, TARGET_WEIGHT, MAX_WEIGHT) == -5_000
    ensures Convert(0, TARGET_WEIGHT, TARGET_WEIGHT, MAX_WEIGHT) == 0
    ensures forall m: I64 :: m in {0, 10_000, 20_000, BILLION} ==>
              Convert(m, TARGET_WEIGHT * 2, TARGET_WEIGHT, MAX_WEIGHT) == m + 10_000
    ensures forall m: I64 :: m in {0, -10_000, -20_000} ==>
              Convert(m, 0, TARGET_WEIGHT, MAX_WEIGHT) == m - 10_000
    ensures Convert(-BILLION, 0, TARGET_WEIGHT, MAX_WEIGHT) == -BILLION
    ensures forall w: U32 :: w in {TARGET_WEIGHT + 100, TARGET_WEIGHT * 2, TARGET_WEIGHT * 4} ==>
              Convert(I64_MAX, w, TARGET_WEIGHT, MAX_WEIGHT) == I64_MAX
  {
    RuntimeStep(0, TARGET_WEIGHT / 4);
    RuntimeStep(0, TARGET_WEIGHT / 2);
    RuntimeStep(0, TARGET_WEIGHT);
    forall m: I64 | m in {0, 10_000, 20_000, BILLION}
      ensures Convert(m, TARGET_WEIGHT * 2, TARGET_WEIGHT, MAX_WEIGHT) == m + 10_000
    {
      RuntimeStep(m, TARGET_WEIGHT * 2);
    }
    forall m: I64 | m in {0, -10_000, -20_000}
      ensures Convert(m, 0, TARGET_WEIGHT, MAX_WEIGHT) == m - 10_000
    {
      RuntimeStep(m, 0);
    }
    RuntimeStep(-BILLION, 0);
    forall w: U32 | w in {TARGET_WEIGHT + 100, TARGET_WEIGHT * 2, TARGET_WEIGHT * 4}
      ensures Convert(I64_MAX, w, TARGET_WEIGHT, MAX_WEIGHT) == I64_MAX
    {
      OverTargetNeverLowers(I64_MAX, w, TARGET_WEIGHT, MAX_WEIGHT);
    }
  }
}
