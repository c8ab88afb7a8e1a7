/** The fee market: how a block's fees are split and how the base fee follows the block's gas. */
module FeeMarketEngine {
  import opened Types
  import opened LedgerStore

  // ---------------------------------------------------------------- the split

  const PROPOSER_PERCENT: nat := 60

  /** What is left of the fees after the base fee is burned. */
  function PriorityFee(baseFee: u128, gas: u64, collected: u128): u128 {
    SaturatingSub(collected, SaturatingMul(baseFee, gas))
  }

  function Split(baseFee: u128, gas: u64, collected: u128): Fees {
    var tip := PriorityFee(baseFee, gas, collected);
    var reward := SaturatingMul(tip, PROPOSER_PERCENT) / 100;
    Fees(reward, SaturatingMul(baseFee, gas), SaturatingSub(tip, reward))
  }

  /** Nothing of the fees is lost, and more than the fees is handed out exactly when they do not cover the
      burn. The proposer never gets more than its percentage, and gets less only when the multiplication
      saturates far enough to matter. */
  lemma {:induction false} SplitIsExhaustive(baseFee: u128, gas: u64, collected: u128)
    ensures var f, tip := Split(baseFee, gas, collected), PriorityFee(baseFee, gas, collected);
            && f.reward + f.treasury == tip
            && f.reward + f.treasury + f.burned == Max(collected, f.burned)
            && (f.reward + f.treasury + f.burned == collected <==> SaturatingMul(baseFee, gas) <= collected)
            && f.reward <= tip * PROPOSER_PERCENT / 100
            && (f.reward == tip * PROPOSER_PERCENT / 100 <==> tip * PROPOSER_PERCENT < (U128_MAX / 100 + 1) * 100)
  {
  }

  // ---------------------------------------------------------------- the base fee

  /** The eighth of the fee scaled by how far the block is from its target. */
  function Step(baseFee: u128, delta: u64, target: u64): u128
    requires 0 < target
  {
    SaturatingMul(baseFee, delta) / (target * 8)
  }

  /** Up by the step, at least one, when over target; down by the step, at most to the floor, when under. */
  function Moved(baseFee: u128, target: u64, minimum: u128, gas: u64, step: u128): u128 {
    if gas == target then baseFee
    else if gas > target then SaturatingAdd(baseFee, if step >= 1 then step else 1)
    else if SaturatingSub(baseFee, step) >= minimum then SaturatingSub(baseFee, step) else minimum
  }

  function Distance(target: u64, gas: u64): u64 {
    if gas > target then gas - target else target - gas
  }

  function NextBaseFee(baseFee: u128, target: u64, minimum: u128, gas: u64): u128
    requires 0 < target
  {
    Moved(baseFee, target, minimum, gas, Step(baseFee, Distance(target, gas), target))
  }

  /** Over target the fee rises unless it is at its maximum, at target it stays, and under target it falls by
      at most an eighth, never through the floor. */
  lemma {:induction false} BaseFeeMoves(baseFee: u128, target: u64, minimum: u128, gas: u64)
    requires 0 < target
    ensures var next := NextBaseFee(baseFee, target, minimum, gas);
            && (gas > target ==> next > baseFee || baseFee == U128_MAX)
            && (gas == target ==> next == baseFee)
            && (gas < target ==> next >= minimum && next >= baseFee - baseFee / 8 && next <= Max(baseFee, minimum))
            && (minimum <= baseFee ==> minimum <= next)
  {
    if gas < target {
      StepWithinEighth(baseFee, target - gas, target);
    }
  }

  /** A step of at most the target is at most an eighth of the fee. */
  lemma {:induction false} StepWithinEighth(baseFee: u128, delta: u64, target: u64)
    requires 0 < target && delta <= target
    ensures Step(baseFee, delta, target) <= baseFee / 8
  {
    QuotientWithin(SaturatingMul(baseFee, delta), baseFee, delta, target);
  }

  lemma {:induction false} QuotientWithin(p: nat, fee: nat, delta: nat, target: nat)
    requires 0 < target && delta <= target && p <= fee * delta
    ensures p / (target * 8) <= fee / 8
  {
    Scale(delta, target, fee);
    BelowNextMultiple(fee, fee / 8, target);
    QuotientAtMost(p, target * 8, fee / 8);
  }

  lemma {:induction false} BelowNextMultiple(fee: nat, e: nat, target: nat)
    requires 0 < target && fee < 8 * (e + 1)
    ensures fee * target < (e + 1) * (target * 8)
  {
    ProductBelow(fee, 8 * (e + 1), target);
    Regroup(e + 1, target);
  }

  lemma {:induction false} Regroup(q: nat, t: nat)
    ensures 8 * q * t == q * (t * 8)
  {
  }

  lemma {:induction false} QuotientAtMost(a: nat, b: nat, q: nat)
    requires b > 0 && a < (q + 1) * b
    ensures a / b <= q
  {
    if a / b >= q + 1 {
      Scale(q + 1, a / b, b);
    }
  }

  lemma {:induction false} Scale(a: nat, b: nat, c: nat)
    requires a <= b
    ensures c * a <= c * b
  {
  }

  /** The fee rises by at most an eighth, or one, whatever it is: this holds at a gas usage if and only if the
      usage is at most twice the target. A maximum of `2 * target + 1`, as an odd configured maximum gives,
      is already too much. */
  lemma {:induction false} RiseWithinEighthIff(target: u64, minimum: u128, gas: u64)
    requires target < gas
    requires 0 < target
    ensures (forall fee: u128 :: RisesWithinEighth(fee, target, minimum, gas)) <==> gas <= 2 * target
  {
    if gas <= 2 * target {
      forall fee: u128 ensures RisesWithinEighth(fee, target, minimum, gas) {
        StepWithinEighth(fee, gas - target, target);
      }
    } else {
      var k := target / 8 + 1;
      LargeStep(k, target, gas - target);
      assert !RisesWithinEighth(8 * k + 7, target, minimum, gas);
    }
  }

  /** At the default configuration, target one million and opening fee ten thousand, a full block of ten million
      gas more than doubles the fee. */
  lemma {:induction false} DefaultFeeDoubles()
    ensures NextBaseFee(10_000, 1_000_000, 1_000, 10_000_000) == 21_250
    ensures !RisesWithinEighth(10_000, 1_000_000, 1_000, 10_000_000)
  {
  }

  /** An odd maximum already fails at its own limit: maximum three, target one. */
  lemma {:induction false} OddMaximumRisesFaster()
    ensures NextBaseFee(10_000, 1, 1_000, 3) == 12_500 && !RisesWithinEighth(10_000, 1, 1_000, 3)
  {
  }

  ghost predicate RisesWithinEighth(fee: u128, target: u64, minimum: u128, gas: u64)
    requires 0 < target
  {
    NextBaseFee(fee, target, minimum, gas) <= fee + Max(1, fee / 8)
  }

  /** At the fee `8k + 7` with `8k + 7` at least the target, a larger delta steps by more than `k`. */
  lemma {:induction false} LargeStep(k: nat, target: u64, delta: u64)
    requires 0 < target < delta && k == target / 8 + 1 && target + delta < TWO64
    ensures 8 * k + 7 < TWO128
    ensures Step(8 * k + 7, delta, target) >= k + 1
  {
    var fee := 8 * k + 7;
    assert (k + 1) * (target * 8) == fee * target + target;
    Scale(target + 1, delta, fee);
    assert fee * (target + 1) == fee * target + fee;
    assert fee * delta >= (k + 1) * (target * 8);
    assert fee <= target + 15;
    Scale(fee, TWO64, delta);
    ProductBelow(delta, TWO64, TWO64);
    assert fee * delta == delta * fee;
    QuotientAtLeast(fee * delta, target * 8, k + 1);
  }

  lemma {:induction false} ProductBelow(a: nat, b: nat, c: nat)
    requires a < b && c > 0
    ensures a * c < b * c
  {
  }

  lemma {:induction false} QuotientAtLeast(a: nat, b: nat, q: nat)
    requires b > 0 && a >= q * b
    ensures a / b >= q
  {
    if a / b < q {
      Scale(a / b + 1, q, b);
    }
  }

  // ---------------------------------------------------------------- the fee market's state

  class FeeMarket {
    var baseFee: u128
    var targetGas: u64
    var maxGas: u64
    var minBaseFee: u128
    var totalBurned: u128
    var totalPriorityFees: u128
    var totalTreasuryFees: u128

    ghost predicate Valid()
      reads this
    {
      0 < targetGas
    }

    constructor (initialBaseFee: u128, gasLimit: u64, minimum: u128)
      ensures Valid() && baseFee == initialBaseFee && minBaseFee == minimum
      ensures 2 * targetGas <= maxGas <= 2 * targetGas + 1
      ensures maxGas == Max(gasLimit, 2) && totalBurned == totalPriorityFees == totalTreasuryFees == 0
    {
      baseFee, minBaseFee := initialBaseFee, minimum;
      targetGas := if gasLimit / 2 >= 1 then gasLimit / 2 else 1;
      maxGas := if gasLimit >= 2 then gasLimit else 2;
      totalBurned, totalPriorityFees, totalTreasuryFees := 0, 0, 0;
    }

    /** Split a block's fees and move the base fee. The floor, once reached, is kept. */
    method ProcessBlock(gas: u64, collected: u128) returns (fees: Fees, next: u128)
      requires Valid()
      modifies this`baseFee, this`totalBurned, this`totalPriorityFees, this`totalTreasuryFees
      ensures fees == Split(old(baseFee), gas, collected)
      ensures fees.reward + fees.treasury + fees.burned == Max(collected, fees.burned)
      ensures baseFee == next == NextBaseFee(old(baseFee), targetGas, minBaseFee, gas)
      ensures old(minBaseFee <= baseFee) ==> minBaseFee <= baseFee
      ensures totalBurned == SaturatingAdd(old(totalBurned), fees.burned)
      ensures totalPriorityFees == SaturatingAdd(old(totalPriorityFees), fees.reward)
      ensures totalTreasuryFees == SaturatingAdd(old(totalTreasuryFees), fees.treasury)
    {
      var burned := SaturatingMul(baseFee, gas);
      var priority := SaturatingSub(collected, burned);
      var reward := SaturatingMul(priority, PROPOSER_PERCENT) / 100;
      fees := Fees(reward, burned, SaturatingSub(priority, reward));
      SplitIsExhaustive(baseFee, gas, collected);
      BaseFeeMoves(baseFee, targetGas, minBaseFee, gas);
      totalBurned := SaturatingAdd(totalBurned, fees.burned);
      totalPriorityFees := SaturatingAdd(totalPriorityFees, fees.reward);
      totalTreasuryFees := SaturatingAdd(totalTreasuryFees, fees.treasury);
      next := CalculateNextBaseFee(gas);
      baseFee := next;
    }

    method CalculateNextBaseFee(gas: u64) returns (next: u128)
      requires Valid()
      ensures next == NextBaseFee(baseFee, targetGas, minBaseFee, gas)
    {
      if gas == targetGas {
        return baseFee;
      }
      var step := Step(baseFee, Distance(targetGas, gas), targetGas);
      if gas > targetGas {
        next := SaturatingAdd(baseFee, if step >= 1 then step else 1);
      } else {
        var lower := SaturatingSub(baseFee, step);
        next := if lower >= minBaseFee then lower else minBaseFee;
      }
    }
  }
}
