/** How much stake an offence costs. The same penalty is computed twice in the node: as an amount
    from the offence, and as a rate in basis points applied by the consensus engine. */
module Slashing {
  import opened Types
  import opened WideArithmetic

  datatype SlashType = DoubleSign | SurroundVote | Downtime(missingSlots: u64)

  const BPS_DENOMINATOR: u128 := 10000

  function SlashRateBps(offence: SlashType): u128 {
    match offence
    case DoubleSign => 500
    case SurroundVote => 500
    case Downtime(_) => 0
  }

  /** The documented penalty: five percent for equivocation, one unit per missed slot capped at ten
      percent for downtime. */
  function Penalty(stake: u128, offence: SlashType): u128 {
    match offence
    case DoubleSign => stake * 5 / 100
    case SurroundVote => stake * 5 / 100
    case Downtime(missing) => Min(missing, stake / 10)
  }

  method CalculateSlashAmount(stake: u128, offence: SlashType) returns (amount: u128)
    ensures amount == Penalty(stake, offence)
    ensures amount <= stake
  {
    match offence
    case Downtime(missing) =>
      MulDivExactForRates(stake, 1, 10);
      var cap := MulDiv(stake, 1, 10);
      amount := Min(missing, cap);
    case _ =>
      MulDivExactForRates(stake, 5, 100);
      amount := MulDiv(stake, 5, 100);
  }

  /** What the consensus engine takes from a validator at a given rate. */
  method AmountAtRate(stake: u128, bps: u128) returns (amount: u128)
    ensures amount == SaturatedQuotient(stake * bps, BPS_DENOMINATOR)
    ensures bps <= BPS_DENOMINATOR ==> amount <= stake
  {
    MulDivExactForSmallDivisors(stake, bps, BPS_DENOMINATOR);
    amount := MulDiv(stake, bps, BPS_DENOMINATOR);
    if bps <= BPS_DENOMINATOR {
      RateTakesAtMostAll(stake, bps);
    }
  }

  lemma RateTakesAtMostAll(stake: nat, bps: nat)
    requires bps <= BPS_DENOMINATOR
    ensures stake * bps / BPS_DENOMINATOR <= stake
  {
    MulMonotone(bps, BPS_DENOMINATOR, stake);
  }

  /** The two paths take the same amount from every stake for every equivocation offence. For downtime, which
      has no rate, they agree only where there is nothing to take. */
  lemma RateAgreesWithPenalty(stake: u128, offence: SlashType)
    ensures SaturatedQuotient(stake * SlashRateBps(offence), BPS_DENOMINATOR) == Penalty(stake, offence)
            <==> !offence.Downtime? || offence.missingSlots == 0 || stake < 10
  {
    if offence.Downtime? {
      assert stake * 0 == 0;
    } else {
      FivePercent(stake);
    }
  }

  lemma FivePercent(stake: u128)
    ensures SaturatedQuotient(stake * 500, BPS_DENOMINATOR) == stake * 5 / 100
  {
    var n := stake * 5;
    assert stake * 500 == n * 100;
    assert n == (n / 100) * 100 + n % 100;
    DivUnique(stake * 500, 10000, n / 100, (n % 100) * 100);
    RateTakesAtMostAll(stake, 500);
  }
}
