/** The two-thirds stake rule and why two quorums always meet. */
module Quorum {
  import opened Types
  import opened Totals

  predicate HasQuorum(voted: u128, total: u128) {
    if total == 0 then false
    else if voted * 3 < TWO128 && total * 2 < TWO128 then voted * 3 >= total * 2
    else voted >= total / 3 * 2 + (if total % 3 > 0 then 1 else 0)
  }

  /** The rule in whole numbers. The division fallback for huge totals is too lenient by exactly one
      third of a unit, when the total leaves remainder two. */
  lemma HasQuorumIff(voted: u128, total: u128)
    requires total > 0
    ensures HasQuorum(voted, total) <==>
              3 * voted >= 2 * total || (total >= TWO127 && total % 3 == 2 && 3 * voted == 2 * total - 1)
  {
    assert total == 3 * (total / 3) + total % 3;
  }

  /** The lenient case happens: at a total of 2^127 the rule accepts a third of a unit too little. */
  lemma LenientQuorum()
    ensures var voted: u128 := 0x5555_5555_5555_5555_5555_5555_5555_5555;
            HasQuorum(voted, TWO127) && 3 * voted == 2 * TWO127 - 1
  {
  }

  /** Any two sets of voters that both pass the rule share a voter with positive stake, as long as
      the stakes add up to no more than the total the rule is given. */
  lemma QuorumsMeet<V>(stakes: map<V, nat>, total: u128, a: set<V>, b: set<V>)
    requires Total(stakes) <= total
    requires Weight(stakes, a) <= total && HasQuorum(Weight(stakes, a), total)
    requires Weight(stakes, b) <= total && HasQuorum(Weight(stakes, b), total)
    ensures Weight(stakes, a * b) > 0
    ensures exists v :: v in a && v in b && v in stakes && stakes[v] > 0
  {
    HasQuorumIff(Weight(stakes, a), total);
    HasQuorumIff(Weight(stakes, b), total);
    assert a == (a - b) + a * b;
    WeightUnion(stakes, a - b, a * b);
    WeightUnion(stakes, a - b, b);
    WeightAtMost(stakes, (a - b) + b);
    TotalPositive(Restrict(stakes, a * b));
  }
}
