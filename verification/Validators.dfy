/** What both consensus engines share: the phases of a round and the weights of a validator set. */
module Validators {
  import opened Types
  import opened Totals

  datatype Phase = Propose | Prevote | Precommit | Commit

  datatype ValidatorInfo = ValidatorInfo(pubkey: PublicKey, stake: u128)

  ghost function Stakes(m: map<Address, ValidatorInfo>): map<Address, nat> {
    map a | a in m :: m[a].stake
  }

  /** A fold with saturating addition. */
  ghost function SaturatedTotal<K>(m: map<K, nat>): u128 {
    Min(Total(m), U128_MAX)
  }

  ghost function SumOfStakes(list: seq<ValidatorInfo>): nat {
    if list == [] then 0 else SumOfStakes(list[..|list| - 1]) + list[|list| - 1].stake
  }

  /** Later entries of the list replace earlier ones with the same address. */
  ghost function ByAddress(addressOf: PublicKey -> Address, list: seq<ValidatorInfo>): map<Address, ValidatorInfo> {
    if list == [] then map[]
    else
      var last := list[|list| - 1];
      ByAddress(addressOf, list[..|list| - 1])[addressOf(last.pubkey) := last]
  }

  /** The total the engines start from bounds the stakes they index. */
  lemma {:induction false} MembersBounded(addressOf: PublicKey -> Address, list: seq<ValidatorInfo>)
    ensures Total(Stakes(ByAddress(addressOf, list))) <= SumOfStakes(list)
    decreases |list|
  {
    if list == [] {
      assert Stakes(ByAddress(addressOf, list)) == map[];
    } else {
      var n := |list| - 1;
      var before, a := ByAddress(addressOf, list[..n]), addressOf(list[n].pubkey);
      MembersBounded(addressOf, list[..n]);
      assert Stakes(before[a := list[n]]) == Stakes(before)[a := list[n].stake];
      TotalInsert(Stakes(before), a, list[n].stake);
    }
  }

  /** Index a validator list and add up its stakes. */
  method IndexValidators(addressOf: PublicKey -> Address, list: seq<ValidatorInfo>)
    returns (members: map<Address, ValidatorInfo>, total: u128)
    ensures members == ByAddress(addressOf, list)
    ensures total == Min(SumOfStakes(list), U128_MAX)
  {
    total, members := 0, map[];
    for i := 0 to |list|
      invariant total == Min(SumOfStakes(list[..i]), U128_MAX)
      invariant members == ByAddress(addressOf, list[..i])
    {
      assert list[..i + 1][..i] == list[..i];
      total := SaturatingAdd(total, list[i].stake);
      members := members[addressOf(list[i].pubkey) := list[i]];
    }
    assert list[..|list|] == list;
  }
}
