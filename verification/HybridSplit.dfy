/** What slashing by more than the whole stake does: a run in which one slot gets two certificates. */
module HybridSplit {
  import opened Types
  import opened Totals
  import opened Quorum
  import opened Validators
  import opened HybridModel

  /** A vote that is a quorum alone. */
  ghost predicate Decisive(bls: Bls, s: State, v: Vote) {
    var a, key := bls.addressOf(v.validator), QcKey(v.slot, s.progress.phase, v.block);
    && Accepted(bls, s, v) && !Equivocates(bls, s, v)
    && key !in s.votes && |Candidates(s, v.slot)| < 2 * |s.roster.validators|
    && |s.roster.epochValidators| != 1
    && HasQuorum(v.stake, s.roster.epochTotalStake)
    && bls.aggregate(map[a := v], s.blsKeys).Some?
  }

  lemma {:induction false} DecisiveVote(bls: Bls, s: State, v: Vote)
    requires Decisive(bls, s, v)
    ensures var (t, o) := ProcessVote(bls, s, v);
            var a, key := bls.addressOf(v.validator), QcKey(v.slot, s.progress.phase, v.block);
            && o.Formed? && o.qc.slot == v.slot && o.qc.block == v.block
            && t.roster == s.roster && t.blsKeys == s.blsKeys && t.currentSlot == s.currentSlot
            && t.progress.phase == NextPhase(s.progress.phase)
            && t.votes == s.votes[key := map[a := v]]
            && t.voteRecord == s.voteRecord[VoterSlot(v.slot, a) := v.block]
  {
    var a := bls.addressOf(v.validator);
    var box := map[][a := v];
    assert VotedStakes(box) == map[][a := v.stake];
    TotalInsert(map[], a, v.stake);
    assert map[a := v] == box;
  }

  /** Three validators of a hundred each; the first is slashed by twice its stake, and the next slot starts an
      epoch. */
  ghost function SplitSteps(b: Address, kb: string, c: Address, kc: string, a: Address, x: Vote, y: Vote): seq<Step> {
    [Register(b, kb), Register(c, kc), Slash(a, 20000), Tick, Cast(x), Cast(y)]
  }

  ghost predicate Trio(bls: Bls, list: seq<ValidatorInfo>) {
    && |list| == 3 && (forall i :: 0 <= i < 3 ==> list[i].stake == 100)
    && forall i, j :: 0 <= i < j < 3 ==> bls.addressOf(list[i].pubkey) != bls.addressOf(list[j].pubkey)
  }

  /** A vote at slot one by a validator of the trio, signed under the key it registers. */
  ghost predicate Signed(bls: Bls, info: ValidatorInfo, key: string, v: Vote) {
    && v.slot == 1 && v.validator == info.pubkey && v.stake == 100 && |key| == 48 && |v.signature| == 96
    && bls.verify(key, VoteMessage(v.block, 1), v.signature) == Some(true)
  }

  /** The state after the slash and the new slot. */
  lemma {:induction false} AfterSlash(bls: Bls, list: seq<ValidatorInfo>, kb: string, kc: string)
    requires Trio(bls, list)
    ensures var a, b, c := bls.addressOf(list[0].pubkey), bls.addressOf(list[1].pubkey), bls.addressOf(list[2].pubkey);
            var steps := [Register(b, kb), Register(c, kc), Slash(a, 20000), Tick];
            var s := Run(bls, Initial(bls, list, 1), steps);
            && s.roster.epochValidators.Keys == s.roster.validators.Keys == {a, b, c}
            && s.roster.epochValidators[b].stake == 100 && s.roster.epochValidators[c].stake == 100
            && s.roster.epochTotalStake == 100
            && s.currentSlot == 1 && s.votes == map[] && s.voteRecord == map[] && s.progress.phase == Propose
            && s.blsKeys == map[b := kb, c := kc]
  {
    var a, b, c := bls.addressOf(list[0].pubkey), bls.addressOf(list[1].pubkey), bls.addressOf(list[2].pubkey);
    var steps := [Register(b, kb), Register(c, kc), Slash(a, 20000), Tick];
    var s0 := Initial(bls, list, 1);
    TrioIndexed(bls, list);
    RunFour(bls, s0, steps[0], steps[1], steps[2], steps[3]);
    var s2 := Apply(bls, Apply(bls, s0, steps[0]), steps[1]);
    assert s2.roster == s0.roster && s2.votes == map[] && s2.voteRecord == map[];
    assert SlashAmount(s2, a, 20000) == 200;
    var s3 := Deduct(s2, a, 200);
    assert s3.roster.totalStake == 100;
  }

  lemma {:induction false} TrioIndexed(bls: Bls, list: seq<ValidatorInfo>)
    requires Trio(bls, list)
    ensures SumOfStakes(list) == 300
    ensures ByAddress(bls.addressOf, list)
            == map[bls.addressOf(list[0].pubkey) := list[0], bls.addressOf(list[1].pubkey) := list[1],
                   bls.addressOf(list[2].pubkey) := list[2]]
  {
    assert list[..2][..1] == list[..1] && list[..1][..0] == [];
    assert SumOfStakes(list[..1]) == 100 && SumOfStakes(list[..2]) == 200;
    assert ByAddress(bls.addressOf, list[..1]) == map[bls.addressOf(list[0].pubkey) := list[0]];
  }

  lemma {:induction false} RunFour(bls: Bls, s: State, w: Step, x: Step, y: Step, z: Step)
    ensures Run(bls, s, [w, x, y, z]) == Apply(bls, Apply(bls, Apply(bls, Apply(bls, s, w), x), y), z)
  {
    assert Run(bls, s, [w]) == Apply(bls, s, w) by {
      RunSnoc(bls, s, [], w);
      assert [] + [w] == [w];
    }
    assert Run(bls, s, [w, x]) == Apply(bls, Run(bls, s, [w]), x) by {
      RunSnoc(bls, s, [w], x);
      assert [w] + [x] == [w, x];
    }
    assert Run(bls, s, [w, x, y]) == Apply(bls, Run(bls, s, [w, x]), y) by {
      RunSnoc(bls, s, [w, x], y);
      assert [w, x] + [y] == [w, x, y];
    }
    RunSnoc(bls, s, [w, x, y], z);
    assert [w, x, y] + [z] == [w, x, y, z];
  }

  lemma {:induction false} RunSnoc(bls: Bls, s: State, steps: seq<Step>, step: Step)
    ensures Run(bls, s, steps + [step]) == Apply(bls, Run(bls, s, steps), step)
  {
    assert (steps + [step])[..|steps|] == steps;
  }

  /** SAFETY LOST. Each of the other two then certifies its own block, in the same slot. */
  lemma {:induction false} OverSlashingSplitsASlot(bls: Bls, list: seq<ValidatorInfo>, kb: string, kc: string,
                                                   x: Vote, y: Vote)
    requires Trio(bls, list) && Signed(bls, list[1], kb, x) && Signed(bls, list[2], kc, y) && x.block != y.block
    requires var b, c := bls.addressOf(list[1].pubkey), bls.addressOf(list[2].pubkey);
             && bls.aggregate(map[b := x], map[b := kb, c := kc]).Some?
             && bls.aggregate(map[c := y], map[b := kb, c := kc]).Some?
    ensures var a, b, c := bls.addressOf(list[0].pubkey), bls.addressOf(list[1].pubkey), bls.addressOf(list[2].pubkey);
            var certs := Certificates(bls, Initial(bls, list, 1), SplitSteps(b, kb, c, kc, a, x, y));
            && certs[4].Some? && certs[5].Some?
            && certs[4].value.slot == certs[5].value.slot == 1
            && certs[4].value.block == x.block && certs[5].value.block == y.block
  {
    var a, b, c := bls.addressOf(list[0].pubkey), bls.addressOf(list[1].pubkey), bls.addressOf(list[2].pubkey);
    var steps, s0 := SplitSteps(b, kb, c, kc, a, x, y), Initial(bls, list, 1);
    AfterSlash(bls, list, kb, kc);
    var s := Run(bls, s0, steps[..4]);
    assert steps[..4] == [Register(b, kb), Register(c, kc), Slash(a, 20000), Tick];
    TwoQuorums(bls, s, a, b, c, x, y);
    assert steps[..5][..4] == steps[..4];
    LastTwoCertificates(bls, s0, steps);
  }

  /** Two votes of a hundred against a total of a hundred: both are decisive, one after the other. */
  lemma {:induction false} TwoQuorums(bls: Bls, s: State, a: Address, b: Address, c: Address, x: Vote, y: Vote)
    requires s.roster.epochValidators.Keys == s.roster.validators.Keys == {a, b, c} && a != b && b != c && a != c
    requires s.roster.epochValidators[b].stake == 100 && s.roster.epochValidators[c].stake == 100
    requires s.roster.epochTotalStake == 100
    requires s.currentSlot == 1 && s.votes == map[] && s.voteRecord == map[] && s.progress.phase == Propose
    requires bls.addressOf(x.validator) == b && bls.addressOf(y.validator) == c && x.block != y.block
    requires Accepted(bls, s, x) && Accepted(bls, s, y) && x.slot == y.slot == 1 && x.stake == y.stake == 100
    requires bls.aggregate(map[b := x], s.blsKeys).Some? && bls.aggregate(map[c := y], s.blsKeys).Some?
    ensures var (t, o) := ProcessVote(bls, s, x);
            var o2 := ProcessVote(bls, t, y).1;
            && o.Formed? && o.qc.slot == 1 && o.qc.block == x.block
            && o2.Formed? && o2.qc.slot == 1 && o2.qc.block == y.block
  {
    assert |s.roster.validators| == |s.roster.validators.Keys| == |{a, b, c}| == 3;
    assert |s.roster.epochValidators| == |s.roster.epochValidators.Keys| == 3;
    assert Candidates(s, 1) == {};
    DecisiveVote(bls, s, x);
    var t := ProcessVote(bls, s, x).0;
    assert Candidates(t, 1) == {};
    DecisiveVote(bls, t, y);
  }

  lemma {:induction false} LastTwoCertificates(bls: Bls, s: State, steps: seq<Step>)
    requires |steps| >= 2
    ensures var n, certs := |steps|, Certificates(bls, s, steps);
            && certs[n - 1] == Certificate(bls, Run(bls, s, steps[..n - 1]), steps[n - 1])
            && certs[n - 2] == Certificate(bls, Run(bls, s, steps[..n - 2]), steps[n - 2])
  {
    var n := |steps|;
    assert steps[..n - 1][..n - 2] == steps[..n - 2];
  }
}
