/** Finality over whole runs of the hybrid engine. */
module HybridFinality {
  import opened Types
  import opened Validators
  import opened HybridModel
  import opened HybridSafety

  // ---------------------------------------------------------------- nothing moves backwards

  /** No slot counter falls. */
  predicate NoRegress(s: State, t: State) {
    && s.currentSlot <= t.currentSlot
    && s.progress.lockedSlot <= t.progress.lockedSlot
    && s.progress.committedSlot <= t.progress.committedSlot
    && s.progress.finalizedSlot <= t.progress.finalizedSlot
    && s.progress.lastReported <= t.progress.lastReported
  }

  lemma {:induction false} TallyAdvances(bls: Bls, s: State, v: Vote, t: State)
    requires Ordered(s) && v.slot == s.currentSlot && t == Tally(bls, s, v).0
    ensures NoRegress(s, t)
  {
    var o := Tally(bls, s, v).1;
    if o.Formed? && |s.roster.epochValidators| != 1 {
      OnQuorumAdvances(s.(qcs := s.qcs[QcKey(v.slot, s.progress.phase, v.block) := o.qc]), v, t.progress);
    }
  }

  lemma {:induction false} OnQuorumAdvances(s: State, v: Vote, p: Progress)
    requires s.progress.lockedSlot <= v.slot && p == OnQuorum(s, v)
    ensures s.progress.lockedSlot <= p.lockedSlot && s.progress.committedSlot <= p.committedSlot
    ensures s.progress.finalizedSlot <= p.finalizedSlot && s.progress.lastReported <= p.lastReported
  {
  }

  lemma {:induction false} VoteAdvances(bls: Bls, s: State, v: Vote, t: State)
    requires Ordered(s) && t == ProcessVote(bls, s, v).0
    ensures NoRegress(s, t)
  {
    if Accepted(bls, s, v) {
      TallyAdvances(bls, Deposited(bls, s, v), v, Tally(bls, Deposited(bls, s, v), v).0);
    }
  }

  lemma {:induction false} StepAdvances(bls: Bls, s: State, step: Step, t: State)
    requires Ordered(s) && Permitted(s, step) && t == Apply(bls, s, step)
    ensures NoRegress(s, t)
  {
    if step.Cast? {
      VoteAdvances(bls, s, step.vote, t);
    } else if !step.Tick? && !step.Slash? {
      QuietStepFrame(bls, s, step, t);
    }
  }

  lemma {:induction false} RunUnfolds(bls: Bls, s: State, steps: seq<Step>, i: nat)
    requires i < |steps|
    ensures Run(bls, s, steps[..i + 1]) == Apply(bls, Run(bls, s, steps[..i]), steps[i])
  {
    assert steps[..i + 1][..i] == steps[..i];
  }

  lemma {:induction false} PrefixInv(bls: Bls, s: State, steps: seq<Step>, i: nat)
    requires Inv(s) && History(s, {}) && PermittedRun(bls, s, steps) && i <= |steps|
    ensures Inv(Run(bls, s, steps[..i]))
    ensures History(Run(bls, s, steps[..i]), KeysOf(Certificates(bls, s, steps[..i])))
  {
    PrefixPermitted(bls, s, steps, i);
    RunKeeps(bls, s, steps[..i]);
  }

  lemma {:induction false} RunAdvances(bls: Bls, s: State, steps: seq<Step>, i: nat, j: nat)
    requires Inv(s) && History(s, {}) && PermittedRun(bls, s, steps) && i <= j <= |steps|
    ensures NoRegress(Run(bls, s, steps[..i]), Run(bls, s, steps[..j]))
    decreases j - i
  {
    if i < j {
      RunAdvances(bls, s, steps, i, j - 1);
      RunUnfolds(bls, s, steps, j - 1);
      PrefixInv(bls, s, steps, j - 1);
      StepAdvances(bls, Run(bls, s, steps[..j - 1]), steps[j - 1], Run(bls, s, steps[..j]));
    }
  }

  /** In every run the counters are ordered at every point and never fall between two points. */
  lemma {:induction false} CountersOrderedAndMonotone(bls: Bls, list: seq<ValidatorInfo>, epochLength: u64,
                                                      steps: seq<Step>, i: nat, j: nat)
    requires SumOfStakes(list) <= U128_MAX && i <= j <= |steps|
    requires PermittedRun(bls, Initial(bls, list, epochLength), steps)
    ensures var t := Run(bls, Initial(bls, list, epochLength), steps[..j]);
            t.progress.finalizedSlot <= t.progress.committedSlot <= t.currentSlot
                && t.progress.lockedSlot <= t.currentSlot
    ensures NoRegress(Run(bls, Initial(bls, list, epochLength), steps[..i]),
                      Run(bls, Initial(bls, list, epochLength), steps[..j]))
  {
    var s := Initial(bls, list, epochLength);
    InitialInv(bls, list, epochLength);
    PrefixInv(bls, s, steps, j);
    RunAdvances(bls, s, steps, i, j);
  }

  // ---------------------------------------------------------------- reports

  /** `check_finality` answers true at step `i`. */
  ghost predicate ReportsAt(bls: Bls, s: State, steps: seq<Step>, i: nat, slot: u64)
    requires i < |steps|
  {
    steps[i] == Report(slot) && NewlyFinal(Run(bls, s, steps[..i]), slot)
  }

  /** A slot is reported final at most once in a run. */
  lemma {:induction false} ReportedOnce(bls: Bls, list: seq<ValidatorInfo>, epochLength: u64,
                                        steps: seq<Step>, i: nat, j: nat, slot: u64)
    requires SumOfStakes(list) <= U128_MAX && i < j < |steps|
    requires PermittedRun(bls, Initial(bls, list, epochLength), steps)
    requires ReportsAt(bls, Initial(bls, list, epochLength), steps, i, slot)
    ensures !ReportsAt(bls, Initial(bls, list, epochLength), steps, j, slot)
  {
    var s := Initial(bls, list, epochLength);
    RunUnfolds(bls, s, steps, i);
    CountersOrderedAndMonotone(bls, list, epochLength, steps, i + 1, j);
  }

  // ---------------------------------------------------------------- the two-chain rule

  ghost predicate NoSelfParent(s: State) {
    forall b :: b in s.parents ==> s.parents[b] != b
  }

  /** `parent` was certified at `slot`, and `child`, recorded as its child, is certified later. */
  ghost predicate TwoChain(s: State, formed: set<QcKey>, slot: u64, parent: H256, child: QuorumCertificate) {
    && child.block in s.parents && s.parents[child.block] == parent
    && (exists phase :: QcKey(slot, phase, parent) in formed)
    && slot < child.slot
  }

  /** The only way to finality with several validators. */
  lemma {:induction false} TallyFinalizes(bls: Bls, s: State, v: Vote, t: State, formed: set<QcKey>)
    requires Inv(s) && History(s, formed) && v.slot == s.currentSlot && NoSelfParent(s)
    requires BoxHonest(s, v.block, Box(s, QcKey(v.slot, s.progress.phase, v.block)))
    requires |s.roster.epochValidators| != 1
    requires t == Tally(bls, s, v).0 && t.progress.finalizedSlot > s.progress.finalizedSlot
    ensures Tally(bls, s, v).1.Formed?
    ensures v.block in s.parents
    ensures TwoChain(s, formed, t.progress.finalizedSlot, s.parents[v.block], Tally(bls, s, v).1.qc)
  {
    var key := QcKey(v.slot, s.progress.phase, v.block);
    var parentKey := TallyRise(bls, s, v, t);
    TallyKeeps(bls, s, v, formed);
    TallyForms(bls, s, v);
    EarlierCertificate(t, formed + {key}, parentKey, key);
    assert parentKey in formed;
  }

  /** A raise of the finalized slot found the parent's certificate in the table. */
  lemma {:induction false} TallyRise(bls: Bls, s: State, v: Vote, t: State) returns (parentKey: QcKey)
    requires NoSelfParent(s) && |s.roster.epochValidators| != 1
    requires t == Tally(bls, s, v).0 && t.progress.finalizedSlot > s.progress.finalizedSlot
    ensures Tally(bls, s, v).1.Formed? && v.block in s.parents
    ensures parentKey in s.qcs && parentKey.block == s.parents[v.block] && parentKey.slot == t.progress.finalizedSlot
  {
    var qc := Tally(bls, s, v).1.qc;
    var certified := s.(qcs := s.qcs[QcKey(v.slot, s.progress.phase, v.block) := qc]);
    assert t.progress == OnQuorum(certified, v);
    var phase := if s.progress.phase.Propose? then Propose else Prevote;
    parentKey := QcKey(t.progress.finalizedSlot, phase, s.parents[v.block]);
  }

  /** Certificates for different blocks lie in different slots. */
  lemma {:induction false} EarlierCertificate(t: State, formed: set<QcKey>, k: QcKey, l: QcKey)
    requires History(t, formed) && k in formed && l in formed && l.slot == t.currentSlot && k.block != l.block
    ensures k.slot < l.slot
  {
  }

  lemma {:induction false} VoteFinalizes(bls: Bls, s: State, v: Vote, t: State, formed: set<QcKey>)
    requires Inv(s) && History(s, formed) && NoSelfParent(s) && |s.roster.epochValidators| != 1
    requires t == ProcessVote(bls, s, v).0 && t.progress.finalizedSlot > s.progress.finalizedSlot
    ensures ProcessVote(bls, s, v).1.Formed?
    ensures v.block in s.parents
    ensures TwoChain(s, formed, t.progress.finalizedSlot, s.parents[v.block], ProcessVote(bls, s, v).1.qc)
  {
    VoteRise(bls, s, v, t);
    DepositKeeps(bls, s, v, formed);
    TallyFinalizes(bls, Deposited(bls, s, v), v, t, formed);
  }

  /** Only a vote that is accepted and counted raises the finalized slot. */
  lemma {:induction false} VoteRise(bls: Bls, s: State, v: Vote, t: State)
    requires t == ProcessVote(bls, s, v).0 && t.progress.finalizedSlot > s.progress.finalizedSlot
    ensures Accepted(bls, s, v) && !Equivocates(bls, s, v)
    ensures ProcessVote(bls, s, v) == Tally(bls, Deposited(bls, s, v), v)
  {
  }

  lemma {:induction false} ProcessVoteFrame(bls: Bls, s: State, v: Vote)
    ensures ProcessVote(bls, s, v).0.parents == s.parents && ProcessVote(bls, s, v).0.roster == s.roster
  {
    TallyFrame(bls, Deposited(bls, s, v), v);
  }

  lemma {:induction false} TallyFrame(bls: Bls, s: State, v: Vote)
    ensures Tally(bls, s, v).0.parents == s.parents && Tally(bls, s, v).0.roster == s.roster
  {
  }

  lemma {:induction false} StepKeepsParents(bls: Bls, s: State, step: Step)
    requires NoSelfParent(s) && (step.Record? ==> step.block != step.parent)
    ensures NoSelfParent(Apply(bls, s, step))
  {
    if step.Cast? {
      ProcessVoteFrame(bls, s, step.vote);
    }
  }

  lemma {:induction false} StepKeepsMembers(bls: Bls, s: State, step: Step)
    requires s.roster.validators.Keys == s.roster.epochValidators.Keys
    ensures Apply(bls, s, step).roster.epochValidators.Keys == s.roster.epochValidators.Keys
    ensures Apply(bls, s, step).roster.validators.Keys == s.roster.validators.Keys
  {
    if step.Cast? {
      ProcessVoteFrame(bls, s, step.vote);
    }
  }

  ghost predicate NoSelfParentRecorded(steps: seq<Step>) {
    forall i :: 0 <= i < |steps| && steps[i].Record? ==> steps[i].block != steps[i].parent
  }

  /** No recorded block is its own parent, and the snapshot has the members of the current set. */
  ghost predicate WellRecorded(s: State, members: set<Address>) {
    NoSelfParent(s) && s.roster.validators.Keys == members && s.roster.epochValidators.Keys == members
  }

  lemma {:induction false} NextKeepsRecords(bls: Bls, s: State, steps: seq<Step>, i: nat, members: set<Address>)
    requires i < |steps| && (steps[i].Record? ==> steps[i].block != steps[i].parent)
    requires WellRecorded(Run(bls, s, steps[..i]), members)
    ensures WellRecorded(Run(bls, s, steps[..i + 1]), members)
  {
    var t := Run(bls, s, steps[..i]);
    RunUnfolds(bls, s, steps, i);
    StepKeepsParents(bls, t, steps[i]);
    StepKeepsMembers(bls, t, steps[i]);
  }

  lemma {:induction false} RunKeepsRecords(bls: Bls, s: State, steps: seq<Step>, i: nat, members: set<Address>)
    requires WellRecorded(s, members) && NoSelfParentRecorded(steps) && i <= |steps|
    ensures WellRecorded(Run(bls, s, steps[..i]), members)
    decreases i
  {
    if i == 0 {
      assert steps[..0] == [];
    } else {
      RunKeepsRecords(bls, s, steps, i - 1, members);
      NextKeepsRecords(bls, s, steps, i - 1, members);
    }
  }

  /** FINALITY. With several validators, in every run: when a step raises the finalized slot, that step
      hands out a certificate for a block whose recorded parent was certified, by an earlier step, at
      exactly the new finalized slot and strictly before the block itself. No other block was ever
      certified there (`OneBlockPerSlot`). */
  lemma {:induction false} FinalityIsBacked(bls: Bls, list: seq<ValidatorInfo>, epochLength: u64,
                                            steps: seq<Step>, i: nat)
    returns (parent: H256, j: nat)
    requires SumOfStakes(list) <= U128_MAX && i < |steps| && NoSelfParentRecorded(steps)
    requires PermittedRun(bls, Initial(bls, list, epochLength), steps)
    requires |ByAddress(bls.addressOf, list)| != 1
    requires Run(bls, Initial(bls, list, epochLength), steps[..i + 1]).progress.finalizedSlot
             > Run(bls, Initial(bls, list, epochLength), steps[..i]).progress.finalizedSlot
    ensures j < i
    ensures var s := Initial(bls, list, epochLength);
            var before, certs := Run(bls, s, steps[..i]), Certificates(bls, s, steps[..i + 1]);
            var final := Run(bls, s, steps[..i + 1]).progress.finalizedSlot;
            && certs[i].Some? && certs[j].Some?
            && certs[j].value.slot == final && certs[j].value.block == parent
            && certs[i].value.slot > final
            && certs[i].value.block in before.parents && before.parents[certs[i].value.block] == parent
  {
    var s := Initial(bls, list, epochLength);
    var before, certs := Run(bls, s, steps[..i]), Certificates(bls, s, steps[..i]);
    InitialInv(bls, list, epochLength);
    PrefixInv(bls, s, steps, i);
    RunKeepsRecords(bls, s, steps, i, ByAddress(bls.addressOf, list).Keys);
    RunUnfolds(bls, s, steps, i);
    assert steps[..i + 1][..i] == steps[..i];
    assert |before.roster.epochValidators| == |before.roster.epochValidators.Keys|
           == |ByAddress(bls.addressOf, list).Keys|;
    if !steps[i].Cast? {
      OnlyVotesFinalize(bls, before, steps[i]);
    }
    VoteFinalizes(bls, before, steps[i].vote, Run(bls, s, steps[..i + 1]), KeysOf(certs));
    parent := before.parents[steps[i].vote.block];
    ProcessVoteCertifiesItsBlock(bls, before, steps[i].vote);
    var phase :| QcKey(Run(bls, s, steps[..i + 1]).progress.finalizedSlot, phase, parent) in KeysOf(certs);
    j :| 0 <= j < |certs| && certs[j].Some?
         && KeyOf(certs[j].value) == QcKey(Run(bls, s, steps[..i + 1]).progress.finalizedSlot, phase, parent);
  }

  lemma {:induction false} OnlyVotesFinalize(bls: Bls, s: State, step: Step)
    requires Ordered(s) && !step.Cast?
    ensures Apply(bls, s, step).progress.finalizedSlot == s.progress.finalizedSlot
  {
  }

  lemma {:induction false} ProcessVoteCertifiesItsBlock(bls: Bls, s: State, v: Vote)
    ensures var o := ProcessVote(bls, s, v).1; o.Formed? ==> o.qc.block == v.block && o.qc.slot == v.slot
  {
  }
}
