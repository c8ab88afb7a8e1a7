/** The HotStuff engine as the node runs it: maps updated in place, one method per handler, each
    proved to make the pruning transition of `HotStuffModel`. */
module HotStuffEngine {
  import opened Types
  import opened Quorum
  import opened Validators
  import HM = HotStuffModel
  import opened HotStuffModel

  class HotStuffConsensus {
    const bls: Bls
    const validators: map<Address, ValidatorInfo>
    const totalStake: u128
    const me: Option<Identity>
    var blsPubkeys: map<Address, string>
    var currentPhase: Phase
    var currentSlot: u64
    var votes: map<BoxKey, seq<HotStuffVote>>
    var qcs: map<QcKey, AggregatedVote>
    var timeoutVotes: map<u64, seq<TimeoutVote>>
    var blockParents: map<H256, H256>
    var blockSlots: map<H256, u64>
    var lockedBlock: Option<H256>
    var lockedSlot: u64
    var committedSlot: u64
    var finalizedSlot: u64
    var lastReportedFinalized: u64

    ghost function MembersModel(): Members
      reads this`blsPubkeys
    {
      Members(validators, totalStake, blsPubkeys, me)
    }

    ghost function TablesModel(): Tables
      reads this`qcs, this`blockParents, this`blockSlots
    {
      Tables(qcs, blockParents, blockSlots)
    }

    ghost function ProgressModel(): Progress
      reads this`currentPhase, this`currentSlot, this`lockedBlock, this`lockedSlot, this`committedSlot,
            this`finalizedSlot,
            this`lastReportedFinalized
    {
      Progress(currentPhase, currentSlot, lockedBlock, lockedSlot, committedSlot, finalizedSlot, lastReportedFinalized)
    }

    ghost function Model(): State
      reads this
    {
      State(MembersModel(), votes, timeoutVotes, TablesModel(), ProgressModel())
    }

    constructor (bls: Bls, addressOf: PublicKey -> Address, list: seq<ValidatorInfo>, me: Option<Identity>)
      ensures this.bls == bls
      ensures Model() == Fresh(Members(ByAddress(addressOf, list), Min(SumOfStakes(list), U128_MAX), map[], me))
    {
      var members, total := IndexValidators(addressOf, list);
      this.bls, this.validators, this.totalStake, this.me := bls, members, total, me;
      blsPubkeys, currentPhase, currentSlot := map[], Propose, 0;
      votes, qcs, timeoutVotes, blockParents, blockSlots := map[], map[], map[], map[], map[];
      lockedBlock, lockedSlot, committedSlot, finalizedSlot, lastReportedFinalized := None, 0, 0, 0, 0;
    }

    // -------------------------------------------------------------- phases

    method AdvancePhase()
      modifies this`currentPhase, this`currentSlot, this`votes
      ensures Model() == HM.AdvancePhase(old(Model()))
    {
      match currentPhase
      case Propose => currentPhase := Prevote;
      case Prevote => currentPhase := Precommit;
      case Precommit => currentPhase := Commit;
      case Commit =>
        currentSlot := SaturatingAdd64(currentSlot, 1);
        votes := map[];
        currentPhase := Propose;
    }

    /** The node's signed vote, with its registered stake, at its current slot. */
    method CreateVote(block: H256, parent: H256, phase: Phase) returns (r: Reply)
      ensures r == OwnVote(bls, Model(), block, parent, phase)
      ensures me.None? ==> r == Acted(None, [])
      ensures me.Some? && me.value.address !in validators ==> r == Failed
      ensures me.Some? && me.value.address in validators ==>
                && r.Acted? && r.qc == None && |r.actions| == 1 && r.actions[0].BroadcastVote?
                && var v := r.actions[0].vote;
                   && v.slot == currentSlot && v.block == block && v.parent == parent && v.phase == phase
                   && v.validator == me.value.address && v.stake == validators[me.value.address].stake
                   && v.signature == bls.sign(me.value.keypair, VoteMessage(block, parent, currentSlot, phase))
    {
      if me.None? {
        return Acted(None, []);
      }
      var address := me.value.address;
      if address !in validators {
        return Failed;
      }
      var signature := bls.sign(me.value.keypair, VoteMessage(block, parent, currentSlot, phase));
      return Acted(None, [BroadcastVote(HotStuffVote(currentSlot, block, parent, phase, address,
                                                     validators[address].pubkey, validators[address].stake,
                                                         signature))]);
    }

    // -------------------------------------------------------------- proposals

    method OnPropose(block: H256, parent: H256, slot: u64) returns (r: Reply)
      modifies this`blockParents, this`blockSlots, this`currentPhase, this`currentSlot, this`votes
      ensures (Model(), r) == HM.OnPropose(bls, old(Model()), block, parent, slot)
    {
      if currentPhase != Propose {
        return Failed;
      }
      RecordBlock(block, parent, slot);
      if lockedBlock.Some? && parent != lockedBlock.value {
        var parentSlot := if parent in blockSlots then blockSlots[parent] else 0;
        if parentSlot < lockedSlot {
          return Acted(None, []);
        }
      }
      AdvancePhase();
      r := CreateVote(block, parent, Prevote);
    }

    method RecordBlock(block: H256, parent: H256, slot: u64)
      modifies this`blockParents, this`blockSlots
      ensures Model() == old(Model()).(tables := Track(old(Model()).tables, block, parent, slot))
    {
      blockParents := blockParents[block := parent];
      blockSlots := blockSlots[block := slot];
    }

    // -------------------------------------------------------------- votes

    method VerifyVote(vote: HotStuffVote) returns (ok: bool)
      ensures ok == VoteVerifies(bls, MembersModel(), vote)
    {
      if vote.validator !in validators || vote.validator !in blsPubkeys {
        return false;
      }
      var key := blsPubkeys[vote.validator];
      if |key| != 48 || |vote.signature| != 96 {
        return false;
      }
      var verdict := bls.verify(key, VoteMessage(vote.block, vote.parent, vote.slot, vote.phase), vote.signature);
      return verdict == Some(true);
    }

    method OnVote(vote: HotStuffVote) returns (r: Reply)
      modifies this
      ensures (Model(), r) == HM.OnVote(bls, true, old(Model()), vote)
    {
      var ok := VerifyVote(vote);
      if !ok {
        return Failed;
      }
      TrackVote(vote);
      r := CountVote(vote);
    }

    method TrackVote(vote: HotStuffVote)
      modifies this`blockParents, this`blockSlots
      ensures Model() == old(Model()).(tables := TrackIfNew(old(Model()).tables, vote.block, vote.parent, vote.slot))
    {
      if vote.block !in blockParents {
        blockParents := blockParents[vote.block := vote.parent];
      }
      if vote.block !in blockSlots {
        blockSlots := blockSlots[vote.block := vote.slot];
      }
    }

    method CountVote(vote: HotStuffVote) returns (r: Reply)
      modifies this
      requires vote.validator in validators
      ensures (Model(), r) == HM.CountVote(bls, true, old(Model()), vote)
    {
      if vote.stake != validators[vote.validator].stake {
        return Failed;
      }
      var key := BoxKey(vote.phase, vote.block);
      var box := if key in votes then votes[key] else [];
      var duplicate := FindVoter(box, vote.validator);
      if duplicate {
        return Failed;
      }
      box := box + [vote];
      votes := votes[key := box];
      var stake := SumVotes(box);
      if !HasQuorum(stake, totalStake) {
        return Acted(None, []);
      }
      var qc := AggregateVotes(box);
      if qc.None? {
        return Failed;
      }
      qcs := qcs[QcKey(vote.slot, vote.phase, vote.block) := qc.value];
      r := FollowCertificate(vote, qc.value);
    }

    method AggregateVotes(list: seq<HotStuffVote>) returns (qc: Option<AggregatedVote>)
      requires list != []
      ensures qc == Aggregate(bls, MembersModel(), list)
    {
      for i := 0 to |list|
        invariant forall j :: 0 <= j < i ==> list[j].validator in blsPubkeys
      {
        if list[i].validator !in blsPubkeys {
          return None;
        }
      }
      var keys := seq(|list|, i requires 0 <= i < |list| reads this =>
        var a := list[i].validator; if a in blsPubkeys then blsPubkeys[a] else "");
      assert keys == VoteKeys(MembersModel(), list);
      var signature := bls.aggregateSignatures(seq(|list|, i requires 0 <= i < |list| => list[i].signature));
      var key := bls.aggregateKeys(keys);
      if signature.None? || key.None? {
        return None;
      }
      var stake := SumVotes(list);
      return Some(AggregatedVote(list[0].slot, list[0].block, list[0].phase, stake,
                                 seq(|list|, i requires 0 <= i < |list| => list[i].validator),
                                 signature.value, key.value));
    }

    method FollowCertificate(vote: HotStuffVote, qc: AggregatedVote) returns (r: Reply)
      modifies this
      ensures (Model(), r) == OnCertificate(bls, true, old(Model()), vote, qc)
    {
      match vote.phase
      case Prevote =>
        lockedBlock, lockedSlot := Some(vote.block), vote.slot;
        AdvancePhase();
        var own := CreateVote(vote.block, vote.parent, Precommit);
        r := WithQc(own, qc);
      case Precommit =>
        var actions := FinalizeParent(vote);
        if vote.slot > committedSlot {
          committedSlot := vote.slot;
        }
        AdvancePhase();
        r := Acted(Some(qc), actions);
      case _ =>
        r := Acted(Some(qc), []);
    }

    /** The two-chain rule, with pruning. */
    method FinalizeParent(vote: HotStuffVote) returns (actions: seq<Action>)
      modifies this`finalizedSlot, this`qcs, this`blockSlots, this`blockParents
      ensures var final := FinalizedParent(old(Model()), vote);
              && Model() == (if final.Some? then Finalize(true, old(Model()), final.value.slot) else old(Model()))
              && actions == if final.Some? then [final.value] else []
    {
      actions := [];
      var parent := if vote.block in blockParents then blockParents[vote.block] else vote.parent;
      if parent in blockSlots {
        var parentSlot := blockSlots[parent];
        if QcKey(parentSlot, Prevote, parent) in qcs && parentSlot > finalizedSlot {
          finalizedSlot := parentSlot;
          actions := [Finalized(parentSlot, parent)];
          PruneFinalizedState();
        }
      }
    }

    method PruneFinalizedState()
      modifies this`qcs, this`blockSlots, this`blockParents
      ensures Model() == old(Model()).(tables := Pruned(old(Model()).tables, PruneLine(finalizedSlot)))
    {
      if finalizedSlot < 3 {
        return;
      }
      var pruneBelow := finalizedSlot - 2;
      qcs := map k | k in qcs && k.slot >= pruneBelow :: qcs[k];
      blockSlots := map b | b in blockSlots && blockSlots[b] >= pruneBelow :: blockSlots[b];
      blockParents := map b | b in blockParents && b in blockSlots :: blockParents[b];
    }

    // -------------------------------------------------------------- timeouts

    /** The highest certificate known; any of them if several share the highest slot. */
    method HighestQc() returns (slot: u64, hash: H256)
      ensures IsHighestQcSlot(TablesModel(), slot)
      ensures slot == 0 ==> hash == ZERO_HASH
      ensures slot > 0 ==> exists k :: k in qcs && k.slot == slot && k.block == hash
    {
      slot, hash := 0, ZERO_HASH;
      var rest := qcs.Keys;
      while rest != {}
        invariant rest <= qcs.Keys
        invariant forall k :: k in qcs && k !in rest ==> k.slot <= slot
        invariant slot == 0 ==> hash == ZERO_HASH
        invariant slot > 0 ==> exists k :: k in qcs && k.slot == slot && k.block == hash
        decreases |rest|
      {
        var k :| k in rest;
        rest := rest - {k};
        if k.slot > slot {
          slot, hash := k.slot, k.block;
        }
      }
    }

    /** A signed timeout vote that names the highest certificate. */
    method OnTimeout(round: u64) returns (r: Reply)
      ensures me.None? ==> r == Acted(None, [])
      ensures me.Some? && me.value.address !in validators ==> r == Failed
      ensures me.Some? && me.value.address in validators ==>
                && r.Acted? && r.qc == None && |r.actions| == 1 && r.actions[0].BroadcastTimeout?
                && var v := r.actions[0].timeout;
                   && v.round == round && v.validator == me.value.address
                   && v.stake == validators[me.value.address].stake
                   && v.signature == bls.sign(me.value.keypair, TimeoutMessage(round, v.qcSlot, v.qcHash))
                   && IsHighestQcSlot(TablesModel(), v.qcSlot)
                   && (v.qcSlot == 0 ==> v.qcHash == ZERO_HASH)
                   && (v.qcSlot > 0 ==> exists k :: k in qcs && k.slot == v.qcSlot && k.block == v.qcHash)
    {
      if me.None? {
        return Acted(None, []);
      }
      var address := me.value.address;
      if address !in validators {
        return Failed;
      }
      var slot, hash := HighestQc();
      var signature := bls.sign(me.value.keypair, TimeoutMessage(round, slot, hash));
      return Acted(None, [BroadcastTimeout(TimeoutVote(round, address, validators[address].pubkey,
                                                       validators[address].stake, slot, hash, signature))]);
    }

    method VerifyTimeout(v: TimeoutVote) returns (ok: bool)
      ensures ok == TimeoutVerifies(bls, MembersModel(), v)
    {
      if v.validator !in validators || v.stake != validators[v.validator].stake || v.validator !in blsPubkeys {
        return false;
      }
      var key := blsPubkeys[v.validator];
      if |key| != 48 || |v.signature| != 96 {
        return false;
      }
      var verdict := bls.verify(key, TimeoutMessage(v.round, v.qcSlot, v.qcHash), v.signature);
      return verdict == Some(true);
    }

    method OnTimeoutVote(v: TimeoutVote) returns (r: TimeoutReply)
      modifies this`timeoutVotes
      ensures (Model(), r) == HM.OnTimeoutVote(bls, old(Model()), v)
    {
      var ok := VerifyTimeout(v);
      if !ok {
        return TimeoutFailed;
      }
      var list := if v.round in timeoutVotes then timeoutVotes[v.round] else [];
      var duplicate := FindTimeout(list, v.validator);
      if duplicate {
        return TimeoutFailed;
      }
      list := list + [v];
      timeoutVotes := timeoutVotes[v.round := list];
      r := CertifyTimeout(v.round, list);
    }

    method CertifyTimeout(round: u64, list: seq<TimeoutVote>) returns (r: TimeoutReply)
      ensures r == HM.CertifyTimeout(bls, MembersModel(), round, list)
    {
      var stake := SumTimeouts(list);
      if !HasQuorum(stake, totalStake) {
        return NoCertificate;
      }
      var slot, hash := 0, ZERO_HASH;
      for i := 0 to |list|
        invariant (slot, hash) == HighestNamed(list[..i])
      {
        assert list[..i + 1][..i] == list[..i];
        if list[i].qcSlot > slot {
          slot, hash := list[i].qcSlot, list[i].qcHash;
        }
      }
      assert list[..|list|] == list;
      var signers := Signers(list);
      var keys := KeysOfSigners(signers);
      if keys.None? {
        return TimeoutFailed;
      }
      var signature, key := bls.aggregateSignatures(Signatures(list)), bls.aggregateKeys(keys.value);
      if signature.None? || key.None? {
        return TimeoutFailed;
      }
      return Certified(TimeoutCertificate(round, stake, slot, hash, signers, signature.value, key.value));
    }

    method KeysOfSigners(signers: seq<Address>) returns (keys: Option<seq<string>>)
      ensures keys == if AllRegistered(MembersModel(), signers) then Some(KeysOf(MembersModel(), signers)) else None
    {
      var found: seq<string> := [];
      for i := 0 to |signers|
        invariant |found| == i
        invariant forall j :: 0 <= j < i ==> signers[j] in blsPubkeys && found[j] == blsPubkeys[signers[j]]
      {
        if signers[i] !in blsPubkeys {
          return None;
        }
        found := found + [blsPubkeys[signers[i]]];
      }
      assert found == KeysOf(MembersModel(), signers);
      return Some(found);
    }

    method OnTimeoutCertificate(tc: TimeoutCertificate) returns (accepted: bool)
      modifies this`lockedBlock, this`lockedSlot, this`currentSlot, this`currentPhase, this`votes, this`timeoutVotes
      ensures (Model(), accepted) == HM.OnTimeoutCertificate(bls, old(Model()), tc)
    {
      accepted := VerifyCertificate(tc);
      if accepted {
        AdoptLock(tc.qcSlot, tc.qcHash);
        StartRound(tc.round);
      }
    }

    method AdoptLock(slot: u64, hash: H256)
      modifies this`lockedBlock, this`lockedSlot
      ensures Model() == if slot > old(lockedSlot)
                         then old(Model()).(progress := old(ProgressModel()).(lockedBlock := Some(hash),
                                                                              lockedSlot := slot))
                         else old(Model())
    {
      if slot > lockedSlot {
        lockedBlock, lockedSlot := Some(hash), slot;
      }
    }

    method StartRound(closed: u64)
      modifies this`currentSlot, this`currentPhase, this`votes, this`timeoutVotes
      ensures Model() == old(Model()).(
                         progress := old(ProgressModel()).(slot := SaturatingAdd64(old(currentSlot), 1),
                                                           phase := Propose),
                         votes := map[],
                         timeoutVotes := map r | r in old(timeoutVotes) && r > closed :: old(timeoutVotes)[r])
    {
      currentSlot := SaturatingAdd64(currentSlot, 1);
      currentPhase := Propose;
      votes := map[];
      timeoutVotes := map r | r in timeoutVotes && r > closed :: timeoutVotes[r];
    }

    method VerifyCertificate(tc: TimeoutCertificate) returns (ok: bool)
      ensures ok == CertificateVerifies(bls, MembersModel(), tc)
    {
      var stake := CountSigners(tc.signers);
      if stake.None? || !HasQuorum(stake.value, totalStake) {
        return false;
      }
      var keys := KeysOfSigners(tc.signers);
      if keys.None? {
        return false;
      }
      var key := bls.aggregateKeys(keys.value);
      if key.None? {
        return false;
      }
      var verdict := bls.verify(key.value, TimeoutMessage(tc.round, tc.qcSlot, tc.qcHash), tc.signature);
      return verdict == Some(true);
    }

    /** Stake of the signers, or nothing if one is unknown or repeated or the sum overflows. */
    method CountSigners(signers: seq<Address>) returns (stake: Option<u128>)
      ensures stake.Some? <==>
                && Distinct(signers)
                && (forall i :: 0 <= i < |signers| ==> signers[i] in validators)
                && SignerStake(MembersModel(), signers) <= U128_MAX
      ensures stake.Some? ==> stake.value == SignerStake(MembersModel(), signers)
    {
      var seen: set<Address>, sum: u128 := {}, 0;
      for i := 0 to |signers|
        invariant seen == set j | 0 <= j < i :: signers[j]
        invariant Distinct(signers[..i])
        invariant forall j :: 0 <= j < i ==> signers[j] in validators
        invariant sum == SignerStake(MembersModel(), signers[..i])
      {
        assert signers[..i + 1][..i] == signers[..i];
        SignerStakeGrows(MembersModel(), signers, i + 1);
        if signers[i] in seen || signers[i] !in validators {
          return None;
        }
        if sum + validators[signers[i]].stake > U128_MAX {
          return None;
        }
        seen := seen + {signers[i]};
        sum := sum + validators[signers[i]].stake;
      }
      assert signers[..|signers|] == signers;
      return Some(sum);
    }

    method CheckFinality(slot: u64) returns (report: bool)
      modifies this`lastReportedFinalized
      ensures (Model(), Answer(report)) == HM.Apply(bls, true, old(Model()), Reported(slot))
    {
      if slot <= finalizedSlot && slot > lastReportedFinalized {
        lastReportedFinalized := slot;
        return true;
      }
      return false;
    }
  }

  method FindVoter(list: seq<HotStuffVote>, a: Address) returns (found: bool)
    ensures found == HasVoted(list, a)
  {
    for i := 0 to |list|
      invariant !HasVoted(list[..i], a)
    {
      if list[i].validator == a {
        return true;
      }
    }
    assert list[..|list|] == list;
    return false;
  }

  method SumVotes(list: seq<HotStuffVote>) returns (sum: u128)
    ensures sum == Min(SumOfVotes(list), U128_MAX)
  {
    sum := 0;
    for i := 0 to |list|
      invariant sum == Min(SumOfVotes(list[..i]), U128_MAX)
    {
      assert list[..i + 1][..i] == list[..i];
      sum := SaturatingAdd(sum, list[i].stake);
    }
    assert list[..|list|] == list;
  }

  method FindTimeout(list: seq<TimeoutVote>, a: Address) returns (found: bool)
    ensures found == HasTimedOut(list, a)
  {
    for i := 0 to |list|
      invariant !HasTimedOut(list[..i], a)
    {
      if list[i].validator == a {
        return true;
      }
    }
    assert list[..|list|] == list;
    return false;
  }

  method SumTimeouts(list: seq<TimeoutVote>) returns (sum: u128)
    ensures sum == Min(SumOfTimeouts(list), U128_MAX)
  {
    sum := 0;
    for i := 0 to |list|
      invariant sum == Min(SumOfTimeouts(list[..i]), U128_MAX)
    {
      assert list[..i + 1][..i] == list[..i];
      sum := SaturatingAdd(sum, list[i].stake);
    }
    assert list[..|list|] == list;
  }

  lemma {:induction false} SignerStakeGrows(m: Members, signers: seq<Address>, i: nat)
    requires i <= |signers|
    ensures SignerStake(m, signers[..i]) <= SignerStake(m, signers)
    decreases |signers|
  {
    if i == |signers| {
      assert signers[..i] == signers;
    } else {
      var n := |signers| - 1;
      assert signers[..n][..i] == signers[..i];
      SignerStakeGrows(m, signers[..n], i);
    }
  }
}
