/** The hybrid engine as the node runs it: maps updated in place, one method per handler, each
    proved to make the transition of `HybridModel`. */
module HybridEngine {
  import opened Types
  import opened Validators
  import opened Totals
  import opened Quorum
  import opened Slashing
  import HM = HybridModel
  import opened HybridModel
  import opened HybridSafety

  class HybridConsensus {
    const bls: Bls
    var validators: map<Address, ValidatorInfo>
    var totalStake: u128
    var epochValidators: map<Address, ValidatorInfo>
    var epochTotalStake: u128
    var epochLength: u64
    var currentSlot: u64
    var currentPhase: Phase
    var votes: map<QcKey, map<Address, Vote>>
    var qcs: map<QcKey, QuorumCertificate>
    var lockedBlock: Option<H256>
    var lockedSlot: u64
    var blockParents: map<H256, H256>
    var blockSlots: map<H256, u64>
    var voteRecord: map<VoterSlot, H256>
    var blsPubkeys: map<Address, string>
    var committedSlot: u64
    var finalizedSlot: u64
    var lastReportedFinalized: u64

    ghost function Model(): State
      reads this
    {
      State(Roster(validators, totalStake, epochValidators, epochTotalStake),
            epochLength, currentSlot, votes, voteRecord, qcs, blockParents, blockSlots, blsPubkeys,
            Progress(currentPhase, lockedBlock, lockedSlot, committedSlot, finalizedSlot, lastReportedFinalized))
    }

    constructor (bls: Bls, list: seq<ValidatorInfo>, epochLength: u64)
      ensures this.bls == bls
      ensures Model() == Initial(bls, list, epochLength)
    {
      this.bls := bls;
      var members, total := IndexValidators(bls.addressOf, list);
      validators, totalStake := members, total;
      epochValidators, epochTotalStake := members, total;
      this.epochLength := if epochLength == 0 then 1 else epochLength;
      currentSlot, currentPhase := 0, Propose;
      votes, qcs, voteRecord := map[], map[], map[];
      lockedBlock, lockedSlot := None, 0;
      blockParents, blockSlots, blsPubkeys := map[], map[], map[];
      committedSlot, finalizedSlot, lastReportedFinalized := 0, 0, 0;
    }

    // -------------------------------------------------------------- votes

    /** The checks that need no signature. */
    method PreValidate(vote: Vote) returns (ok: bool)
      ensures ok == Addressed(bls, Model(), vote)
    {
      if vote.slot != currentSlot {
        return false;
      }
      var voter := bls.addressOf(vote.validator);
      if voter !in epochValidators || vote.stake != epochValidators[voter].stake {
        return false;
      }
      return voter in blsPubkeys && |blsPubkeys[voter]| == 48 && |vote.signature| == 96;
    }

    /** Every check before the equivocation record is touched. */
    method VerifyVote(vote: Vote) returns (ok: bool)
      ensures ok == Accepted(bls, Model(), vote)
    {
      var addressed := PreValidate(vote);
      if !addressed {
        return false;
      }
      var voter := bls.addressOf(vote.validator);
      var verdict := bls.verify(blsPubkeys[voter], VoteMessage(vote.block, vote.slot), vote.signature);
      return verdict == Some(true);
    }

    method ProcessVote(vote: Vote) returns (o: Outcome)
      modifies this
      ensures (Model(), o) == HM.ProcessVote(bls, old(Model()), vote)
    {
      var ok := VerifyVote(vote);
      if !ok {
        return Rejected;
      }
      var voter := bls.addressOf(vote.validator);
      var voteKey := VoterSlot(vote.slot, voter);
      if voteKey in voteRecord {
        if voteRecord[voteKey] != vote.block {
          return Rejected;
        }
      }
      voteRecord := voteRecord[voteKey := vote.block];
      var existing := CountCandidates(votes.Keys, vote.slot, currentPhase);
      assert Candidates(old(Model()), vote.slot) == KeysAt(votes.Keys, vote.slot, currentPhase);
      var key := QcKey(vote.slot, currentPhase, vote.block);
      if key !in votes && existing >= 2 * |validators| {
        return Rejected;
      }
      var box := if key in votes then votes[key] else map[];
      if voter in box {
        return NoQuorum;
      }
      votes := votes[key := box[voter := vote]];
      o := TallyVotes(vote);
    }

    method TallyVotes(vote: Vote) returns (o: Outcome)
      modifies this
      requires QcKey(vote.slot, currentPhase, vote.block) in votes
      ensures (Model(), o) == Tally(bls, old(Model()), vote)
    {
      var key := QcKey(vote.slot, currentPhase, vote.block);
      var box := votes[key];
      var stake := SumStakes(box);
      if !HasQuorum(stake, epochTotalStake) {
        return NoQuorum;
      }
      if |epochValidators| == 1 {
        var single := QuorumCertificate(vote.slot, vote.block, currentPhase, vote.stake,
                                        {bls.addressOf(vote.validator)}, (vote.signature, ""));
        qcs := qcs[key := single];
        CommitAndFinalize(vote.slot);
        return Formed(single);
      }
      o := CertifyTogether(vote, key, stake);
    }

    /** Aggregate the box into a certificate and act on it. */
    method CertifyTogether(vote: Vote, key: QcKey, stake: u128) returns (o: Outcome)
      modifies this`qcs, this`currentPhase, this`lockedBlock, this`lockedSlot, this`committedSlot, this`finalizedSlot
      requires key == QcKey(vote.slot, currentPhase, vote.block) && key in votes
      requires stake == SaturatedTotal(VotedStakes(votes[key]))
      requires HasQuorum(stake, epochTotalStake) && |epochValidators| != 1
      ensures (Model(), o) == Tally(bls, old(Model()), vote)
    {
      var aggregated := bls.aggregate(votes[key], blsPubkeys);
      if aggregated.None? {
        return Rejected;
      }
      var qc := QuorumCertificate(vote.slot, vote.block, currentPhase, stake, votes[key].Keys, aggregated.value);
      qcs := qcs[key := qc];
      FollowCertificate(vote);
      o := Formed(qc);
    }

    method CommitAndFinalize(slot: u64)
      modifies this`committedSlot, this`finalizedSlot
      ensures committedSlot == Max(old(committedSlot), slot) && finalizedSlot == Max(old(finalizedSlot), slot)
    {
      if slot > committedSlot {
        committedSlot := slot;
      }
      if slot > finalizedSlot {
        finalizedSlot := slot;
      }
    }

    /** The phase-specific work after a certificate is stored. */
    method FollowCertificate(vote: Vote)
      modifies this`currentPhase, this`lockedBlock, this`lockedSlot, this`committedSlot, this`finalizedSlot
      ensures Model().progress == OnQuorum(old(Model()), vote)
    {
      match currentPhase {
        case Propose =>
          TryFinalizeParent(vote.block, Propose);
          lockedBlock, lockedSlot := Some(vote.block), vote.slot;
          if vote.slot > committedSlot {
            committedSlot := vote.slot;
          }
        case Prevote =>
          lockedBlock, lockedSlot := Some(vote.block), vote.slot;
        case Precommit =>
          TryFinalizeParent(vote.block, Prevote);
          if vote.slot > committedSlot {
            committedSlot := vote.slot;
          }
        case Commit =>
      }
      AdvancePhase();
    }

    method TryFinalizeParent(block: H256, parentPhase: Phase)
      modifies this`finalizedSlot
      ensures finalizedSlot == old(FinalizedBy(Model(), block, parentPhase))
    {
      if block in blockParents {
        var parent := blockParents[block];
        if parent in blockSlots {
          var parentSlot := blockSlots[parent];
          if QcKey(parentSlot, parentPhase, parent) in qcs && parentSlot > finalizedSlot {
            finalizedSlot := parentSlot;
          }
        }
      }
    }

    method AdvancePhase()
      modifies this`currentPhase
      ensures currentPhase == NextPhase(old(currentPhase))
    {
      currentPhase := NextPhase(currentPhase);
    }

    /** All signatures are checked in one batch first; a failed batch falls back to single checks. The
        outcome is that of processing the votes one by one, whatever the batch check answers, unless
        the batch check itself fails. */
    method BatchProcessVotes(list: seq<Vote>) returns (r: Option<seq<Option<QuorumCertificate>>>)
      modifies this
      ensures r.Some? ==> (Model(), r.value) == ProcessEach(bls, old(Model()), list)
      ensures r.None? ==> Model() == old(Model())
      ensures r.None? <==> BatchCheckFails(bls, old(Model()), list)
    {
      if list == [] {
        return Some([]);
      }
      var prepared, rejected := Prepare(list);
      PreparedAddressed(bls, Model(), list);
      var valid := CheckSignatures(prepared);
      if valid.None? {
        return None;
      }
      var results := FeedPrepared(list, prepared, rejected, valid.value);
      return Some(results);
    }

    /** Split the votes into those worth a signature check and the indices of the others. */
    method Prepare(list: seq<Vote>) returns (prepared: seq<Vote>, rejected: set<nat>)
      ensures prepared == Prepared(bls, Model(), list)
      ensures rejected == set i: nat | i < |list| && !Addressed(bls, Model(), list[i])
    {
      prepared, rejected := [], {};
      for i := 0 to |list|
        invariant prepared == Prepared(bls, Model(), list[..i])
        invariant rejected == set j: nat | j < i && !Addressed(bls, Model(), list[j])
      {
        assert list[..i + 1][..i] == list[..i];
        var ok := PreValidate(list[i]);
        if ok {
          prepared := prepared + [list[i]];
        } else {
          rejected := rejected + {i};
        }
      }
      assert list[..|list|] == list;
    }

    /** One verdict per prepared vote: all good if the batch passes, else each on its own. */
    method CheckSignatures(prepared: seq<Vote>) returns (valid: Option<seq<bool>>)
      requires forall v :: v in prepared ==> Addressed(bls, Model(), v)
      ensures valid.None? <==> prepared != [] && bls.verifyBatch(Tuples(blsPubkeys, bls, prepared)) == None
      ensures valid.Some? ==> |valid.value| == |prepared|
      ensures valid.Some? ==> forall i :: 0 <= i < |prepared| ==>
                (valid.value[i] <==> bls.verifyBatch(Tuples(blsPubkeys, bls, prepared)) == Some(true)
                                     || Accepted(bls, Model(), prepared[i]))
    {
      var batchOk := Some(true);
      if prepared != [] {
        batchOk := bls.verifyBatch(Tuples(blsPubkeys, bls, prepared));
      }
      if batchOk.None? {
        return None;
      }
      if batchOk.value {
        return Some(seq(|prepared|, _ => true));
      }
      var verdicts: seq<bool> := [];
      for i := 0 to |prepared|
        invariant |verdicts| == i
        invariant forall j :: 0 <= j < i ==> (verdicts[j] <==> Accepted(bls, Model(), prepared[j]))
      {
        var v := prepared[i];
        assert v in prepared;
        var verdict := bls.verify(blsPubkeys[bls.addressOf(v.validator)], VoteMessage(v.block, v.slot), v.signature);
        verdicts := verdicts + [verdict == Some(true)];
      }
      return Some(verdicts);
    }

    /** Hand the votes that passed to `ProcessVote`, in the order they came. */
    method FeedPrepared(list: seq<Vote>, prepared: seq<Vote>, rejected: set<nat>, valid: seq<bool>)
      returns (results: seq<Option<QuorumCertificate>>)
      modifies this
      requires prepared == Prepared(bls, Model(), list)
      requires rejected == set i: nat | i < |list| && !Addressed(bls, Model(), list[i])
      requires |valid| == |prepared|
      requires forall i :: 0 <= i < |prepared| && Accepted(bls, Model(), prepared[i]) ==> valid[i]
      ensures (Model(), results) == ProcessEach(bls, old(Model()), list)
    {
      ghost var start := Model();
      results := seq(|list|, _ => None);
      var next := 0;
      for i := 0 to |list|
        invariant FedUpTo(bls, start, list, i, Model(), results, next)
      {
        ghost var before, was, at := Model(), results, next;
        FedNext(bls, start, list, i, before, results, next);
        var skip := true;
        if i !in rejected {
          skip := !valid[next];
          next := next + 1;
        }
        var cert := Feed(list[i], skip);
        results := results[i := cert];
        FedStep(bls, start, list, i, before, was, at, Model(), results, next);
      }
      assert list[..|list|] == list && results[..|list|] == results;
    }

    /** Process a vote, or skip one that is known to be rejected. */
    method Feed(vote: Vote, skip: bool) returns (cert: Option<QuorumCertificate>)
      modifies this
      requires skip ==> !Accepted(bls, Model(), vote)
      ensures Model() == HM.ProcessVote(bls, old(Model()), vote).0
      ensures cert == CertificateOf(HM.ProcessVote(bls, old(Model()), vote).1)
    {
      if skip {
        RejectedVote(bls, Model(), vote);
        return None;
      }
      var o := ProcessVote(vote);
      cert := CertificateOf(o);
    }

    // -------------------------------------------------------------- slots, timeouts, slashing

    method AdvanceSlot()
      modifies this
      ensures Model() == HM.AdvanceSlot(old(Model()))
    {
      StartSlot(SaturatingAdd64(currentSlot, 1));
      Prune(Horizon(currentSlot));
      SnapshotIfDue();
    }

    method StartSlot(slot: u64)
      modifies this`currentSlot, this`currentPhase, this`votes
      ensures Model() == old(Model()).(currentSlot := slot, votes := map[],
                                       progress := old(Model()).progress.(phase := Propose))
    {
      currentSlot := slot;
      currentPhase := Propose;
      votes := map[];
    }

    /** Forget votes on record, certificates and blocks from before `horizon`. */
    method Prune(horizon: u64)
      modifies this`voteRecord, this`qcs, this`blockSlots, this`blockParents
      ensures Model() == Pruned(old(Model()), horizon)
    {
      voteRecord := RecentRecords(voteRecord, horizon);
      qcs := RecentQcs(qcs, horizon);
      blockSlots := RecentSlots(blockSlots, horizon);
      blockParents := KnownParents(blockParents, blockSlots);
    }

    /** At an epoch boundary the live validator set becomes the frozen one. */
    method SnapshotIfDue()
      modifies this`epochValidators, this`epochTotalStake
      ensures Model() == if StartsEpoch(currentSlot, epochLength)
                         then old(Model()).(roster := Snapshot(old(Model()).roster)) else old(Model())
    {
      if StartsEpoch(currentSlot, epochLength) {
        epochValidators := validators;
        epochTotalStake := totalStake;
      }
    }

    method OnTimeout()
      modifies this`currentPhase, this`votes
      ensures Model() == HM.OnTimeout(old(Model()))
    {
      currentPhase := Propose;
      votes := map[];
    }

    method SlashValidator(a: Address, bps: u128) returns (amount: u128)
      modifies this`validators, this`totalStake
      ensures Model() == Deduct(old(Model()), a, amount) && amount == SlashAmount(old(Model()), a, bps)
    {
      if a !in validators {
        return 0;
      }
      var validator := validators[a];
      amount := AmountAtRate(validator.stake, bps);
      validators := validators[a := validator.(stake := SaturatingSub(validator.stake, amount))];
      totalStake := SaturatingSub(totalStake, amount);
    }

    // -------------------------------------------------------------- finality

    method CheckFinality(slot: u64) returns (report: bool)
      modifies this`lastReportedFinalized
      ensures Model() == HM.CheckFinality(old(Model()), slot)
      ensures report == NewlyFinal(old(Model()), slot)
    {
      if slot <= finalizedSlot && slot > lastReportedFinalized {
        lastReportedFinalized := slot;
        return true;
      }
      return false;
    }

    method RecordBlock(block: H256, parent: H256, slot: u64)
      modifies this`blockParents, this`blockSlots
      ensures Model() == HM.RecordBlock(old(Model()), block, parent, slot)
    {
      blockParents := blockParents[block := parent];
      blockSlots := blockSlots[block := slot];
    }
  }

  // ---------------------------------------------------------------- batches

  /** The votes worth a signature check, in order. */
  ghost function Prepared(bls: Bls, s: State, list: seq<Vote>): seq<Vote> {
    if list == [] then []
    else
      var n := |list| - 1;
      Prepared(bls, s, list[..n]) + if Addressed(bls, s, list[n]) then [list[n]] else []
  }

  /** What the batch check sees. */
  function Tuples(keys: map<Address, string>, bls: Bls, prepared: seq<Vote>): seq<(string, VoteMessage, string)> {
    seq(|prepared|, i requires 0 <= i < |prepared| =>
      var v := prepared[i];
      var a := bls.addressOf(v.validator);
      (if a in keys then keys[a] else "", VoteMessage(v.block, v.slot), v.signature))
  }

  /** The batch check returns an error, not a verdict. */
  ghost predicate BatchCheckFails(bls: Bls, s: State, list: seq<Vote>) {
    var prepared := Prepared(bls, s, list);
    prepared != [] && bls.verifyBatch(Tuples(s.blsKeys, bls, prepared)) == None
  }

  lemma {:induction false} PreparedGrows(bls: Bls, s: State, list: seq<Vote>, i: nat)
    requires i <= |list|
    ensures Prepared(bls, s, list[..i]) <= Prepared(bls, s, list)
    decreases |list|
  {
    if i == |list| {
      assert list[..i] == list;
    } else {
      var n := |list| - 1;
      assert list[..n][..i] == list[..i];
      PreparedGrows(bls, s, list[..n], i);
    }
  }

  /** A vote that is not rejected is the next prepared one. */
  lemma {:induction false} PreparedAt(bls: Bls, s: State, list: seq<Vote>, i: nat)
    requires i < |list| && Addressed(bls, s, list[i])
    ensures var k := |Prepared(bls, s, list[..i])|;
            k < |Prepared(bls, s, list)| && Prepared(bls, s, list)[k] == list[i]
  {
    assert list[..i + 1][..i] == list[..i];
    PreparedGrows(bls, s, list, i + 1);
  }

  lemma {:induction false} PreparedAddressed(bls: Bls, s: State, list: seq<Vote>)
    ensures forall v :: v in Prepared(bls, s, list) ==> Addressed(bls, s, v)
    decreases |list|
  {
    if list != [] {
      PreparedAddressed(bls, s, list[..|list| - 1]);
    }
  }

  /** Agreement on everything the vote checks read. */
  ghost predicate SameElectorate(s: State, t: State) {
    s.currentSlot == t.currentSlot && s.roster == t.roster && s.blsKeys == t.blsKeys
  }

  lemma {:induction false} ElectorateStays(bls: Bls, s: State, v: Vote)
    ensures SameElectorate(s, HM.ProcessVote(bls, s, v).0)
  {
    TallyElectorate(bls, Deposited(bls, s, v), v);
  }

  lemma {:induction false} TallyElectorate(bls: Bls, s: State, v: Vote)
    ensures SameElectorate(s, Tally(bls, s, v).0)
  {
  }

  lemma {:induction false} ElectorateDecides(bls: Bls, s: State, t: State, v: Vote)
    requires SameElectorate(s, t)
    ensures Addressed(bls, s, v) == Addressed(bls, t, v) && Accepted(bls, s, v) == Accepted(bls, t, v)
  {
  }

  lemma {:induction false} RejectedVote(bls: Bls, s: State, v: Vote)
    requires !Accepted(bls, s, v)
    ensures HM.ProcessVote(bls, s, v) == (s, Rejected)
  {
  }

  /** The first `i` votes are processed; `next` of them were prepared. */
  ghost predicate FedUpTo(bls: Bls, start: State, list: seq<Vote>, i: nat, s: State,
                          results: seq<Option<QuorumCertificate>>, next: nat)
  {
    && i <= |list| == |results|
    && (s, results[..i]) == ProcessEach(bls, start, list[..i])
    && SameElectorate(start, s)
    && next == |Prepared(bls, start, list[..i])|
  }

  /** What is known about the next vote. */
  lemma {:induction false} FedNext(bls: Bls, start: State, list: seq<Vote>, i: nat, s: State,
                                   results: seq<Option<QuorumCertificate>>, next: nat)
    requires i < |list| && FedUpTo(bls, start, list, i, s, results, next)
    ensures Addressed(bls, start, list[i]) ==>
              next < |Prepared(bls, start, list)| && Prepared(bls, start, list)[next] == list[i]
    ensures Accepted(bls, s, list[i]) == Accepted(bls, start, list[i])
  {
    ElectorateDecides(bls, start, s, list[i]);
    if Addressed(bls, start, list[i]) {
      PreparedAt(bls, start, list, i);
    }
  }

  lemma {:induction false} FedStep(bls: Bls, start: State, list: seq<Vote>, i: nat,
                                   s: State, results: seq<Option<QuorumCertificate>>, next: nat,
                                   t: State, results': seq<Option<QuorumCertificate>>, next': nat)
    requires i < |list| && FedUpTo(bls, start, list, i, s, results, next)
    requires t == HM.ProcessVote(bls, s, list[i]).0
    requires results' == results[i := CertificateOf(HM.ProcessVote(bls, s, list[i]).1)]
    requires next' == if Addressed(bls, start, list[i]) then next + 1 else next
    ensures FedUpTo(bls, start, list, i + 1, t, results', next')
  {
    assert list[..i + 1][..i] == list[..i];
    assert results'[..i + 1] == results[..i] + [results'[i]];
    ElectorateStays(bls, s, list[i]);
  }

  // ---------------------------------------------------------------- folds

  ghost function KeysAt(keys: set<QcKey>, slot: u64, phase: Phase): set<QcKey> {
    set k | k in keys && k.slot == slot && k.phase == phase
  }

  method CountCandidates(keys: set<QcKey>, slot: u64, phase: Phase) returns (count: nat)
    ensures count == |KeysAt(keys, slot, phase)|
  {
    var rest := keys;
    count := 0;
    while rest != {}
      invariant rest <= keys
      invariant count == |KeysAt(keys - rest, slot, phase)|
      decreases |rest|
    {
      var k :| k in rest;
      ghost var before := KeysAt(keys - rest, slot, phase);
      rest := rest - {k};
      if k.slot == slot && k.phase == phase {
        assert KeysAt(keys - rest, slot, phase) == before + {k};
        count := count + 1;
      } else {
        assert KeysAt(keys - rest, slot, phase) == before;
      }
    }
    assert keys - rest == keys;
  }

  method SumStakes(box: map<Address, Vote>) returns (sum: u128)
    ensures sum == SaturatedTotal(VotedStakes(box))
  {
    var rest := box.Keys;
    ghost var counted: map<Address, nat> := map[];
    sum := 0;
    while rest != {}
      invariant rest <= box.Keys
      invariant counted == Restrict(VotedStakes(box), box.Keys - rest)
      invariant sum == SaturatedTotal(counted)
      decreases |rest|
    {
      var a :| a in rest;
      TotalInsert(counted, a, box[a].stake);
      rest, counted := rest - {a}, counted[a := box[a].stake];
      sum := SaturatingAdd(sum, box[a].stake);
    }
    assert counted == VotedStakes(box);
  }
}
