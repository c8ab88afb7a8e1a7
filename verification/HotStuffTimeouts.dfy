/** View change: the certificate one node assembles from timeout votes, and what other nodes make of it. */
module HotStuffTimeouts {
  import opened Types
  import opened Totals
  import opened Validators
  import opened Quorum
  import opened HotStuffModel

  // ---------------------------------------------------------------- what BLS promises

  ghost predicate AllVerify(bls: Bls, keys: seq<string>, msgs: seq<Message>, sigs: seq<string>) {
    && |keys| == |msgs| == |sigs|
    && forall i :: 0 <= i < |keys| ==> bls.verify(keys[i], msgs[i], sigs[i]) == Some(true)
  }

  /** Distinct registered signers whose signatures verify one by one, and whose keys and signatures aggregate. */
  ghost predicate Aggregated(bls: Bls, m: Members, signers: seq<Address>, msgs: seq<Message>, sigs: seq<string>) {
    && signers != [] && Distinct(signers) && AllRegistered(m, signers)
    && AllVerify(bls, KeysOf(m, signers), msgs, sigs)
    && bls.aggregateKeys(KeysOf(m, signers)).Some? && bls.aggregateSignatures(sigs).Some?
  }

  ghost predicate AggregateVerifies(bls: Bls, m: Members, signers: seq<Address>, sigs: seq<string>, msg: Message) {
    && bls.aggregateKeys(KeysOf(m, signers)).Some? && bls.aggregateSignatures(sigs).Some?
    && bls.verify(bls.aggregateKeys(KeysOf(m, signers)).value, msg, bls.aggregateSignatures(sigs).value) == Some(true)
  }

  /** Members' signatures on one message aggregate to a valid signature on it. */
  ghost predicate AggregationComplete(bls: Bls, m: Members) {
    forall signers, msgs, sigs ::
      Aggregated(bls, m, signers, msgs, sigs) && (forall i :: 0 <= i < |msgs| ==> msgs[i] == msgs[0]) ==>
        AggregateVerifies(bls, m, signers, sigs, msgs[0])
  }

  /** Among the given messages, an aggregate of members' signatures verifies only on the one they all signed. */
  ghost predicate AggregationBinding(bls: Bls, m: Members, messages: set<Message>) {
    forall signers, msgs, sigs, msg ::
      && Aggregated(bls, m, signers, msgs, sigs) && AggregateVerifies(bls, m, signers, sigs, msg)
      && msg in messages && (forall i :: 0 <= i < |msgs| ==> msgs[i] in messages) ==>
        forall i :: 0 <= i < |msgs| ==> msgs[i] == msg
  }

  // ---------------------------------------------------------------- honest boxes

  /** Verified votes of one round, one per validator. */
  ghost predicate HonestBox(bls: Bls, m: Members, round: u64, list: seq<TimeoutVote>) {
    && (forall i :: 0 <= i < |list| ==> list[i].round == round && TimeoutVerifies(bls, m, list[i]))
    && Distinct(Signers(list))
  }

  ghost predicate HonestTimeouts(bls: Bls, s: State) {
    forall r :: r in s.timeoutVotes ==> HonestBox(bls, s.members, r, s.timeoutVotes[r])
  }

  lemma {:induction false} TimeoutBoxStaysHonest(bls: Bls, s: State, v: TimeoutVote)
    requires HonestTimeouts(bls, s) && TimeoutVerifies(bls, s.members, v)
             && !HasTimedOut(TimeoutBox(s, v.round), v.validator)
    ensures HonestBox(bls, s.members, v.round, TimeoutBox(s, v.round) + [v])
  {
    var box := TimeoutBox(s, v.round);
    var list := box + [v];
    forall i, j | 0 <= i < j < |list|
      ensures Signers(list)[i] != Signers(list)[j]
    {
      assert Signers(list)[i] == Signers(box)[i];
      if j < |box| {
        assert Signers(list)[j] == Signers(box)[j];
      }
    }
  }

  /** No key is replaced under a validator whose votes may be stored. */
  predicate KeepsKeys(s: State, step: Step) {
    step.Registered? ==> step.address !in s.members.blsKeys || s.members.blsKeys[step.address] == step.key
  }

  lemma {:induction false} StepKeepsHonest(bls: Bls, s: State, step: Step)
    requires HonestTimeouts(bls, s) && KeepsKeys(s, step)
    ensures HonestTimeouts(bls, Apply(bls, true, s, step).0)
  {
    match step {
      case TimedOut(v) => TimeoutKeepsHonest(bls, s, v);
      case RoundClosed(tc) => RoundKeepsHonest(bls, s, tc);
      case Registered(a, key) => RegisteringKeepsHonest(bls, s, a, key);
      case _ => TimeoutsUntouched(bls, s, step, Apply(bls, true, s, step).0);
    }
  }

  lemma {:induction false} TimeoutKeepsHonest(bls: Bls, s: State, v: TimeoutVote)
    requires HonestTimeouts(bls, s)
    ensures HonestTimeouts(bls, OnTimeoutVote(bls, s, v).0)
  {
    if TimeoutVerifies(bls, s.members, v) && !HasTimedOut(TimeoutBox(s, v.round), v.validator) {
      TimeoutBoxStaysHonest(bls, s, v);
    }
  }

  lemma {:induction false} RoundKeepsHonest(bls: Bls, s: State, tc: TimeoutCertificate)
    requires HonestTimeouts(bls, s)
    ensures HonestTimeouts(bls, OnTimeoutCertificate(bls, s, tc).0)
  {
  }

  lemma {:induction false} RegisteringKeepsHonest(bls: Bls, s: State, a: Address, key: string)
    requires HonestTimeouts(bls, s) && KeepsKeys(s, Registered(a, key))
    ensures HonestTimeouts(bls, s.(members := s.members.(blsKeys := s.members.blsKeys[a := key])))
  {
    var m := s.members.(blsKeys := s.members.blsKeys[a := key]);
    forall r | r in s.timeoutVotes ensures HonestBox(bls, m, r, s.timeoutVotes[r]) {
      assert HonestBox(bls, s.members, r, s.timeoutVotes[r]);
      BoxSurvivesKey(bls, s.members, m, r, s.timeoutVotes[r]);
    }
  }

  /** Verified votes stay verified when keys are only added. */
  lemma {:induction false} BoxSurvivesKey(bls: Bls, m: Members, n: Members, round: u64, list: seq<TimeoutVote>)
    requires HonestBox(bls, m, round, list) && n.validators == m.validators
    requires forall a :: a in m.blsKeys ==> a in n.blsKeys && n.blsKeys[a] == m.blsKeys[a]
    ensures HonestBox(bls, n, round, list)
  {
    forall i | 0 <= i < |list| ensures TimeoutVerifies(bls, n, list[i]) {
      assert TimeoutVerifies(bls, m, list[i]);
    }
  }

  lemma {:induction false} TimeoutsUntouched(bls: Bls, s: State, step: Step, t: State)
    requires t == Apply(bls, true, s, step).0
    requires !step.TimedOut? && !step.RoundClosed? && !step.Registered?
    ensures t.timeoutVotes == s.timeoutVotes && t.members == s.members
  {
    if step.Voted? && VoteVerifies(bls, s.members, step.vote) {
      var v := step.vote;
      CountLeavesTimeouts(bls, s.(tables := TrackIfNew(s.tables, v.block, v.parent, v.slot)), v);
    }
  }

  lemma {:induction false} CountLeavesTimeouts(bls: Bls, s: State, v: HotStuffVote)
    requires v.validator in s.members.validators
    ensures CountVote(bls, true, s, v).0.timeoutVotes == s.timeoutVotes
            && CountVote(bls, true, s, v).0.members == s.members
  {
    var key := BoxKey(v.phase, v.block);
    var s1 := s.(votes := s.votes[key := Box(s, key) + [v]]);
    var qc := Aggregate(bls, s.members, Box(s, key) + [v]);
    if qc.Some? {
      CertificateLeavesTimeouts(bls, s1.(tables := AddQc(s1.tables, QcKey(v.slot, v.phase, v.block), qc.value)), v,
                                qc.value);
    }
  }

  lemma {:induction false} CertificateLeavesTimeouts(bls: Bls, s: State, v: HotStuffVote, qc: AggregatedVote)
    ensures var t := OnCertificate(bls, true, s, v, qc).0; t.timeoutVotes == s.timeoutVotes && t.members == s.members
  {
  }

  lemma {:induction false} RunKeepsHonest(bls: Bls, m: Members, steps: seq<Step>)
    requires forall i :: 0 <= i < |steps| ==> KeepsKeys(Run(bls, true, Fresh(m), steps[..i]), steps[i])
    ensures HonestTimeouts(bls, Run(bls, true, Fresh(m), steps))
    decreases |steps|
  {
    if steps != [] {
      var n := |steps| - 1;
      forall i | 0 <= i < n
        ensures KeepsKeys(Run(bls, true, Fresh(m), steps[..n][..i]), steps[..n][i])
      {
        assert steps[..n][..i] == steps[..i];
      }
      RunKeepsHonest(bls, m, steps[..n]);
      StepKeepsHonest(bls, Run(bls, true, Fresh(m), steps[..n]), steps[n]);
    }
  }

  // ---------------------------------------------------------------- stakes

  ghost function SetOf(signers: seq<Address>): set<Address> {
    set i | 0 <= i < |signers| :: signers[i]
  }

  /** Distinct members weigh what the local validator set gives them, never more than the total. */
  lemma {:induction false} SignerStakeIsWeight(m: Members, signers: seq<Address>)
    requires Distinct(signers) && forall i :: 0 <= i < |signers| ==> signers[i] in m.validators
    ensures SignerStake(m, signers) == Weight(Stakes(m.validators), SetOf(signers))
    decreases |signers|
  {
    var stakes := Stakes(m.validators);
    if signers == [] {
      assert Restrict(stakes, SetOf(signers)) == map[];
    } else {
      var n := |signers| - 1;
      SignerStakeIsWeight(m, signers[..n]);
      assert SetOf(signers) == SetOf(signers[..n]) + {signers[n]};
      WeightUnion(stakes, SetOf(signers[..n]), {signers[n]});
      WeightOfOne(stakes, signers[n]);
    }
  }

  lemma {:induction false} BoxStakeIsSignerStake(bls: Bls, m: Members, round: u64, list: seq<TimeoutVote>)
    requires HonestBox(bls, m, round, list)
    ensures SumOfTimeouts(list) == SignerStake(m, Signers(list))
    decreases |list|
  {
    if list != [] {
      var n := |list| - 1;
      assert Signers(list[..n]) == Signers(list)[..n];
      BoxStakeIsSignerStake(bls, m, round, list[..n]);
      assert TimeoutVerifies(bls, m, list[n]);
    }
  }

  // ---------------------------------------------------------------- the certificate

  predicate Names(v: TimeoutVote, qcSlot: u64, qcHash: H256) {
    v.qcSlot == qcSlot && v.qcHash == qcHash
  }

  /** All votes name one certificate, the zero hash if its slot is zero. */
  predicate Unanimous(list: seq<TimeoutVote>) {
    forall i :: 0 <= i < |list| ==>
      Names(list[i], list[0].qcSlot, list[0].qcHash) && (list[i].qcSlot == 0 ==> list[i].qcHash == ZERO_HASH)
  }

  lemma {:induction false} HighestIsMaximal(list: seq<TimeoutVote>)
    ensures forall i :: 0 <= i < |list| ==> list[i].qcSlot <= HighestNamed(list).0
    ensures HighestNamed(list) == (0, ZERO_HASH)
            || exists i :: 0 <= i < |list| && Names(list[i], HighestNamed(list).0, HighestNamed(list).1)
    decreases |list|
  {
    if list != [] {
      var n := |list| - 1;
      HighestIsMaximal(list[..n]);
      var best := HighestNamed(list[..n]);
      if best == HighestNamed(list) && best != (0, ZERO_HASH) {
        var i :| 0 <= i < n && Names(list[..n][i], best.0, best.1);
        assert Names(list[i], best.0, best.1);
      }
    }
  }

  /** The votes agree exactly when each of them names the certificate's highest QC. */
  lemma {:induction false} UnanimousIff(list: seq<TimeoutVote>)
    requires list != []
    ensures Unanimous(list) <==> forall i :: 0 <= i < |list| ==>
              Names(list[i], HighestNamed(list).0, HighestNamed(list).1)
  {
    HighestIsMaximal(list);
    assert list[0].qcSlot <= HighestNamed(list).0;
    if forall i :: 0 <= i < |list| ==> Names(list[i], HighestNamed(list).0, HighestNamed(list).1) {
      ZeroSlotZeroHash(list);
    }
  }

  lemma {:induction false} ZeroSlotZeroHash(list: seq<TimeoutVote>)
    ensures HighestNamed(list).0 == 0 ==> HighestNamed(list).1 == ZERO_HASH
    decreases |list|
  {
    if list != [] {
      ZeroSlotZeroHash(list[..|list| - 1]);
    }
  }

  ghost function SignedMessages(list: seq<TimeoutVote>): seq<Message> {
    seq(|list|, i requires 0 <= i < |list| => TimeoutMessage(list[i].round, list[i].qcSlot, list[i].qcHash))
  }

  lemma {:induction false} BoxSignaturesVerify(bls: Bls, m: Members, round: u64, list: seq<TimeoutVote>)
    requires HonestBox(bls, m, round, list)
    ensures AllVerify(bls, KeysOf(m, Signers(list)), SignedMessages(list), Signatures(list))
    ensures AllRegistered(m, Signers(list))
  {
    forall i | 0 <= i < |list|
      ensures Signers(list)[i] in m.blsKeys
      ensures bls.verify(KeysOf(m, Signers(list))[i], SignedMessages(list)[i], Signatures(list)[i]) == Some(true)
    {
      assert TimeoutVerifies(bls, m, list[i]);
    }
  }

  /** Another node agrees on who the validators are and which keys they hold. */
  predicate SameMembers(m: Members, n: Members) {
    m.validators == n.validators && m.totalStake == n.totalStake && m.blsKeys == n.blsKeys
  }

  /** Everything but the signature check of a certificate made from an honest box passes elsewhere. */
  lemma {:induction false} SignersPass(bls: Bls, m: Members, n: Members, round: u64, list: seq<TimeoutVote>)
    requires HonestBox(bls, m, round, list) && SameMembers(m, n)
    requires Total(Stakes(m.validators)) <= U128_MAX
    requires HasQuorum(Min(SumOfTimeouts(list), U128_MAX), m.totalStake)
    ensures Distinct(Signers(list)) && AllRegistered(n, Signers(list)) && SignerStake(n, Signers(list)) <= U128_MAX
    ensures forall i :: 0 <= i < |list| ==> Signers(list)[i] in n.validators
    ensures HasQuorum(SignerStake(n, Signers(list)), n.totalStake)
  {
    forall i | 0 <= i < |list|
      ensures Signers(list)[i] in m.validators && Signers(list)[i] in m.blsKeys
    {
      assert TimeoutVerifies(bls, m, list[i]);
    }
    BoxStakeIsSignerStake(bls, m, round, list);
    SignerStakeIsWeight(m, Signers(list));
    SignerStakeIsWeight(n, Signers(list));
    WeightAtMost(Stakes(m.validators), SetOf(Signers(list)));
  }

  /** The messages a certificate made from these votes can be about. */
  ghost function InPlay(round: u64, list: seq<TimeoutVote>): set<Message> {
    {TimeoutMessage(round, 0, ZERO_HASH)} + set i | 0 <= i < |list| :: SignedMessages(list)[i]
  }

  lemma {:induction false} CertificateIsInPlay(round: u64, list: seq<TimeoutVote>)
    requires forall i :: 0 <= i < |list| ==> list[i].round == round
    ensures TimeoutMessage(round, HighestNamed(list).0, HighestNamed(list).1) in InPlay(round, list)
  {
    HighestIsMaximal(list);
    var best := HighestNamed(list);
    if best != (0, ZERO_HASH) {
      var i :| 0 <= i < |list| && Names(list[i], best.0, best.1);
      assert SignedMessages(list)[i] == TimeoutMessage(round, best.0, best.1);
    }
  }

  /** ROUND TRIP. A certificate assembled from honest votes is accepted by another node with the same
      validators and keys if and only if all its votes name one and the same highest certificate. */
  lemma {:induction false} TimeoutRoundTripIff(bls: Bls, s: State, v: TimeoutVote, n: Members)
    requires AggregationComplete(bls, s.members)
    requires AggregationBinding(bls, s.members, InPlay(v.round, TimeoutBox(s, v.round) + [v]))
    requires HonestTimeouts(bls, s) && SameMembers(s.members, n) && Total(Stakes(n.validators)) <= U128_MAX
    requires OnTimeoutVote(bls, s, v).1.Certified?
    ensures var (s', reply) := OnTimeoutVote(bls, s, v);
            CertificateVerifies(bls, n, reply.tc) <==> Unanimous(TimeoutBox(s', v.round))
  {
    var list := TimeoutBox(s, v.round) + [v];
    var tc := OnTimeoutVote(bls, s, v).1.tc;
    TimeoutBoxStaysHonest(bls, s, v);
    SignersPass(bls, s.members, n, v.round, list);
    BoxSignaturesVerify(bls, s.members, v.round, list);
    UnanimousIff(list);
    var msgs := SignedMessages(list);
    assert KeysOf(n, tc.signers) == KeysOf(s.members, Signers(list));
    assert forall i :: 0 <= i < |list| ==> msgs[i] == TimeoutMessage(v.round, list[i].qcSlot, list[i].qcHash);
    var msg := TimeoutMessage(tc.round, tc.qcSlot, tc.qcHash);
    assert forall i :: 0 <= i < |list| ==> (msgs[i] == msg <==> Names(list[i], tc.qcSlot, tc.qcHash));
    CertificateIsInPlay(v.round, list);
    AggregateVerifiesIff(bls, s.members, Signers(list), msgs, Signatures(list), msg, InPlay(v.round, list));
  }

  /** One aggregate check stands for all the single ones. */
  lemma {:induction false} AggregateVerifiesIff(bls: Bls, m: Members, signers: seq<Address>, msgs: seq<Message>,
                                                sigs: seq<string>, msg: Message, messages: set<Message>)
    requires AggregationComplete(bls, m) && AggregationBinding(bls, m, messages)
    requires Aggregated(bls, m, signers, msgs, sigs)
    requires msg in messages && forall i :: 0 <= i < |msgs| ==> msgs[i] in messages
    ensures AggregateVerifies(bls, m, signers, sigs, msg) <==> forall i :: 0 <= i < |msgs| ==> msgs[i] == msg
  {
  }

  /** What an accepted certificate does to a node: the lock never falls, the next slot starts in
      Propose with no votes, and exactly the timeout votes of later rounds survive. */
  lemma {:induction false} AcceptedCertificate(bls: Bls, s: State, tc: TimeoutCertificate)
    requires CertificateVerifies(bls, s.members, tc) && s.progress.slot < U64_MAX
    ensures var (t, accepted) := OnTimeoutCertificate(bls, s, tc);
            && accepted
            && t.progress.lockedSlot == Max(s.progress.lockedSlot, tc.qcSlot)
            && (t.progress.lockedSlot > s.progress.lockedSlot ==> t.progress.lockedBlock == Some(tc.qcHash))
            && (t.progress.lockedSlot == s.progress.lockedSlot ==> t.progress.lockedBlock == s.progress.lockedBlock)
            && t.progress.slot == s.progress.slot + 1 && t.progress.phase == Propose && t.votes == map[]
            && t.tables == s.tables && t.progress.finalizedSlot == s.progress.finalizedSlot
            && (forall r :: r in t.timeoutVotes <==> r in s.timeoutVotes && r > tc.round)
            && (forall r :: r in t.timeoutVotes ==> t.timeoutVotes[r] == s.timeoutVotes[r])
  {
  }

  // ---------------------------------------------------------------- a certificate nobody accepts

  /** Two validators of equal stake, who both have to sign. */
  ghost predicate Pair(m: Members, a: Address, b: Address, stake: u128) {
    && a != b && stake > 0 && m.totalStake == 2 * stake
    && m.validators.Keys == {a, b} && m.validators[a].stake == stake && m.validators[b].stake == stake
  }

  /** Two honest timeout votes of one round that name certificates of different slots: the node certifies the
      round, and no node with the same members accepts the certificate. */
  lemma {:induction false} SplitTimeoutsAreRefused(bls: Bls, m: Members, x: TimeoutVote, y: TimeoutVote, n: Members)
    requires AggregationComplete(bls, m) && AggregationBinding(bls, m, InPlay(x.round, [x, y]))
    requires Pair(m, x.validator, y.validator, x.stake) && SameMembers(m, n)
    requires TimeoutVerifies(bls, m, x) && TimeoutVerifies(bls, m, y) && x.round == y.round && x.qcSlot != y.qcSlot
    requires bls.aggregateSignatures([x.signature, y.signature]).Some?
    requires bls.aggregateKeys([m.blsKeys[x.validator], m.blsKeys[y.validator]]).Some?
    ensures var s := Run(bls, true, Fresh(m), [TimedOut(x)]);
            OnTimeoutVote(bls, s, y).1.Certified? && !CertificateVerifies(bls, n, OnTimeoutVote(bls, s, y).1.tc)
  {
    var s := Run(bls, true, Fresh(m), [TimedOut(x)]);
    RunSnoc(bls, true, Fresh(m), [], TimedOut(x));
    assert [] + [TimedOut(x)] == [TimedOut(x)];
    assert [] + [x] == [x] && [x] + [y] == [x, y];
    assert s == OnTimeoutVote(bls, Fresh(m), x).0;
    assert !HasTimedOut([], x.validator) && TimeoutBox(Fresh(m), x.round) == [];
    assert s.members == m && TimeoutBox(s, x.round) == [x];
    RunKeepsHonest(bls, m, [TimedOut(x)]);
    PairCertifies(bls, m, x, y);
    TimeoutRoundTripIff(bls, s, y, n);
    assert !Unanimous([x, y]);
  }

  lemma {:induction false} PairCertifies(bls: Bls, m: Members, x: TimeoutVote, y: TimeoutVote)
    requires Pair(m, x.validator, y.validator, x.stake)
    requires TimeoutVerifies(bls, m, x) && TimeoutVerifies(bls, m, y)
    requires bls.aggregateSignatures([x.signature, y.signature]).Some?
    requires bls.aggregateKeys([m.blsKeys[x.validator], m.blsKeys[y.validator]]).Some?
    ensures CertifyTimeout(bls, m, y.round, [x, y]).Certified?
    ensures Total(Stakes(m.validators)) <= U128_MAX
  {
    var list := [x, y];
    assert list[..1] == [x] && [x][..0] == [];
    assert SumOfTimeouts([x]) == x.stake && SumOfTimeouts(list) == 2 * x.stake;
    assert Signatures(list) == [x.signature, y.signature];
    assert KeysOf(m, Signers(list)) == [m.blsKeys[x.validator], m.blsKeys[y.validator]];
    assert Stakes(m.validators) == map[x.validator := x.stake][y.validator := x.stake];
    TotalInsert(map[], x.validator, x.stake);
    assert map[][x.validator := x.stake] == map[x.validator := x.stake];
    TotalInsert(map[x.validator := x.stake], y.validator, x.stake);
  }
}
