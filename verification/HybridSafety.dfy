/** What every run of the hybrid engine keeps: every certificate is backed by recorded votes, so at most one
    block is certified per slot. */
module HybridSafety {
  import opened Types
  import opened Validators
  import opened Totals
  import opened Quorum
  import opened Slashing
  import opened HybridModel

  // ---------------------------------------------------------------- the invariant

  ghost predicate StakesBounded(s: State) {
    && Total(Stakes(s.roster.validators)) <= s.roster.totalStake
    && Total(Stakes(s.roster.epochValidators)) <= s.roster.epochTotalStake
    && s.roster.validators.Keys == s.roster.epochValidators.Keys
  }

  /** This voter is on record for `block` at the current slot. */
  predicate OnRecord(s: State, a: Address, block: H256) {
    var key := VoterSlot(s.currentSlot, a);
    key in s.voteRecord && s.voteRecord[key] == block
  }

  /** Every vote in a box is by a member, weighs the member's epoch stake and is on record. */
  ghost predicate BoxHonest(s: State, block: H256, box: map<Address, Vote>) {
    && box != map[]
    && forall a :: a in box ==>
         && a in s.roster.epochValidators
         && box[a].stake == s.roster.epochValidators[a].stake
         && OnRecord(s, a, block)
  }

  ghost predicate BoxesHonest(s: State) {
    forall k :: k in s.votes ==> k.slot == s.currentSlot && BoxHonest(s, k.block, s.votes[k])
  }

  ghost predicate Ordered(s: State) {
    && s.progress.finalizedSlot <= s.progress.committedSlot <= s.currentSlot
    && s.progress.lockedSlot <= s.currentSlot
    && s.progress.lastReported <= s.progress.finalizedSlot
    && forall k :: k in s.qcs ==> k.slot <= s.currentSlot
  }

  ghost predicate Inv(s: State) {
    StakesBounded(s) && BoxesHonest(s) && Ordered(s)
  }

  ghost function Supporters(s: State, block: H256): set<Address> {
    set a | a in s.roster.epochValidators && OnRecord(s, a, block)
  }

  /** The validators on record for `block` at the current slot hold a quorum of the epoch's stake. */
  ghost predicate Backed(s: State, block: H256) {
    var w := Weight(Stakes(s.roster.epochValidators), Supporters(s, block));
    w < TWO128 && HasQuorum(w, s.roster.epochTotalStake)
  }

  /** `formed` is the set of all certificates ever handed out. */
  ghost predicate History(s: State, formed: set<QcKey>) {
    && s.qcs.Keys <= formed
    && (forall k :: k in formed ==> k.slot <= s.currentSlot)
    && (forall k :: k in formed && k.slot == s.currentSlot ==> Backed(s, k.block))
    && (forall k, l :: k in formed && l in formed && k.slot == l.slot ==> k.block == l.block)
  }

  // ---------------------------------------------------------------- quorums within one slot

  lemma {:induction false} QuorumGrows(low: u128, high: u128, total: u128)
    requires low <= high && HasQuorum(low, total)
    ensures HasQuorum(high, total)
  {
    HasQuorumIff(low, total);
    HasQuorumIff(high, total);
  }

  /** Two different blocks cannot both be backed at one slot: they would share a voter, and a voter
      is on record for one block only. */
  lemma {:induction false} BackedIsUnique(s: State, a: H256, b: H256)
    requires StakesBounded(s) && Backed(s, a) && Backed(s, b)
    ensures a == b
  {
    QuorumsMeet(Stakes(s.roster.epochValidators), s.roster.epochTotalStake, Supporters(s, a), Supporters(s, b)) by {
      WeightAtMost(Stakes(s.roster.epochValidators), Supporters(s, a));
      WeightAtMost(Stakes(s.roster.epochValidators), Supporters(s, b));
    }
  }

  /** More votes on record keep a block backed. */
  lemma {:induction false} BackedGrows(s: State, t: State, block: H256)
    requires StakesBounded(s) && Backed(s, block)
    requires t.roster == s.roster
    requires Supporters(s, block) <= Supporters(t, block)
    ensures Backed(t, block)
  {
    var stakes := Stakes(s.roster.epochValidators);
    WeightMonotone(stakes, Supporters(s, block), Supporters(t, block));
    WeightAtMost(stakes, Supporters(t, block));
    QuorumGrows(Weight(stakes, Supporters(s, block)), Weight(stakes, Supporters(t, block)), s.roster.epochTotalStake);
  }

  /** A box that passes the quorum test backs its block. */
  lemma {:induction false} FullBoxBacks(s: State, block: H256, box: map<Address, Vote>)
    requires StakesBounded(s) && BoxHonest(s, block, box)
    requires HasQuorum(SaturatedTotal(VotedStakes(box)), s.roster.epochTotalStake)
    ensures Backed(s, block)
  {
    var stakes := Stakes(s.roster.epochValidators);
    assert VotedStakes(box) == Restrict(stakes, box.Keys);
    assert box.Keys <= Supporters(s, block);
    WeightMonotone(stakes, box.Keys, Supporters(s, block));
    WeightAtMost(stakes, Supporters(s, block));
    QuorumGrows(SaturatedTotal(VotedStakes(box)), Weight(stakes, Supporters(s, block)), s.roster.epochTotalStake);
  }

  // ---------------------------------------------------------------- one vote

  /** The state after the vote is on record and in its box, before the quorum test. */
  ghost function Deposited(bls: Bls, s: State, v: Vote): State {
    var a := bls.addressOf(v.validator);
    var key := QcKey(v.slot, s.progress.phase, v.block);
    s.(voteRecord := s.voteRecord[VoterSlot(v.slot, a) := v.block],
       votes := s.votes[key := Box(s, key)[a := v]])
  }

  lemma {:induction false} DepositKeeps(bls: Bls, s: State, v: Vote, formed: set<QcKey>)
    requires Inv(s) && History(s, formed)
    requires Accepted(bls, s, v) && !Equivocates(bls, s, v)
    ensures Inv(Deposited(bls, s, v)) && History(Deposited(bls, s, v), formed)
    ensures BoxHonest(Deposited(bls, s, v), v.block,
                      Box(Deposited(bls, s, v), QcKey(v.slot, s.progress.phase, v.block)))
  {
    var t := Deposited(bls, s, v);
    DepositBoxes(bls, s, v, t);
    HistoryGrows(s, t, formed);
  }

  lemma {:induction false} DepositBoxes(bls: Bls, s: State, v: Vote, t: State)
    requires BoxesHonest(s) && Accepted(bls, s, v) && !Equivocates(bls, s, v) && t == Deposited(bls, s, v)
    ensures BoxesHonest(t) && forall a, b :: OnRecord(s, a, b) ==> OnRecord(t, a, b)
  {
    forall k | k in t.votes
      ensures k.slot == t.currentSlot && BoxHonest(t, k.block, t.votes[k])
    {
      assert bls.addressOf(v.validator) in t.votes[QcKey(v.slot, s.progress.phase, v.block)];
      if k in s.votes {
        assert BoxHonest(s, k.block, s.votes[k]);
      }
    }
  }

  lemma {:induction false} HistoryGrows(s: State, t: State, formed: set<QcKey>)
    requires StakesBounded(s) && History(s, formed)
    requires t.roster == s.roster
    requires t.currentSlot == s.currentSlot && t.qcs == s.qcs
    requires forall a, b :: OnRecord(s, a, b) ==> OnRecord(t, a, b)
    ensures History(t, formed)
  {
    forall k | k in formed && k.slot == t.currentSlot
      ensures Backed(t, k.block)
    {
      assert Supporters(s, k.block) <= Supporters(t, k.block);
      BackedGrows(s, t, k.block);
    }
  }

  /** The vote is on record but in no box: only the history needs checking. */
  lemma {:induction false} RecordOnlyKeeps(bls: Bls, s: State, v: Vote, formed: set<QcKey>)
    requires Inv(s) && History(s, formed)
    requires Accepted(bls, s, v) && !Equivocates(bls, s, v)
    ensures var t := s.(voteRecord := s.voteRecord[VoterSlot(v.slot, bls.addressOf(v.validator)) := v.block]);
            Inv(t) && History(t, formed)
  {
    var t := s.(voteRecord := s.voteRecord[VoterSlot(v.slot, bls.addressOf(v.validator)) := v.block]);
    forall k | k in t.votes
      ensures k.slot == t.currentSlot && BoxHonest(t, k.block, t.votes[k])
    {
      assert BoxHonest(s, k.block, s.votes[k]);
    }
    HistoryGrows(s, t, formed);
  }

  ghost function KeyOf(qc: QuorumCertificate): QcKey {
    QcKey(qc.slot, qc.phase, qc.block)
  }

  /** A certificate for a backed block joins the history. */
  lemma {:induction false} CertifyKeeps(s: State, t: State, key: QcKey, qc: QuorumCertificate, formed: set<QcKey>)
    requires StakesBounded(s) && History(s, formed)
    requires key.slot == s.currentSlot && Backed(s, key.block)
    requires t.roster == s.roster
    requires t.currentSlot == s.currentSlot && t.voteRecord == s.voteRecord
    requires t.qcs == s.qcs[key := qc]
    ensures History(t, formed + {key})
  {
    forall k | k in formed + {key} && k.slot == t.currentSlot
      ensures Backed(t, k.block) && k.block == key.block
    {
      BackedGrows(s, t, k.block);
      BackedIsUnique(s, k.block, key.block);
    }
  }

  /** Everything a certificate leaves alone. */
  ghost predicate SameElection(s: State, t: State) {
    && t.roster == s.roster && t.currentSlot == s.currentSlot
    && t.votes == s.votes && t.voteRecord == s.voteRecord
  }

  lemma {:induction false} OnQuorumKeeps(s: State, v: Vote, p: Progress)
    requires Ordered(s) && v.slot == s.currentSlot && p == OnQuorum(s, v)
    ensures p.finalizedSlot <= p.committedSlot <= s.currentSlot
    ensures p.lockedSlot <= s.currentSlot
    ensures p.lastReported <= p.finalizedSlot
  {
    assert FinalizedBy(s, v.block, Propose) <= s.currentSlot;
    assert FinalizedBy(s, v.block, Prevote) <= s.currentSlot;
  }

  lemma {:induction false} TallyKeeps(bls: Bls, s: State, v: Vote, formed: set<QcKey>)
    requires Inv(s) && History(s, formed) && v.slot == s.currentSlot
    requires BoxHonest(s, v.block, Box(s, QcKey(v.slot, s.progress.phase, v.block)))
    ensures var (t, o) := Tally(bls, s, v);
            Inv(t) && History(t, if o.Formed? then formed + {KeyOf(o.qc)} else formed)
  {
    var (t, o) := Tally(bls, s, v);
    if o.Formed? {
      var key := QcKey(v.slot, s.progress.phase, v.block);
      FullBoxBacks(s, v.block, Box(s, key));
      TallyForms(bls, s, v);
      CertifyKeeps(s, t, key, o.qc, formed);
      BoxesUnchanged(s, t);
    }
  }

  /** Forming a certificate changes no votes and keeps the slot order. */
  lemma {:induction false} TallyForms(bls: Bls, s: State, v: Vote)
    requires Ordered(s) && v.slot == s.currentSlot && Tally(bls, s, v).1.Formed?
    ensures var (t, o) := Tally(bls, s, v);
            var key := QcKey(v.slot, s.progress.phase, v.block);
            && KeyOf(o.qc) == key && t.qcs == s.qcs[key := o.qc]
            && SameElection(s, t) && Ordered(t)
            && HasQuorum(SaturatedTotal(VotedStakes(Box(s, key))), s.roster.epochTotalStake)
  {
    var o := Tally(bls, s, v).1;
    var certified := s.(qcs := s.qcs[QcKey(v.slot, s.progress.phase, v.block) := o.qc]);
    if |s.roster.epochValidators| != 1 {
      OnQuorumKeeps(certified, v, OnQuorum(certified, v));
    }
  }

  lemma {:induction false} BoxesUnchanged(s: State, t: State)
    requires BoxesHonest(s)
    requires t.votes == s.votes && t.voteRecord == s.voteRecord
    requires t.currentSlot == s.currentSlot && t.roster == s.roster
    ensures BoxesHonest(t)
  {
    forall k | k in t.votes
      ensures k.slot == t.currentSlot && BoxHonest(t, k.block, t.votes[k])
    {
      assert BoxHonest(s, k.block, s.votes[k]);
    }
  }

  lemma {:induction false} VoteKeeps(bls: Bls, s: State, v: Vote, formed: set<QcKey>)
    requires Inv(s) && History(s, formed)
    ensures var (t, o) := ProcessVote(bls, s, v);
            Inv(t) && History(t, if o.Formed? then formed + {KeyOf(o.qc)} else formed)
  {
    if Accepted(bls, s, v) && !Equivocates(bls, s, v) {
      RecordOnlyKeeps(bls, s, v, formed);
      DepositKeeps(bls, s, v, formed);
      TallyKeeps(bls, Deposited(bls, s, v), v, formed);
    }
  }

  // ---------------------------------------------------------------- the other steps

  lemma {:induction false} TickKeeps(s: State, formed: set<QcKey>)
    requires Inv(s) && History(s, formed) && s.currentSlot < U64_MAX
    ensures Inv(AdvanceSlot(s)) && History(AdvanceSlot(s), formed)
  {
  }

  lemma {:induction false} StakeReplaced(m: map<Address, ValidatorInfo>, a: Address, left: u128)
    requires a in m
    ensures Total(Stakes(m[a := m[a].(stake := left)])) == Total(Stakes(m)) - m[a].stake + left
  {
    assert Stakes(m[a := m[a].(stake := left)]) == Stakes(m)[a := left];
    TotalInsert(Stakes(m), a, left);
  }

  /** Taking at most the validator's stake keeps the total an upper bound. */
  lemma {:induction false} DeductKeeps(s: State, a: Address, amount: u128, formed: set<QcKey>)
    requires Inv(s) && History(s, formed)
    requires a in s.roster.validators ==> amount <= s.roster.validators[a].stake
    ensures Inv(Deduct(s, a, amount)) && History(Deduct(s, a, amount), formed)
  {
    var t := Deduct(s, a, amount);
    if a in s.roster.validators {
      StakeReplaced(s.roster.validators, a, s.roster.validators[a].stake - amount);
      assert t.roster.validators.Keys == s.roster.validators.Keys;
    }
    SameEpochKeeps(s, t, formed);
  }

  lemma {:induction false} SameEpochKeeps(s: State, t: State, formed: set<QcKey>)
    requires Inv(s) && History(s, formed)
    requires t.roster.epochValidators == s.roster.epochValidators
             && t.roster.epochTotalStake == s.roster.epochTotalStake
    requires t == s.(roster := t.roster)
    ensures BoxesHonest(t) && Ordered(t) && History(t, formed)
  {
    forall k | k in t.votes
      ensures k.slot == t.currentSlot && BoxHonest(t, k.block, t.votes[k])
    {
      assert BoxHonest(s, k.block, s.votes[k]);
    }
    forall k | k in formed && k.slot == t.currentSlot
      ensures Backed(t, k.block)
    {
      assert Supporters(t, k.block) == Supporters(s, k.block);
    }
  }

  /** The handlers that touch neither votes nor stakes. */
  lemma {:induction false} BystanderKeeps(s: State, t: State, formed: set<QcKey>)
    requires Inv(s) && History(s, formed)
    requires t.roster == s.roster && t.currentSlot == s.currentSlot && t.voteRecord == s.voteRecord && t.qcs == s.qcs
    requires t.votes == s.votes || t.votes == map[]
    requires t.progress.lockedSlot == s.progress.lockedSlot && t.progress.committedSlot == s.progress.committedSlot
    requires t.progress.finalizedSlot == s.progress.finalizedSlot
    requires t.progress.lastReported <= t.progress.finalizedSlot
    ensures Inv(t) && History(t, formed)
  {
    if t.votes == s.votes {
      BoxesUnchanged(s, t);
    }
    HistoryGrows(s, t, formed);
  }

  ghost function WithCertificate(formed: set<QcKey>, qc: Option<QuorumCertificate>): set<QcKey> {
    if qc.Some? then formed + {KeyOf(qc.value)} else formed
  }

  lemma {:induction false} StepKeeps(bls: Bls, s: State, step: Step, formed: set<QcKey>)
    requires Inv(s) && History(s, formed) && Permitted(s, step)
    ensures Inv(Apply(bls, s, step))
    ensures History(Apply(bls, s, step), WithCertificate(formed, Certificate(bls, s, step)))
  {
    match step {
      case Cast(v) =>
        VoteKeeps(bls, s, v, formed);
      case Tick =>
        TickKeeps(s, formed);
      case Slash(a, bps) =>
        SlashKeeps(s, a, bps, formed);
      case _ =>
        QuietStepKeeps(bls, s, step, Apply(bls, s, step), formed);
    }
  }

  /** The steps that touch neither votes nor stakes. */
  lemma {:induction false} QuietStepKeeps(bls: Bls, s: State, step: Step, t: State, formed: set<QcKey>)
    requires Inv(s) && History(s, formed) && !step.Cast? && !step.Tick? && !step.Slash?
    requires t == Apply(bls, s, step)
    ensures Inv(t) && History(t, formed)
  {
    QuietStepFrame(bls, s, step, t);
    BystanderKeeps(s, t, formed);
  }

  /** What such a step leaves alone. */
  ghost predicate QuietFrame(s: State, t: State) {
    && t.roster == s.roster && t.currentSlot == s.currentSlot && t.voteRecord == s.voteRecord && t.qcs == s.qcs
    && (t.votes == s.votes || t.votes == map[])
    && t.progress.lockedSlot == s.progress.lockedSlot && t.progress.committedSlot == s.progress.committedSlot
    && t.progress.finalizedSlot == s.progress.finalizedSlot
    && s.progress.lastReported <= t.progress.lastReported <= t.progress.finalizedSlot
  }

  lemma {:induction false} QuietStepFrame(bls: Bls, s: State, step: Step, t: State)
    requires Ordered(s) && !step.Cast? && !step.Tick? && !step.Slash? && t == Apply(bls, s, step)
    ensures QuietFrame(s, t)
  {
    match step {
      case Report(slot) => ReportFrame(s, slot);
      case Record(b, p, slot) => RecordFrame(s, b, p, slot);
      case Timeout => TimeoutFrame(s);
      case SkipPhase => PhaseFrame(s, NextPhase(s.progress.phase));
      case Register(a, key) => assert t == s.(blsKeys := s.blsKeys[a := key]);
      case Cast(_) =>
      case Tick =>
      case Slash(_, _) =>
    }
  }

  lemma {:induction false} ReportFrame(s: State, slot: u64)
    requires Ordered(s)
    ensures QuietFrame(s, CheckFinality(s, slot))
  {
  }

  lemma {:induction false} RecordFrame(s: State, block: H256, parent: H256, slot: u64)
    requires Ordered(s)
    ensures QuietFrame(s, RecordBlock(s, block, parent, slot))
  {
  }

  lemma {:induction false} TimeoutFrame(s: State)
    requires Ordered(s)
    ensures QuietFrame(s, OnTimeout(s))
  {
  }

  lemma {:induction false} PhaseFrame(s: State, phase: Phase)
    requires Ordered(s)
    ensures QuietFrame(s, s.(progress := s.progress.(phase := phase)))
  {
  }

  lemma {:induction false} SlashKeeps(s: State, a: Address, bps: u128, formed: set<QcKey>)
    requires Inv(s) && History(s, formed) && bps <= BPS_DENOMINATOR
    ensures var t := Deduct(s, a, SlashAmount(s, a, bps)); Inv(t) && History(t, formed)
  {
    if a in s.roster.validators {
      RateTakesAtMostAll(s.roster.validators[a].stake, bps);
    }
    DeductKeeps(s, a, SlashAmount(s, a, bps), formed);
  }

  // ---------------------------------------------------------------- whole runs

  /** The keys of the certificates handed out. */
  ghost function KeysOf(certs: seq<Option<QuorumCertificate>>): set<QcKey> {
    set i | 0 <= i < |certs| && certs[i].Some? :: KeyOf(certs[i].value)
  }

  lemma {:induction false} KeysOfAppend(certs: seq<Option<QuorumCertificate>>, qc: Option<QuorumCertificate>)
    ensures KeysOf(certs + [qc]) == WithCertificate(KeysOf(certs), qc)
  {
    var all := certs + [qc];
    forall k | k in WithCertificate(KeysOf(certs), qc)
      ensures k in KeysOf(all)
    {
      if k in KeysOf(certs) {
        var i :| 0 <= i < |certs| && certs[i].Some? && KeyOf(certs[i].value) == k;
        assert all[i] == certs[i];
      } else {
        assert all[|certs|] == qc;
      }
    }
  }

  lemma {:induction false} PrefixPermitted(bls: Bls, s: State, steps: seq<Step>, n: nat)
    requires PermittedRun(bls, s, steps) && n <= |steps|
    ensures PermittedRun(bls, s, steps[..n])
  {
    forall i | 0 <= i < n
      ensures Permitted(Run(bls, s, steps[..n][..i]), steps[..n][i])
    {
      assert steps[..n][..i] == steps[..i];
    }
  }

  lemma {:induction false} RunKeeps(bls: Bls, s: State, steps: seq<Step>)
    requires Inv(s) && History(s, {}) && PermittedRun(bls, s, steps)
    ensures Inv(Run(bls, s, steps)) && History(Run(bls, s, steps), KeysOf(Certificates(bls, s, steps)))
    decreases |steps|
  {
    if steps == [] {
      assert KeysOf([]) == {};
    } else {
      var n := |steps| - 1;
      var before, certs := Run(bls, s, steps[..n]), Certificates(bls, s, steps[..n]);
      PrefixPermitted(bls, s, steps, n);
      RunKeeps(bls, s, steps[..n]);
      StepKeeps(bls, before, steps[n], KeysOf(certs));
      KeysOfAppend(certs, Certificate(bls, before, steps[n]));
    }
  }

  lemma {:induction false} InitialInv(bls: Bls, list: seq<ValidatorInfo>, epochLength: u64)
    requires SumOfStakes(list) <= U128_MAX
    ensures Inv(Initial(bls, list, epochLength)) && History(Initial(bls, list, epochLength), {})
  {
    MembersBounded(bls.addressOf, list);
  }

  /** SAFETY. In every run, no two certificates of one slot name different blocks, in whatever phase
      they form and whatever timeouts, slashes and epoch changes lie between them. */
  lemma {:induction false} OneBlockPerSlot(bls: Bls, list: seq<ValidatorInfo>, epochLength: u64, steps: seq<Step>,
                                           i: nat, j: nat)
    requires SumOfStakes(list) <= U128_MAX
    requires PermittedRun(bls, Initial(bls, list, epochLength), steps)
    requires i < |steps| && j < |steps|
    ensures var certs := Certificates(bls, Initial(bls, list, epochLength), steps);
            certs[i].Some? && certs[j].Some? && certs[i].value.slot == certs[j].value.slot ==>
              certs[i].value.block == certs[j].value.block
  {
    var s := Initial(bls, list, epochLength);
    InitialInv(bls, list, epochLength);
    RunKeeps(bls, s, steps);
    var certs := Certificates(bls, s, steps);
    if certs[i].Some? && certs[j].Some? {
      assert KeyOf(certs[i].value) in KeysOf(certs) && KeyOf(certs[j].value) in KeysOf(certs);
    }
  }

  // ---------------------------------------------------------------- why the slash rate is capped

  /** For a tight total, slashing keeps it an upper bound exactly when it takes no more than the
      validator's stake, or there is no other stake. */
  lemma {:induction false} SlashKeepsBoundIff(s: State, a: Address, bps: u128)
    requires a in s.roster.validators && Total(Stakes(s.roster.validators)) == s.roster.totalStake
    ensures var t := Deduct(s, a, SlashAmount(s, a, bps));
            Total(Stakes(t.roster.validators)) <= t.roster.totalStake
            <==> SlashAmount(s, a, bps) <= s.roster.validators[a].stake
                 || s.roster.totalStake == s.roster.validators[a].stake
  {
    var m := s.roster.validators;
    StakeReplaced(m, a, SaturatingSub(m[a].stake, SlashAmount(s, a, bps)));
    WeightAtMost(Stakes(m), {a});
    TotalSplit(Stakes(m), a);
  }

  /** Slashing one of three equal validators by twice its stake leaves a total that each of the other
      two reaches alone. */
  lemma {:induction false} OverSlashingSplitsTheQuorum(s: State, a: Address, b: Address, c: Address)
    requires a != b && b != c && a != c
    requires forall x :: x in {a, b, c} ==> x in s.roster.validators && s.roster.validators[x].stake == 100
    requires s.roster.totalStake == 300
    ensures var r := Deduct(s, a, SlashAmount(s, a, 20000)).roster;
            && b in r.validators && HasQuorum(r.validators[b].stake, r.totalStake)
            && c in r.validators && HasQuorum(r.validators[c].stake, r.totalStake)
  {
    assert a in {a, b, c} && b in {a, b, c} && c in {a, b, c};
    assert SlashAmount(s, a, 20000) == 200;
  }

  // ---------------------------------------------------------------- the candidate limit

  /** Non-empty, pairwise disjoint boxes of voters are no more than the voters. */
  lemma {:induction false} BoxesInject(s: State, keys: set<QcKey>, voters: set<Address>)
    requires BoxesHonest(s)
    requires forall k :: k in keys ==> k in s.votes && s.votes[k].Keys <= voters
    requires forall k, l :: k in keys && l in keys && k.block == l.block ==> k == l
    ensures |keys| <= |voters|
    decreases |keys|
  {
    if keys != {} {
      var k :| k in keys;
      assert BoxHonest(s, k.block, s.votes[k]);
      var a :| a in s.votes[k];
      forall l | l in keys - {k}
        ensures s.votes[l].Keys <= voters - {a}
      {
        assert BoxHonest(s, l.block, s.votes[l]);
      }
      BoxesInject(s, keys - {k}, voters - {a});
    }
  }

  /** The "too many block candidates" rejection never happens, at any point of any run. */
  lemma {:induction false} CandidateLimitUnreachable(bls: Bls, list: seq<ValidatorInfo>, epochLength: u64,
                                                     steps: seq<Step>, v: Vote)
    requires SumOfStakes(list) <= U128_MAX
    requires PermittedRun(bls, Initial(bls, list, epochLength), steps)
    ensures var s := Run(bls, Initial(bls, list, epochLength), steps);
            Accepted(bls, s, v) ==> |Candidates(s, v.slot)| < 2 * |s.roster.validators|
  {
    var s := Run(bls, Initial(bls, list, epochLength), steps);
    InitialInv(bls, list, epochLength);
    RunKeeps(bls, Initial(bls, list, epochLength), steps);
    if Accepted(bls, s, v) {
      CandidatesBelowLimit(bls, s, v);
    }
  }

  lemma {:induction false} CandidatesBelowLimit(bls: Bls, s: State, v: Vote)
    requires Inv(s) && Accepted(bls, s, v)
    ensures |Candidates(s, v.slot)| < 2 * |s.roster.validators|
  {
    var voters := s.roster.epochValidators.Keys;
    forall k | k in Candidates(s, v.slot)
      ensures s.votes[k].Keys <= voters
    {
      assert BoxHonest(s, k.block, s.votes[k]);
    }
    BoxesInject(s, Candidates(s, v.slot), voters);
    assert |s.roster.validators| == |voters|;
    assert bls.addressOf(v.validator) in voters;
  }
}
