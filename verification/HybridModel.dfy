/** The hybrid consensus engine as a state machine: one function per handler, each giving the
    whole next state. `HybridConsensus` implements the handlers in place. */
module HybridModel {
  import opened Types
  import opened Validators
  import opened Quorum
  import opened WideArithmetic
  import opened Slashing

  function NextPhase(p: Phase): Phase {
    match p
    case Propose => Prevote
    case Prevote => Precommit
    case Precommit => Commit
    case Commit => Propose
  }

  /** Advancing visits all four phases and then starts over. */
  lemma PhasesRotate(p: Phase)
    ensures var q := NextPhase(p);
            var r := NextPhase(q);
            var s := NextPhase(r);
            {p, q, r, s} == {Propose, Prevote, Precommit, Commit} && NextPhase(s) == p
  {
    match p {
      case Propose =>
      case Prevote =>
      case Precommit =>
      case Commit =>
    }
  }

  datatype Vote = Vote(slot: u64, block: H256, validator: PublicKey, signature: string, stake: u128)

  /** What a voter signs. */
  datatype VoteMessage = VoteMessage(block: H256, slot: u64)

  /** Index of vote boxes and certificates. */
  datatype QcKey = QcKey(slot: u64, phase: Phase, block: H256)

  datatype QuorumCertificate =
    QuorumCertificate(slot: u64, block: H256, phase: Phase, totalStake: u128, signers: set<Address>,
                      aggregate: (string, string))

  datatype VoterSlot = VoterSlot(slot: u64, voter: Address)

  /** The cryptographic library. `None` is an error return. */
  datatype Bls = Bls(
    addressOf: PublicKey -> Address,
    verify: (string, VoteMessage, string) -> Option<bool>,
    verifyBatch: seq<(string, VoteMessage, string)> -> Option<bool>,
    aggregate: (map<Address, Vote>, map<Address, string>) -> Option<(string, string)>)

  /** The live validator set, and the copy frozen for the current epoch. */
  datatype Roster = Roster(
    validators: map<Address, ValidatorInfo>,
    totalStake: u128,
    epochValidators: map<Address, ValidatorInfo>,
    epochTotalStake: u128)

  /** How far the protocol has come. */
  datatype Progress = Progress(
    phase: Phase,
    lockedBlock: Option<H256>,
    lockedSlot: u64,
    committedSlot: u64,
    finalizedSlot: u64,
    lastReported: u64)

  datatype State = State(
    roster: Roster,
    epochLength: u64,
    currentSlot: u64,
    votes: map<QcKey, map<Address, Vote>>,
    voteRecord: map<VoterSlot, H256>,
    qcs: map<QcKey, QuorumCertificate>,
    parents: map<H256, H256>,
    blockSlots: map<H256, u64>,
    blsKeys: map<Address, string>,
    progress: Progress)

  ghost function VotedStakes(box: map<Address, Vote>): map<Address, nat> {
    map a | a in box :: box[a].stake
  }

  datatype Outcome = Rejected | NoQuorum | Formed(qc: QuorumCertificate)

  // ---------------------------------------------------------------- votes

  /** The checks that do not need the signature: slot, membership, stake, key and length. */
  predicate Addressed(bls: Bls, s: State, v: Vote) {
    var a := bls.addressOf(v.validator);
    && v.slot == s.currentSlot
    && a in s.roster.epochValidators
    && v.stake == s.roster.epochValidators[a].stake
    && a in s.blsKeys
    && |s.blsKeys[a]| == 48
    && |v.signature| == 96
  }

  predicate Accepted(bls: Bls, s: State, v: Vote) {
    && Addressed(bls, s, v)
    && bls.verify(s.blsKeys[bls.addressOf(v.validator)], VoteMessage(v.block, v.slot), v.signature) == Some(true)
  }

  /** This voter is on record for another block at the vote's slot. */
  predicate Equivocates(bls: Bls, s: State, v: Vote) {
    var key := VoterSlot(v.slot, bls.addressOf(v.validator));
    key in s.voteRecord && s.voteRecord[key] != v.block
  }

  ghost function Candidates(s: State, slot: u64): set<QcKey> {
    set k | k in s.votes && k.slot == slot && k.phase == s.progress.phase
  }

  function Box(s: State, key: QcKey): map<Address, Vote> {
    if key in s.votes then s.votes[key] else map[]
  }

  ghost function ProcessVote(bls: Bls, s: State, v: Vote): (State, Outcome) {
    if !Accepted(bls, s, v) || Equivocates(bls, s, v) then (s, Rejected)
    else
      var a := bls.addressOf(v.validator);
      var s1 := s.(voteRecord := s.voteRecord[VoterSlot(v.slot, a) := v.block]);
      var key := QcKey(v.slot, s.progress.phase, v.block);
      if key !in s.votes && |Candidates(s, v.slot)| >= 2 * |s.roster.validators| then (s1, Rejected)
      else if a in Box(s, key) then (s1, NoQuorum)
      else Tally(bls, s1.(votes := s.votes[key := Box(s, key)[a := v]]), v)
  }

  /** The quorum test after the vote is in its box. */
  ghost function Tally(bls: Bls, s: State, v: Vote): (State, Outcome) {
    var key := QcKey(v.slot, s.progress.phase, v.block);
    var stake := SaturatedTotal(VotedStakes(Box(s, key)));
    if !HasQuorum(stake, s.roster.epochTotalStake) then (s, NoQuorum)
    else if |s.roster.epochValidators| == 1 then
      var a := bls.addressOf(v.validator);
      var qc := QuorumCertificate(v.slot, v.block, s.progress.phase, v.stake, {a}, (v.signature, ""));
      (s.(qcs := s.qcs[key := qc],
          progress := s.progress.(committedSlot := Max(s.progress.committedSlot, v.slot),
                                  finalizedSlot := Max(s.progress.finalizedSlot, v.slot))), Formed(qc))
    else
      match bls.aggregate(Box(s, key), s.blsKeys)
      case None => (s, Rejected)
      case Some(pair) =>
        var qc := QuorumCertificate(v.slot, v.block, s.progress.phase, stake, Box(s, key).Keys, pair);
        var certified := s.(qcs := s.qcs[key := qc]);
        (certified.(progress := OnQuorum(certified, v)), Formed(qc))
  }

  /** The two-chain rule: the block's recorded parent is final once it is certified too. */
  function FinalizedBy(s: State, block: H256, parentPhase: Phase): u64 {
    if block in s.parents && s.parents[block] in s.blockSlots then
      var parent := s.parents[block];
      var slot := s.blockSlots[parent];
      if QcKey(slot, parentPhase, parent) in s.qcs
          && slot > s.progress.finalizedSlot then slot else s.progress.finalizedSlot
    else s.progress.finalizedSlot
  }

  /** What a certificate for the vote's block moves. */
  function OnQuorum(s: State, v: Vote): Progress {
    var p := s.progress;
    match p.phase
    case Propose =>
      Progress(Prevote, Some(v.block), v.slot, Max(p.committedSlot, v.slot), FinalizedBy(s, v.block, Propose),
               p.lastReported)
    case Prevote =>
      Progress(Precommit, Some(v.block), v.slot, p.committedSlot, p.finalizedSlot, p.lastReported)
    case Precommit =>
      Progress(Commit, p.lockedBlock, p.lockedSlot, Max(p.committedSlot, v.slot), FinalizedBy(s, v.block, Prevote),
               p.lastReported)
    case Commit =>
      p.(phase := Propose)
  }

  /** Votes one after the other, an error counting as no certificate. */
  ghost function ProcessEach(bls: Bls, s: State, votes: seq<Vote>): (State, seq<Option<QuorumCertificate>>) {
    if votes == [] then (s, [])
    else
      var n := |votes| - 1;
      var (before, results) := ProcessEach(bls, s, votes[..n]);
      var (after, outcome) := ProcessVote(bls, before, votes[n]);
      (after, results + [CertificateOf(outcome)])
  }

  function CertificateOf(outcome: Outcome): Option<QuorumCertificate> {
    if outcome.Formed? then Some(outcome.qc) else None
  }

  // ---------------------------------------------------------------- slots, timeouts, slashing

  function Snapshot(r: Roster): Roster {
    r.(epochValidators := r.validators, epochTotalStake := r.totalStake)
  }

  const KEPT_SLOTS: u64 := 200

  function RecentRecords(m: map<VoterSlot, H256>, horizon: u64): map<VoterSlot, H256> {
    map k | k in m && k.slot >= horizon :: m[k]
  }

  function RecentQcs(m: map<QcKey, QuorumCertificate>, horizon: u64): map<QcKey, QuorumCertificate> {
    map k | k in m && k.slot >= horizon :: m[k]
  }

  function RecentSlots(m: map<H256, u64>, horizon: u64): map<H256, u64> {
    map b | b in m && m[b] >= horizon :: m[b]
  }

  function KnownParents(m: map<H256, H256>, known: map<H256, u64>): map<H256, H256> {
    map b | b in m && b in known :: m[b]
  }

  predicate StartsEpoch(slot: u64, epochLength: u64) {
    epochLength > 0 && slot % epochLength == 0
  }

  /** The oldest slot kept at `slot`. */
  function Horizon(slot: u64): u64 {
    if slot < KEPT_SLOTS then 0 else slot - KEPT_SLOTS
  }

  function Pruned(s: State, horizon: u64): State {
    s.(voteRecord := RecentRecords(s.voteRecord, horizon),
       qcs := RecentQcs(s.qcs, horizon),
       parents := KnownParents(s.parents, RecentSlots(s.blockSlots, horizon)),
       blockSlots := RecentSlots(s.blockSlots, horizon))
  }

  function EnterSlot(s: State, slot: u64): State {
    Pruned(s, Horizon(slot)).(
    roster := if StartsEpoch(slot, s.epochLength) then Snapshot(s.roster) else s.roster,
    currentSlot := slot,
    votes := map[],
    progress := s.progress.(phase := Propose))
  }

  function AdvanceSlot(s: State): State {
    EnterSlot(s, SaturatingAdd64(s.currentSlot, 1))
  }

  function OnTimeout(s: State): State {
    s.(progress := s.progress.(phase := Propose), votes := map[])
  }

  /** Take `amount` from a validator's stake and from the total. */
  function Deduct(s: State, a: Address, amount: u128): State {
    if a in s.roster.validators then
      var left := SaturatingSub(s.roster.validators[a].stake, amount);
      s.(roster := s.roster.(
         validators := s.roster.validators[a := s.roster.validators[a].(stake := left)],
         totalStake := SaturatingSub(s.roster.totalStake, amount)))
    else s
  }

  ghost function SlashAmount(s: State, a: Address, bps: u128): u128 {
    if a in s.roster.validators then SaturatedQuotient(s.roster.validators[a].stake * bps, BPS_DENOMINATOR) else 0
  }

  // ---------------------------------------------------------------- finality reports

  predicate NewlyFinal(s: State, slot: u64) {
    s.progress.lastReported < slot <= s.progress.finalizedSlot
  }

  function CheckFinality(s: State, slot: u64): State {
    if NewlyFinal(s, slot) then s.(progress := s.progress.(lastReported := slot)) else s
  }

  function RecordBlock(s: State, block: H256, parent: H256, slot: u64): State {
    s.(parents := s.parents[block := parent], blockSlots := s.blockSlots[block := slot])
  }

  // ---------------------------------------------------------------- runs

  datatype Step =
    | Cast(vote: Vote)
    | Tick
    | Timeout
    | Slash(validator: Address, bps: u128)
    | Record(block: H256, parent: H256, slot: u64)
    | Report(slot: u64)
    | Register(address: Address, key: string)
    | SkipPhase

  ghost function Apply(bls: Bls, s: State, step: Step): State {
    match step
    case Cast(v) => ProcessVote(bls, s, v).0
    case Tick => AdvanceSlot(s)
    case Timeout => OnTimeout(s)
    case Slash(a, bps) => Deduct(s, a, SlashAmount(s, a, bps))
    case Record(b, p, slot) => RecordBlock(s, b, p, slot)
    case Report(slot) => CheckFinality(s, slot)
    case Register(a, key) => s.(blsKeys := s.blsKeys[a := key])
    case SkipPhase => s.(progress := s.progress.(phase := NextPhase(s.progress.phase)))
  }

  /** The certificate a step hands out. */
  ghost function Certificate(bls: Bls, s: State, step: Step): Option<QuorumCertificate> {
    if step.Cast? then CertificateOf(ProcessVote(bls, s, step.vote).1) else None
  }

  /** Slashing takes at most the whole stake, and the slot counter is below its saturation point. */
  predicate Permitted(s: State, step: Step) {
    && (step.Slash? ==> step.bps <= BPS_DENOMINATOR)
    && (step.Tick? ==> s.currentSlot < U64_MAX)
  }

  ghost function Run(bls: Bls, s: State, steps: seq<Step>): State {
    if steps == [] then s else Apply(bls, Run(bls, s, steps[..|steps| - 1]), steps[|steps| - 1])
  }

  ghost predicate PermittedRun(bls: Bls, s: State, steps: seq<Step>) {
    forall i :: 0 <= i < |steps| ==> Permitted(Run(bls, s, steps[..i]), steps[i])
  }

  /** What each step of a run hands out. */
  ghost function Certificates(bls: Bls, s: State, steps: seq<Step>): (certs: seq<Option<QuorumCertificate>>)
    ensures |certs| == |steps|
  {
    if steps == [] then []
    else
      var n := |steps| - 1;
      Certificates(bls, s, steps[..n]) + [Certificate(bls, Run(bls, s, steps[..n]), steps[n])]
  }

  // ---------------------------------------------------------------- start

  ghost function Initial(bls: Bls, list: seq<ValidatorInfo>, epochLength: u64): State {
    var members := ByAddress(bls.addressOf, list);
    var total := Min(SumOfStakes(list), U128_MAX);
    State(Roster(members, total, members, total), if epochLength == 0 then 1 else epochLength, 0,
          map[], map[], map[], map[], map[], map[], Progress(Propose, None, 0, 0, 0, 0))
  }
}
