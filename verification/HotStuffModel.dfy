/** The two-chain HotStuff engine as a state machine. Every step takes a flag that says whether
    finalizing prunes the tables; the node always prunes. */
module HotStuffModel {
  import opened Types
  import opened Quorum
  import opened Validators

  // ---------------------------------------------------------------- messages

  datatype Message =
    | VoteMessage(block: H256, parent: H256, slot: u64, phase: Phase)
    | TimeoutMessage(round: u64, qcSlot: u64, qcHash: H256)

  /** The cryptographic library. `None` is an error return. */
  datatype Bls = Bls(
    sign: (string, Message) -> string,
    verify: (string, Message, string) -> Option<bool>,
    aggregateSignatures: seq<string> -> Option<string>,
    aggregateKeys: seq<string> -> Option<string>)

  datatype HotStuffVote =
    HotStuffVote(slot: u64, block: H256, parent: H256, phase: Phase, validator: Address, pubkey: PublicKey,
                 stake: u128, signature: string)

  datatype TimeoutVote =
    TimeoutVote(round: u64, validator: Address, pubkey: PublicKey, stake: u128, qcSlot: u64, qcHash: H256,
                signature: string)

  datatype AggregatedVote =
    AggregatedVote(slot: u64, block: H256, phase: Phase, totalStake: u128, signers: seq<Address>,
                   signature: string, key: string)

  datatype TimeoutCertificate =
    TimeoutCertificate(round: u64, totalStake: u128, qcSlot: u64, qcHash: H256, signers: seq<Address>,
                       signature: string, key: string)

  datatype Action =
    | BroadcastVote(vote: HotStuffVote)
    | Finalized(slot: u64, block: H256)
    | BroadcastTimeout(timeout: TimeoutVote)

  // ---------------------------------------------------------------- state

  datatype QcKey = QcKey(slot: u64, phase: Phase, block: H256)

  datatype BoxKey = BoxKey(phase: Phase, block: H256)

  /** The validator's own key and address. */
  datatype Identity = Identity(keypair: string, address: Address)

  datatype Members = Members(
    validators: map<Address, ValidatorInfo>,
    totalStake: u128,
    blsKeys: map<Address, string>,
    me: Option<Identity>)

  /** The tables that pruning shrinks. */
  datatype Tables = Tables(
    qcs: map<QcKey, AggregatedVote>,
    parents: map<H256, H256>,
    blockSlots: map<H256, u64>)

  datatype Progress = Progress(
    phase: Phase,
    slot: u64,
    lockedBlock: Option<H256>,
    lockedSlot: u64,
    committedSlot: u64,
    finalizedSlot: u64,
    lastReported: u64)

  datatype State = State(
    members: Members,
    votes: map<BoxKey, seq<HotStuffVote>>,
    timeoutVotes: map<u64, seq<TimeoutVote>>,
    tables: Tables,
    progress: Progress)

  /** What a handler returns. `Failed` is an error; the state may still have moved. */
  datatype Reply = Failed | Acted(qc: Option<AggregatedVote>, actions: seq<Action>)

  // ---------------------------------------------------------------- phases and own votes

  function AdvancePhase(s: State): State {
    match s.progress.phase
    case Propose => s.(progress := s.progress.(phase := Prevote))
    case Prevote => s.(progress := s.progress.(phase := Precommit))
    case Precommit => s.(progress := s.progress.(phase := Commit))
    case Commit =>
      s.(votes := map[], progress := s.progress.(phase := Propose, slot := SaturatingAdd64(s.progress.slot, 1)))
  }

  /** The node's own vote for a block, at its current slot; an error if it is no validator. */
  function OwnVote(bls: Bls, s: State, block: H256, parent: H256, phase: Phase): Reply {
    match s.members.me
    case None => Acted(None, [])
    case Some(me) =>
      if me.address !in s.members.validators then Failed
      else
        var v := s.members.validators[me.address];
        var msg := VoteMessage(block, parent, s.progress.slot, phase);
        Acted(None, [BroadcastVote(HotStuffVote(s.progress.slot, block, parent, phase, me.address, v.pubkey, v.stake,
                                                bls.sign(me.keypair, msg)))])
  }

  // ---------------------------------------------------------------- proposals

  /** `parent`'s slot as far as the tables know. */
  function KnownSlot(t: Tables, block: H256): u64 {
    if block in t.blockSlots then t.blockSlots[block] else 0
  }

  /** The locking rule: extend the locked block, or a parent from the locked slot or later. */
  predicate SafeToExtend(s: State, parent: H256) {
    s.progress.lockedBlock == None
    || s.progress.lockedBlock == Some(parent)
    || KnownSlot(s.tables, parent) >= s.progress.lockedSlot
  }

  function Track(t: Tables, block: H256, parent: H256, slot: u64): Tables {
    t.(parents := t.parents[block := parent], blockSlots := t.blockSlots[block := slot])
  }

  function OnPropose(bls: Bls, s: State, block: H256, parent: H256, slot: u64): (State, Reply) {
    if s.progress.phase != Propose then (s, Failed)
    else
      var s1 := s.(tables := Track(s.tables, block, parent, slot));
      if !SafeToExtend(s1, parent) then (s1, Acted(None, []))
      else
        var s2 := AdvancePhase(s1);
        (s2, OwnVote(bls, s2, block, parent, Prevote))
  }

  // ---------------------------------------------------------------- votes

  predicate VoteVerifies(bls: Bls, m: Members, v: HotStuffVote) {
    && v.validator in m.validators
    && v.validator in m.blsKeys
    && |m.blsKeys[v.validator]| == 48
    && |v.signature| == 96
    && bls.verify(m.blsKeys[v.validator], VoteMessage(v.block, v.parent, v.slot, v.phase), v.signature) == Some(true)
  }

  /** The registered key is the one that goes with the node's own, and signatures verify under it. */
  ghost predicate OwnKeyWorks(bls: Bls, m: Members) {
    && m.me.Some? && m.me.value.address in m.validators && m.me.value.address in m.blsKeys
    && |m.blsKeys[m.me.value.address]| == 48
    && forall msg :: |bls.sign(m.me.value.keypair, msg)| == 96
                     && bls.verify(m.blsKeys[m.me.value.address], msg, bls.sign(m.me.value.keypair, msg)) == Some(true)
  }

  /** What a node broadcasts, every node with the same members verifies and credits with the registered stake. */
  lemma {:induction false} OwnVoteVerifies(bls: Bls, s: State, block: H256, parent: H256, phase: Phase)
    requires OwnKeyWorks(bls, s.members)
    ensures var r := OwnVote(bls, s, block, parent, phase);
            && r.Acted? && |r.actions| == 1 && r.actions[0].BroadcastVote?
            && VoteVerifies(bls, s.members, r.actions[0].vote)
            && r.actions[0].vote.stake == s.members.validators[r.actions[0].vote.validator].stake
  {
  }

  /** Entries already present win. */
  function TrackIfNew(t: Tables, block: H256, parent: H256, slot: u64): Tables {
    t.(parents := if block in t.parents then t.parents else t.parents[block := parent],
       blockSlots := if block in t.blockSlots then t.blockSlots else t.blockSlots[block := slot])
  }

  function Box(s: State, key: BoxKey): seq<HotStuffVote> {
    if key in s.votes then s.votes[key] else []
  }

  ghost function SumOfVotes(list: seq<HotStuffVote>): nat {
    if list == [] then 0 else SumOfVotes(list[..|list| - 1]) + list[|list| - 1].stake
  }

  predicate HasVoted(list: seq<HotStuffVote>, a: Address) {
    exists i :: 0 <= i < |list| && list[i].validator == a
  }

  function VoteKeys(m: Members, list: seq<HotStuffVote>): seq<string> {
    seq(|list|, i requires 0 <= i < |list| =>
      var a := list[i].validator; if a in m.blsKeys then m.blsKeys[a] else "")
  }

  ghost function Aggregate(bls: Bls, m: Members, list: seq<HotStuffVote>): Option<AggregatedVote>
    requires list != []
  {
    var signature := bls.aggregateSignatures(seq(|list|, i requires 0 <= i < |list| => list[i].signature));
    var key := bls.aggregateKeys(VoteKeys(m, list));
    if (exists i :: 0 <= i < |list| && list[i].validator !in m.blsKeys) || signature == None || key == None then None
    else
      Some(AggregatedVote(list[0].slot, list[0].block, list[0].phase, Min(SumOfVotes(list), U128_MAX),
                          seq(|list|, i requires 0 <= i < |list| => list[i].validator),
                          signature.value, key.value))
  }

  ghost function OnVote(bls: Bls, prune: bool, s: State, v: HotStuffVote): (State, Reply) {
    if !VoteVerifies(bls, s.members, v) then (s, Failed)
    else CountVote(bls, prune, s.(tables := TrackIfNew(s.tables, v.block, v.parent, v.slot)), v)
  }

  /** A verified vote: it must claim its registered stake and be the voter's first in its box. */
  ghost function CountVote(bls: Bls, prune: bool, s: State, v: HotStuffVote): (State, Reply)
    requires v.validator in s.members.validators
  {
    var key := BoxKey(v.phase, v.block);
    if v.stake != s.members.validators[v.validator].stake || HasVoted(Box(s, key), v.validator) then (s, Failed)
    else
      var box := Box(s, key) + [v];
      var s1 := s.(votes := s.votes[key := box]);
      if !HasQuorum(Min(SumOfVotes(box), U128_MAX), s.members.totalStake) then (s1, Acted(None, []))
      else
        match Aggregate(bls, s.members, box)
        case None => (s1, Failed)
        case Some(qc) =>
          OnCertificate(bls, prune, s1.(tables := AddQc(s1.tables, QcKey(v.slot, v.phase, v.block), qc)), v, qc)
  }

  function AddQc(t: Tables, key: QcKey, qc: AggregatedVote): Tables {
    t.(qcs := t.qcs[key := qc])
  }

  /** What a fresh certificate for the vote's block sets off. */
  function OnCertificate(bls: Bls, prune: bool, s: State, v: HotStuffVote, qc: AggregatedVote): (State, Reply) {
    match v.phase
    case Prevote =>
      var s1 := AdvancePhase(s.(progress := s.progress.(lockedBlock := Some(v.block), lockedSlot := v.slot)));
      (s1, WithQc(OwnVote(bls, s1, v.block, v.parent, Precommit), qc))
    case Precommit =>
      var final := FinalizedParent(s, v);
      var s1 := if final.Some? then Finalize(prune, s, final.value.slot) else s;
      var s2 := AdvancePhase(s1.(progress := s1.progress.(committedSlot := Max(s1.progress.committedSlot, v.slot))));
      (s2, Acted(Some(qc), if final.Some? then [final.value] else []))
    case _ => (s, Acted(Some(qc), []))
  }

  function WithQc(r: Reply, qc: AggregatedVote): Reply {
    if r.Failed? then Failed else r.(qc := Some(qc))
  }

  /** The two-chain rule: the parent, if its slot is known, its prevote certificate is at hand and it
      lies above the finalized slot. */
  function FinalizedParent(s: State, v: HotStuffVote): Option<Action> {
    var parent := if v.block in s.tables.parents then s.tables.parents[v.block] else v.parent;
    if parent !in s.tables.blockSlots then None
    else
      var slot := s.tables.blockSlots[parent];
      if QcKey(slot, Prevote, parent) in s.tables.qcs && slot > s.progress.finalizedSlot
      then Some(Finalized(slot, parent))
      else None
  }

  function Finalize(prune: bool, s: State, slot: u64): State {
    s.(progress := s.progress.(finalizedSlot := slot),
       tables := if prune then Pruned(s.tables, PruneLine(slot)) else s.tables)
  }

  /** Slots below this are forgotten once `finalized` is final. */
  function PruneLine(finalized: u64): u64 {
    if finalized < 3 then 0 else finalized - 2
  }

  function Pruned(t: Tables, line: u64): Tables {
    var blockSlots := map b | b in t.blockSlots && t.blockSlots[b] >= line :: t.blockSlots[b];
    if line == 0 then t
    else
      Tables(map k | k in t.qcs && k.slot >= line :: t.qcs[k],
             map b | b in t.parents && b in blockSlots :: t.parents[b],
             blockSlots)
  }

  // ---------------------------------------------------------------- timeouts

  predicate TimeoutVerifies(bls: Bls, m: Members, v: TimeoutVote) {
    && v.validator in m.validators
    && v.stake == m.validators[v.validator].stake
    && v.validator in m.blsKeys
    && |m.blsKeys[v.validator]| == 48
    && |v.signature| == 96
    && bls.verify(m.blsKeys[v.validator], TimeoutMessage(v.round, v.qcSlot, v.qcHash), v.signature) == Some(true)
  }

  function TimeoutBox(s: State, round: u64): seq<TimeoutVote> {
    if round in s.timeoutVotes then s.timeoutVotes[round] else []
  }

  ghost function SumOfTimeouts(list: seq<TimeoutVote>): nat {
    if list == [] then 0 else SumOfTimeouts(list[..|list| - 1]) + list[|list| - 1].stake
  }

  predicate HasTimedOut(list: seq<TimeoutVote>, a: Address) {
    exists i :: 0 <= i < |list| && list[i].validator == a
  }

  /** The highest certificate the votes name; the first one wins among equals. */
  function HighestNamed(list: seq<TimeoutVote>): (u64, H256) {
    if list == [] then (0, ZERO_HASH)
    else
      var best, last := HighestNamed(list[..|list| - 1]), list[|list| - 1];
      if last.qcSlot > best.0 then (last.qcSlot, last.qcHash) else best
  }

  function Signers(list: seq<TimeoutVote>): seq<Address> {
    seq(|list|, i requires 0 <= i < |list| => list[i].validator)
  }

  function Signatures(list: seq<TimeoutVote>): seq<string> {
    seq(|list|, i requires 0 <= i < |list| => list[i].signature)
  }

  function KeysOf(m: Members, signers: seq<Address>): seq<string> {
    seq(|signers|, i requires 0 <= i < |signers| => if signers[i] in m.blsKeys then m.blsKeys[signers[i]] else "")
  }

  predicate AllRegistered(m: Members, signers: seq<Address>) {
    forall i :: 0 <= i < |signers| ==> signers[i] in m.blsKeys
  }

  datatype TimeoutReply = TimeoutFailed | NoCertificate | Certified(tc: TimeoutCertificate)

  ghost function OnTimeoutVote(bls: Bls, s: State, v: TimeoutVote): (State, TimeoutReply) {
    var box := TimeoutBox(s, v.round);
    if !TimeoutVerifies(bls, s.members, v) || HasTimedOut(box, v.validator) then (s, TimeoutFailed)
    else
      var list := box + [v];
      (s.(timeoutVotes := s.timeoutVotes[v.round := list]), CertifyTimeout(bls, s.members, v.round, list))
  }

  ghost function CertifyTimeout(bls: Bls, m: Members, round: u64, list: seq<TimeoutVote>): TimeoutReply {
    var stake := Min(SumOfTimeouts(list), U128_MAX);
    if !HasQuorum(stake, m.totalStake) then NoCertificate
    else
      var signature, key := bls.aggregateSignatures(Signatures(list)), bls.aggregateKeys(KeysOf(m, Signers(list)));
      if !AllRegistered(m, Signers(list)) || signature == None || key == None then TimeoutFailed
      else
        var best := HighestNamed(list);
        Certified(TimeoutCertificate(round, stake, best.0, best.1, Signers(list), signature.value, key.value))
  }

  /** The stake of the signers, from the local validator set. */
  ghost function SignerStake(m: Members, signers: seq<Address>): nat {
    if signers == [] then 0
    else
      var last := signers[|signers| - 1];
      SignerStake(m, signers[..|signers| - 1]) + if last in m.validators then m.validators[last].stake else 0
  }

  predicate Distinct(signers: seq<Address>) {
    forall i, j :: 0 <= i < j < |signers| ==> signers[i] != signers[j]
  }

  ghost predicate CertificateVerifies(bls: Bls, m: Members, tc: TimeoutCertificate) {
    && Distinct(tc.signers)
    && (forall i :: 0 <= i < |tc.signers| ==> tc.signers[i] in m.validators)
    && SignerStake(m, tc.signers) <= U128_MAX
    && HasQuorum(SignerStake(m, tc.signers), m.totalStake)
    && AllRegistered(m, tc.signers)
    && var key := bls.aggregateKeys(KeysOf(m, tc.signers));
       key.Some? && bls.verify(key.value, TimeoutMessage(tc.round, tc.qcSlot, tc.qcHash), tc.signature) == Some(true)
  }

  ghost function OnTimeoutCertificate(bls: Bls, s: State, tc: TimeoutCertificate): (State, bool) {
    if !CertificateVerifies(bls, s.members, tc) then (s, false)
    else (EnterNextRound(s, tc), true)
  }

  function EnterNextRound(s: State, tc: TimeoutCertificate): State {
    var p := if tc.qcSlot > s.progress.lockedSlot
             then s.progress.(lockedBlock := Some(tc.qcHash), lockedSlot := tc.qcSlot) else s.progress;
    s.(progress := p.(slot := SaturatingAdd64(p.slot, 1), phase := Propose),
       votes := map[],
       timeoutVotes := map r | r in s.timeoutVotes && r > tc.round :: s.timeoutVotes[r])
  }

  /** The slot of the highest certificate, zero if there is none. */
  ghost predicate IsHighestQcSlot(t: Tables, slot: u64) {
    && (forall k :: k in t.qcs ==> k.slot <= slot)
    && (slot > 0 ==> exists k :: k in t.qcs && k.slot == slot)
  }

  // ---------------------------------------------------------------- runs

  datatype Step =
    | Proposed(block: H256, parent: H256, slot: u64)
    | Voted(vote: HotStuffVote)
    | TimedOut(timeout: TimeoutVote)
    | RoundClosed(tc: TimeoutCertificate)
    | Skipped
    | Recorded(block: H256, parent: H256, slot: u64)
    | Registered(address: Address, key: string)
    | Reported(slot: u64)

  datatype Output = Replied(reply: Reply) | Timeouts(timeout: TimeoutReply) | Answer(yes: bool)

  ghost function Apply(bls: Bls, prune: bool, s: State, step: Step): (State, Output) {
    match step
    case Proposed(b, p, slot) =>
      var r := OnPropose(bls, s, b, p, slot);
      (r.0, Replied(r.1))
    case Voted(v) =>
      var r := OnVote(bls, prune, s, v);
      (r.0, Replied(r.1))
    case TimedOut(v) =>
      var r := OnTimeoutVote(bls, s, v);
      (r.0, Timeouts(r.1))
    case RoundClosed(tc) =>
      var r := OnTimeoutCertificate(bls, s, tc);
      (r.0, Answer(r.1))
    case Skipped => (AdvancePhase(s), Answer(true))
    case Recorded(b, p, slot) => (s.(tables := Track(s.tables, b, p, slot)), Answer(true))
    case Registered(a, key) => (s.(members := s.members.(blsKeys := s.members.blsKeys[a := key])), Answer(true))
    case Reported(slot) =>
      if s.progress.lastReported < slot <= s.progress.finalizedSlot
      then (s.(progress := s.progress.(lastReported := slot)), Answer(true))
      else (s, Answer(false))
  }

  ghost function Run(bls: Bls, prune: bool, s: State, steps: seq<Step>): State {
    if steps == [] then s
    else Apply(bls, prune, Run(bls, prune, s, steps[..|steps| - 1]), steps[|steps| - 1]).0
  }

  lemma {:induction false} RunSnoc(bls: Bls, prune: bool, s: State, steps: seq<Step>, step: Step)
    ensures Run(bls, prune, s, steps + [step]) == Apply(bls, prune, Run(bls, prune, s, steps), step).0
  {
    assert (steps + [step])[..|steps|] == steps;
  }

  ghost function Outputs(bls: Bls, prune: bool, s: State, steps: seq<Step>): seq<Output> {
    if steps == [] then []
    else
      var n := |steps| - 1;
      Outputs(bls, prune, s, steps[..n]) + [Apply(bls, prune, Run(bls, prune, s, steps[..n]), steps[n]).1]
  }

  /** A fresh engine: nothing voted, certified or finalized. */
  function Fresh(m: Members): State {
    State(m, map[], map[], Tables(map[], map[], map[]), Progress(Propose, 0, None, 0, 0, 0, 0))
  }
}
