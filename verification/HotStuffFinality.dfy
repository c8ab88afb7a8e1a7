/** Finality over whole runs of the two-chain HotStuff engine, from any state and with or without pruning. */
module HotStuffFinality {
  import opened Types
  import opened Validators
  import opened HotStuffModel

  // ---------------------------------------------------------------- nothing moves backwards

  /** The counters that never fall; the locked slot is not one of them. */
  predicate NoRegress(p: Progress, q: Progress) {
    && p.slot <= q.slot
    && p.committedSlot <= q.committedSlot
    && p.finalizedSlot <= q.finalizedSlot
    && p.lastReported <= q.lastReported
  }

  /** The slots of the blocks an output declares final. */
  ghost function Finals(o: Output): seq<u64> {
    if o.Replied? && o.reply.Acted? then FinalSlots(o.reply.actions) else []
  }

  ghost function FinalSlots(actions: seq<Action>): seq<u64> {
    if actions == [] then []
    else (if actions[0].Finalized? then [actions[0].slot] else []) + FinalSlots(actions[1..])
  }

  /** The finalized slot rises exactly with the one block a step declares final, to that block's slot. */
  ghost predicate Declares(p: Progress, o: Output, q: Progress) {
    && p.finalizedSlot <= q.finalizedSlot
    && Finals(o) == if q.finalizedSlot == p.finalizedSlot then [] else [q.finalizedSlot]
  }

  lemma {:induction false} OwnVoteDeclaresNothing(bls: Bls, s: State, block: H256, parent: H256, phase: Phase)
    ensures Finals(Replied(OwnVote(bls, s, block, parent, phase))) == []
    ensures forall qc :: Finals(Replied(WithQc(OwnVote(bls, s, block, parent, phase), qc))) == []
  {
    var r := OwnVote(bls, s, block, parent, phase);
    if r.Acted? && r.actions != [] {
      assert r.actions[1..] == [] && FinalSlots(r.actions) == [] + FinalSlots([]);
    }
  }

  lemma {:induction false} CertificateAdvances(bls: Bls, prune: bool, s: State, v: HotStuffVote, qc: AggregatedVote)
    ensures var (t, r) := OnCertificate(bls, prune, s, v, qc);
            NoRegress(s.progress, t.progress) && Declares(s.progress, Replied(r), t.progress)
  {
    match v.phase {
      case Prevote =>
        var s1 := AdvancePhase(s.(progress := s.progress.(lockedBlock := Some(v.block), lockedSlot := v.slot)));
        OwnVoteDeclaresNothing(bls, s1, v.block, v.parent, Precommit);
      case Precommit => PrecommitDeclares(bls, prune, s, v, qc);
      case _ =>
    }
  }

  lemma {:induction false} PrecommitDeclares(bls: Bls, prune: bool, s: State, v: HotStuffVote, qc: AggregatedVote)
    requires v.phase == Precommit
    ensures var (t, r) := OnCertificate(bls, prune, s, v, qc);
            NoRegress(s.progress, t.progress) && Declares(s.progress, Replied(r), t.progress)
  {
    var final := FinalizedParent(s, v);
    if final.Some? {
      assert [final.value][1..] == [] && FinalSlots([final.value]) == [final.value.slot] + FinalSlots([]);
    }
  }

  lemma {:induction false} VoteAdvances(bls: Bls, prune: bool, s: State, v: HotStuffVote)
    ensures var (t, r) := OnVote(bls, prune, s, v);
            NoRegress(s.progress, t.progress) && Declares(s.progress, Replied(r), t.progress)
  {
    if VoteVerifies(bls, s.members, v) {
      var s1 := s.(tables := TrackIfNew(s.tables, v.block, v.parent, v.slot));
      var key := BoxKey(v.phase, v.block);
      var box := Box(s1, key) + [v];
      var qc := Aggregate(bls, s1.members, box);
      if qc.Some? {
        var s2 := s1.(votes := s1.votes[key := box]);
        CertificateAdvances(bls, prune, s2.(tables := AddQc(s2.tables, QcKey(v.slot, v.phase, v.block), qc.value)), v,
                            qc.value);
      }
    }
  }

  lemma {:induction false} StepAdvances(bls: Bls, prune: bool, s: State, step: Step)
    ensures var (t, o) := Apply(bls, prune, s, step);
            NoRegress(s.progress, t.progress) && Declares(s.progress, o, t.progress)
  {
    match step {
      case Voted(v) => VoteAdvances(bls, prune, s, v);
      case Proposed(b, p, slot) =>
        OwnVoteDeclaresNothing(bls, AdvancePhase(s.(tables := Track(s.tables, b, p, slot))), b, p, Prevote);
      case _ =>
    }
  }

  /** The state before step `i` of a run. */
  ghost function At(bls: Bls, prune: bool, s: State, steps: seq<Step>, i: nat): State
    requires i <= |steps|
  {
    Run(bls, prune, s, steps[..i])
  }

  lemma {:induction false} NextState(bls: Bls, prune: bool, s: State, steps: seq<Step>, i: nat)
    requires i < |steps|
    ensures At(bls, prune, s, steps, i + 1) == Apply(bls, prune, At(bls, prune, s, steps, i), steps[i]).0
  {
    assert steps[..i + 1] == steps[..i] + [steps[i]];
    RunSnoc(bls, prune, s, steps[..i], steps[i]);
  }

  /** In every run the slot and the committed, finalized and reported slots never fall between two points. */
  lemma {:induction false} CountersNeverFall(bls: Bls, prune: bool, s: State, steps: seq<Step>, i: nat, j: nat)
    requires i <= j <= |steps|
    ensures NoRegress(At(bls, prune, s, steps, i).progress, At(bls, prune, s, steps, j).progress)
    decreases j - i
  {
    if i < j {
      NextState(bls, prune, s, steps, i);
      StepAdvances(bls, prune, At(bls, prune, s, steps, i), steps[i]);
      CountersNeverFall(bls, prune, s, steps, i + 1, j);
    }
  }

  // ---------------------------------------------------------------- reports

  /** `check_finality` answers true at step `i`. */
  ghost predicate ReportsAt(bls: Bls, prune: bool, s: State, steps: seq<Step>, i: nat, slot: u64)
    requires i < |steps|
  {
    steps[i] == Reported(slot) && Apply(bls, prune, At(bls, prune, s, steps, i), steps[i]).1 == Answer(true)
  }

  /** Reported slots rise, so no slot is reported twice, and each was final when it was reported and stays so. */
  lemma {:induction false} ReportsRise(bls: Bls, prune: bool, s: State, steps: seq<Step>, i: nat, j: nat, x: u64,
                                       y: u64)
    requires i < j < |steps| && ReportsAt(bls, prune, s, steps, i, x) && ReportsAt(bls, prune, s, steps, j, y)
    ensures x < y && x <= At(bls, prune, s, steps, j).progress.finalizedSlot
  {
    NextState(bls, prune, s, steps, i);
    CountersNeverFall(bls, prune, s, steps, i + 1, j);
  }

  // ---------------------------------------------------------------- declared blocks

  /** Step `i` declares a block of this slot final. */
  ghost predicate DeclaresAt(bls: Bls, prune: bool, s: State, steps: seq<Step>, i: nat, slot: u64)
    requires i < |steps|
  {
    slot in Finals(Apply(bls, prune, At(bls, prune, s, steps, i), steps[i]).1)
  }

  /** Blocks are declared final in the order of their slots: never two for a slot, never an earlier one later. */
  lemma {:induction false} DeclaredSlotsRise(bls: Bls, prune: bool, s: State, steps: seq<Step>, i: nat, j: nat,
                                             x: u64, y: u64)
    requires i < j < |steps| && DeclaresAt(bls, prune, s, steps, i, x) && DeclaresAt(bls, prune, s, steps, j, y)
    ensures x < y
  {
    StepAdvances(bls, prune, At(bls, prune, s, steps, i), steps[i]);
    StepAdvances(bls, prune, At(bls, prune, s, steps, j), steps[j]);
    NextState(bls, prune, s, steps, i);
    CountersNeverFall(bls, prune, s, steps, i + 1, j);
  }
}
