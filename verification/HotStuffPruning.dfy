/** Pruning is invisible: an engine that forgets finalized history and one that keeps all of it give
    the same outputs for ever. */
module HotStuffPruning {
  import opened Types
  import opened Validators
  import opened HotStuffModel

  /** Each block's one slot and one parent. */
  datatype Chain = Chain(slotOf: H256 -> u64, parentOf: H256 -> H256)

  /** The step tells the truth about the block it names. */
  predicate Truthful(c: Chain, step: Step) {
    match step
    case Proposed(b, p, slot) => slot == c.slotOf(b) && p == c.parentOf(b)
    case Recorded(b, p, slot) => slot == c.slotOf(b) && p == c.parentOf(b)
    case Voted(v) => v.slot == c.slotOf(v.block) && v.parent == c.parentOf(v.block)
    case _ => true
  }

  ghost predicate Follows(c: Chain, t: Tables) {
    && (forall b :: b in t.blockSlots ==> t.blockSlots[b] == c.slotOf(b))
    && (forall b :: b in t.parents ==> t.parents[b] == c.parentOf(b))
  }

  /** `p` is part of `u` and misses nothing from slot `line` on. */
  ghost predicate SameFrom(line: u64, p: Tables, u: Tables) {
    && p.qcs.Keys <= u.qcs.Keys
    && p.blockSlots.Keys <= u.blockSlots.Keys
    && (forall k :: k in u.qcs && k.slot >= line ==> k in p.qcs)
    && (forall b :: b in u.blockSlots && u.blockSlots[b] >= line ==> b in p.blockSlots)
  }

  /** The certificate of the finalized block is still there. */
  ghost predicate Anchored(t: Tables, finalized: u64) {
    finalized > 0 ==> exists b :: QcKey(finalized, Prevote, b) in t.qcs
  }

  /** The pruning engine `p` mirrors the hoarding engine `u`. */
  ghost predicate Mirrors(c: Chain, p: State, u: State) {
    && u == p.(tables := u.tables)
    && Follows(c, p.tables) && Follows(c, u.tables)
    && SameFrom(PruneLine(p.progress.finalizedSlot), p.tables, u.tables)
    && Anchored(p.tables, p.progress.finalizedSlot)
  }

  // ---------------------------------------------------------------- what both can see

  lemma {:induction false} SameHighest(c: Chain, p: State, u: State, slot: u64)
    requires Mirrors(c, p, u)
    ensures IsHighestQcSlot(p.tables, slot) <==> IsHighestQcSlot(u.tables, slot)
  {
    var f := p.progress.finalizedSlot;
    if f > 0 {
      var b :| QcKey(f, Prevote, b) in p.tables.qcs;
    }
  }

  /** The two-chain rule fires alike. */
  lemma {:induction false} SameFinality(c: Chain, p: State, u: State, v: HotStuffVote)
    requires Mirrors(c, p, u) && v.parent == c.parentOf(v.block)
    ensures FinalizedParent(p, v) == FinalizedParent(u, v)
  {
  }

  // ---------------------------------------------------------------- table updates

  lemma {:induction false} TrackMirrors(c: Chain, p: State, u: State, block: H256)
    requires Mirrors(c, p, u)
    ensures Mirrors(c, p.(tables := Track(p.tables, block, c.parentOf(block), c.slotOf(block))),
                    u.(tables := Track(u.tables, block, c.parentOf(block), c.slotOf(block))))
    ensures Mirrors(c, p.(tables := TrackIfNew(p.tables, block, c.parentOf(block), c.slotOf(block))),
                    u.(tables := TrackIfNew(u.tables, block, c.parentOf(block), c.slotOf(block))))
  {
  }

  lemma {:induction false} AddQcMirrors(c: Chain, p: State, u: State, key: QcKey, qc: AggregatedVote)
    requires Mirrors(c, p, u)
    ensures Mirrors(c, p.(tables := AddQc(p.tables, key, qc)), u.(tables := AddQc(u.tables, key, qc)))
  {
    var f := p.progress.finalizedSlot;
    if f > 0 {
      var b :| QcKey(f, Prevote, b) in p.tables.qcs;
      assert QcKey(f, Prevote, b) in AddQc(p.tables, key, qc).qcs;
    }
  }

  /** Finalizing prunes only below the new line, and keeps the certificate it relied on. */
  lemma {:induction false} FinalizeMirrors(c: Chain, p: State, u: State, v: HotStuffVote)
    requires Mirrors(c, p, u) && FinalizedParent(p, v).Some?
    ensures Mirrors(c, Finalize(true, p, FinalizedParent(p, v).value.slot),
                    Finalize(false, u, FinalizedParent(p, v).value.slot))
  {
    var final := FinalizedParent(p, v).value;
    var p' := Finalize(true, p, final.slot);
    assert QcKey(final.slot, Prevote, final.block) in p'.tables.qcs;
  }

  /** Everything outside the tables moves in step. */
  lemma {:induction false} ProgressMirrors(c: Chain, p: State, u: State, progress: Progress)
    requires Mirrors(c, p, u) && progress.finalizedSlot == p.progress.finalizedSlot
    ensures Mirrors(c, p.(progress := progress), u.(progress := progress))
  {
  }

  lemma {:induction false} PhaseMirrors(c: Chain, p: State, u: State)
    requires Mirrors(c, p, u)
    ensures Mirrors(c, AdvancePhase(p), AdvancePhase(u))
  {
  }

  // ---------------------------------------------------------------- votes

  lemma {:induction false} CertificateMirrors(bls: Bls, c: Chain, p: State, u: State, v: HotStuffVote,
                                              qc: AggregatedVote)
    requires Mirrors(c, p, u) && v.parent == c.parentOf(v.block)
    ensures OnCertificate(bls, true, p, v, qc).1 == OnCertificate(bls, false, u, v, qc).1
    ensures Mirrors(c, OnCertificate(bls, true, p, v, qc).0, OnCertificate(bls, false, u, v, qc).0)
  {
    match v.phase {
      case Prevote =>
        var progress := p.progress.(lockedBlock := Some(v.block), lockedSlot := v.slot);
        ProgressMirrors(c, p, u, progress);
        PhaseMirrors(c, p.(progress := progress), u.(progress := progress));
      case Precommit =>
        PrecommitMirrors(bls, c, p, u, v, qc);
      case _ =>
    }
  }

  lemma {:induction false} PrecommitMirrors(bls: Bls, c: Chain, p: State, u: State, v: HotStuffVote, qc: AggregatedVote)
    requires Mirrors(c, p, u) && v.parent == c.parentOf(v.block) && v.phase == Precommit
    ensures OnCertificate(bls, true, p, v, qc).1 == OnCertificate(bls, false, u, v, qc).1
    ensures Mirrors(c, OnCertificate(bls, true, p, v, qc).0, OnCertificate(bls, false, u, v, qc).0)
  {
    SameFinality(c, p, u, v);
    var final := FinalizedParent(p, v);
    var p1 := if final.Some? then Finalize(true, p, final.value.slot) else p;
    var u1 := if final.Some? then Finalize(false, u, final.value.slot) else u;
    if final.Some? {
      FinalizeMirrors(c, p, u, v);
    }
    var progress := p1.progress.(committedSlot := Max(p1.progress.committedSlot, v.slot));
    ProgressMirrors(c, p1, u1, progress);
    PhaseMirrors(c, p1.(progress := progress), u1.(progress := progress));
  }

  lemma {:induction false} VoteMirrors(bls: Bls, c: Chain, p: State, u: State, v: HotStuffVote)
    requires Mirrors(c, p, u) && Truthful(c, Voted(v))
    ensures OnVote(bls, true, p, v).1 == OnVote(bls, false, u, v).1
    ensures Mirrors(c, OnVote(bls, true, p, v).0, OnVote(bls, false, u, v).0)
  {
    if VoteVerifies(bls, p.members, v) {
      TrackMirrors(c, p, u, v.block);
      CountMirrors(bls, c, p.(tables := TrackIfNew(p.tables, v.block, v.parent, v.slot)),
                   u.(tables := TrackIfNew(u.tables, v.block, v.parent, v.slot)), v);
    }
  }

  lemma {:induction false} CountMirrors(bls: Bls, c: Chain, p: State, u: State, v: HotStuffVote)
    requires Mirrors(c, p, u) && Truthful(c, Voted(v)) && v.validator in p.members.validators
    ensures CountVote(bls, true, p, v).1 == CountVote(bls, false, u, v).1
    ensures Mirrors(c, CountVote(bls, true, p, v).0, CountVote(bls, false, u, v).0)
  {
    var key := BoxKey(v.phase, v.block);
    var box := Box(p, key) + [v];
    var p1, u1 := p.(votes := p.votes[key := box]), u.(votes := u.votes[key := box]);
    assert Mirrors(c, p1, u1);
    var qc := Aggregate(bls, p.members, box);
    if qc.Some? {
      var k := QcKey(v.slot, v.phase, v.block);
      AddQcMirrors(c, p1, u1, k, qc.value);
      CertificateMirrors(bls, c, p1.(tables := AddQc(p1.tables, k, qc.value)),
                         u1.(tables := AddQc(u1.tables, k, qc.value)), v, qc.value);
    }
  }

  // ---------------------------------------------------------------- proposals

  /** The proposal's parent is one the locking rule judges without the forgotten slots: it lies at or
      above the prune line, or the lock decides on its own. */
  predicate LockDecides(c: Chain, s: State, parent: H256) {
    || s.progress.lockedBlock == None
    || s.progress.lockedBlock == Some(parent)
    || c.slotOf(parent) >= PruneLine(s.progress.finalizedSlot)
    || s.progress.lockedSlot == 0
    || c.slotOf(parent) < s.progress.lockedSlot
  }

  lemma {:induction false} SameLock(c: Chain, p: State, u: State, parent: H256)
    requires Mirrors(c, p, u) && LockDecides(c, p, parent)
    ensures SafeToExtend(p, parent) == SafeToExtend(u, parent)
  {
  }

  lemma {:induction false} ProposalMirrors(bls: Bls, c: Chain, p: State, u: State, block: H256)
    requires Mirrors(c, p, u) && LockDecides(c, p, c.parentOf(block))
    ensures OnPropose(bls, p, block, c.parentOf(block), c.slotOf(block)).1
            == OnPropose(bls, u, block, c.parentOf(block), c.slotOf(block)).1
    ensures Mirrors(c, OnPropose(bls, p, block, c.parentOf(block), c.slotOf(block)).0,
                    OnPropose(bls, u, block, c.parentOf(block), c.slotOf(block)).0)
  {
    TrackMirrors(c, p, u, block);
    var parent, slot := c.parentOf(block), c.slotOf(block);
    var p1, u1 := p.(tables := Track(p.tables, block, parent, slot)),
        u.(tables := Track(u.tables, block, parent, slot));
    SameLock(c, p1, u1, parent);
    PhaseMirrors(c, p1, u1);
  }

  /** The condition is exact: for a parent the pruning engine has forgotten and the other still knows,
      the two engines judge the proposal alike if and only if it holds. */
  lemma {:induction false} ForgottenParentIff(c: Chain, p: State, u: State, parent: H256)
    requires Mirrors(c, p, u) && parent in u.tables.blockSlots && parent !in p.tables.blockSlots
    ensures SafeToExtend(p, parent) == SafeToExtend(u, parent) <==> LockDecides(c, p, parent)
  {
  }

  // ---------------------------------------------------------------- steps and runs

  predicate Visible(c: Chain, s: State, step: Step) {
    step.Proposed? ==> LockDecides(c, s, step.parent)
  }

  lemma {:induction false} StepMirrors(bls: Bls, c: Chain, p: State, u: State, step: Step)
    requires Mirrors(c, p, u) && Truthful(c, step) && Visible(c, p, step)
    ensures Apply(bls, true, p, step).1 == Apply(bls, false, u, step).1
    ensures Mirrors(c, Apply(bls, true, p, step).0, Apply(bls, false, u, step).0)
  {
    match step {
      case Proposed(b, _, _) =>
        ProposalMirrors(bls, c, p, u, b);
      case Voted(v) =>
        VoteMirrors(bls, c, p, u, v);
      case Skipped =>
        PhaseMirrors(c, p, u);
      case Recorded(b, _, _) =>
        TrackMirrors(c, p, u, b);
      case _ =>
        OtherMirrors(bls, c, p, u, step);
    }
  }

  /** The steps that never read or write the tables. */
  lemma {:induction false} OtherMirrors(bls: Bls, c: Chain, p: State, u: State, step: Step)
    requires Mirrors(c, p, u)
    requires step.TimedOut? || step.RoundClosed? || step.Registered? || step.Reported?
    ensures Apply(bls, true, p, step).1 == Apply(bls, false, u, step).1
    ensures Mirrors(c, Apply(bls, true, p, step).0, Apply(bls, false, u, step).0)
  {
    var p', u' := Apply(bls, true, p, step).0, Apply(bls, false, u, step).0;
    assert p'.tables == p.tables && u'.tables == u.tables;
    assert p'.progress.finalizedSlot == p.progress.finalizedSlot;
  }

  ghost predicate TruthfulRun(bls: Bls, c: Chain, m: Members, steps: seq<Step>) {
    forall i :: 0 <= i < |steps| ==>
      Truthful(c, steps[i]) && Visible(c, Run(bls, true, Fresh(m), steps[..i]), steps[i])
  }

  lemma {:induction false} RunMirrors(bls: Bls, c: Chain, m: Members, steps: seq<Step>)
    requires TruthfulRun(bls, c, m, steps)
    ensures Mirrors(c, Run(bls, true, Fresh(m), steps), Run(bls, false, Fresh(m), steps))
    ensures Outputs(bls, true, Fresh(m), steps) == Outputs(bls, false, Fresh(m), steps)
    decreases |steps|
  {
    if steps != [] {
      var n := |steps| - 1;
      forall i | 0 <= i < n
        ensures Truthful(c, steps[..n][i]) && Visible(c, Run(bls, true, Fresh(m), steps[..n][..i]), steps[..n][i])
      {
        assert steps[..n][..i] == steps[..i];
      }
      RunMirrors(bls, c, m, steps[..n]);
      StepMirrors(bls, c, Run(bls, true, Fresh(m), steps[..n]), Run(bls, false, Fresh(m), steps[..n]), steps[n]);
    }
  }

  /** PRUNING IS INVISIBLE. Over any run of truthful steps whose proposals the lock decides, the two
      engines reply to every step alike, finalizations included, and agree on the highest
      certificate's slot and on everything but the tables. */
  lemma {:induction false} PruningIsInvisible(bls: Bls, c: Chain, m: Members, steps: seq<Step>, slot: u64)
    requires TruthfulRun(bls, c, m, steps)
    ensures Outputs(bls, true, Fresh(m), steps) == Outputs(bls, false, Fresh(m), steps)
    ensures var p, u := Run(bls, true, Fresh(m), steps), Run(bls, false, Fresh(m), steps);
            && (IsHighestQcSlot(p.tables, slot) <==> IsHighestQcSlot(u.tables, slot))
            && p.progress == u.progress && p.votes == u.votes && p.timeoutVotes == u.timeoutVotes
  {
    RunMirrors(bls, c, m, steps);
    SameHighest(c, Run(bls, true, Fresh(m), steps), Run(bls, false, Fresh(m), steps), slot);
  }
}
