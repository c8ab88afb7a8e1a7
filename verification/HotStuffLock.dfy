/** A run in which pruning shows: the lock falls below the prune line, and a proposal on a forgotten parent is
    judged differently. */
module HotStuffLock {
  import opened Types
  import opened Validators
  import opened Quorum
  import opened HotStuffModel
  import opened HotStuffPruning

  /** A vote that is a quorum alone, at a node that does not vote itself. */
  ghost predicate Decisive(bls: Bls, m: Members, v: HotStuffVote) {
    && VoteVerifies(bls, m, v) && v.stake == m.validators[v.validator].stake
    && HasQuorum(v.stake, m.totalStake) && m.me == None && Aggregate(bls, m, [v]).Some?
  }

  /** The state when a decisive vote's certificate is in the table. */
  ghost function WithCertificate(bls: Bls, s: State, v: HotStuffVote): State
    requires Decisive(bls, s.members, v)
  {
    s.(tables := AddQc(TrackIfNew(s.tables, v.block, v.parent, v.slot), QcKey(v.slot, v.phase, v.block),
                       Aggregate(bls, s.members, [v]).value),
       votes := s.votes[BoxKey(v.phase, v.block) := [v]])
  }

  lemma {:induction false} DecisiveVote(bls: Bls, prune: bool, s: State, v: HotStuffVote)
    requires Decisive(bls, s.members, v) && BoxKey(v.phase, v.block) !in s.votes
    ensures Apply(bls, prune, s, Voted(v)).0
            == OnCertificate(bls, prune, WithCertificate(bls, s, v), v, Aggregate(bls, s.members, [v]).value).0
  {
    assert [v][..0] == [] && SumOfVotes([v]) == v.stake;
    assert [] + [v] == [v] && !HasVoted([], v.validator);
  }

  /** A parent at slot ten, its child at eleven, another block at three, all voted for by one validator, and a
      block at slot five that is only recorded. */
  ghost predicate Scene(bls: Bls, c: Chain, m: Members, x: H256, p: HotStuffVote, q: HotStuffVote, y: HotStuffVote) {
    && Decisive(bls, m, p) && Decisive(bls, m, q) && Decisive(bls, m, y)
    && p.phase == Prevote && q.phase == Precommit && y.phase == Prevote
    && p.slot == 10 && q.slot == 11 && y.slot == 3 && q.parent == p.block
    && Truthful(c, Voted(p)) && Truthful(c, Voted(q)) && Truthful(c, Voted(y)) && c.slotOf(x) == 5
  }

  ghost function SceneSteps(c: Chain, x: H256, p: HotStuffVote, q: HotStuffVote, y: HotStuffVote): seq<Step> {
    [Recorded(x, c.parentOf(x), 5), Voted(p), Voted(q), Voted(y)]
  }

  /** After the parent's certificate. */
  ghost predicate ParentCertified(s: State, m: Members, x: H256, p: HotStuffVote) {
    && s.members == m && s.votes.Keys == {BoxKey(Prevote, p.block)}
    && s.tables.blockSlots == map[x := 5, p.block := 10] && s.tables.parents.Keys == {x, p.block}
    && QcKey(10, Prevote, p.block) in s.tables.qcs
    && s.progress.phase == Prevote && s.progress.finalizedSlot == 0
  }

  lemma {:induction false} CertifyParent(bls: Bls, prune: bool, c: Chain, m: Members, x: H256,
                                         p: HotStuffVote, q: HotStuffVote, y: HotStuffVote)
    requires Scene(bls, c, m, x, p, q, y)
    ensures ParentCertified(Run(bls, prune, Fresh(m), [Recorded(x, c.parentOf(x), 5), Voted(p)]), m, x, p)
  {
    var s0, first := Fresh(m), Recorded(x, c.parentOf(x), 5);
    RunSnoc(bls, prune, s0, [], first);
    RunSnoc(bls, prune, s0, [first], Voted(p));
    assert [] + [first] == [first] && [first] + [Voted(p)] == [first, Voted(p)];
    var s1 := Apply(bls, prune, s0, first).0;
    DecisiveVote(bls, prune, s1, p);
  }

  /** After the child's certificate: the parent is final and, if the engine prunes, the recorded block is gone. */
  ghost predicate ParentFinal(prune: bool, s: State, m: Members, x: H256, p: HotStuffVote, q: HotStuffVote) {
    && s.members == m && s.votes.Keys == {BoxKey(Prevote, p.block), BoxKey(Precommit, q.block)}
    && s.tables.blockSlots == (if prune then map[p.block := 10, q.block := 11]
                               else map[x := 5, p.block := 10, q.block := 11])
    && s.progress.phase == Precommit && s.progress.finalizedSlot == 10
  }

  lemma {:induction false} FinalizeParent(bls: Bls, prune: bool, s: State, c: Chain, m: Members, x: H256,
                                          p: HotStuffVote, q: HotStuffVote, y: HotStuffVote)
    requires Scene(bls, c, m, x, p, q, y) && ParentCertified(s, m, x, p)
    ensures ParentFinal(prune, Apply(bls, prune, s, Voted(q)).0, m, x, p, q)
  {
    DecisiveVote(bls, prune, s, q);
    var t := WithCertificate(bls, s, q);
    assert t.tables.blockSlots == map[x := 5, p.block := 10, q.block := 11];
    assert t.tables.parents[q.block] == p.block && FinalizedParent(t, q) == Some(Finalized(10, p.block));
  }

  /** Then the lock falls back to slot three. */
  lemma {:induction false} LockFalls(bls: Bls, prune: bool, s: State, c: Chain, m: Members, x: H256,
                                     p: HotStuffVote, q: HotStuffVote, y: HotStuffVote)
    requires Scene(bls, c, m, x, p, q, y) && ParentFinal(prune, s, m, x, p, q)
    ensures var t := Apply(bls, prune, s, Voted(y)).0;
            && t.progress.lockedBlock == Some(y.block) && t.progress.lockedSlot == 3 && t.progress.finalizedSlot == 10
            && (x in t.tables.blockSlots <==> !prune) && (!prune ==> t.tables.blockSlots[x] == 5)
  {
    DecisiveVote(bls, prune, s, y);
  }

  /** PRUNING SHOWS. After this run the engine that keeps everything would vote for a proposal on the block at slot
      five, and the one that prunes would not. */
  lemma {:induction false} PruningCanShow(bls: Bls, c: Chain, m: Members, x: H256, p: HotStuffVote, q: HotStuffVote,
                                          y: HotStuffVote)
    requires Scene(bls, c, m, x, p, q, y)
    ensures TruthfulRun(bls, c, m, SceneSteps(c, x, p, q, y))
    ensures var steps := SceneSteps(c, x, p, q, y);
            var pruning, keeping := Run(bls, true, Fresh(m), steps), Run(bls, false, Fresh(m), steps);
            !LockDecides(c, pruning, x) && !SafeToExtend(pruning, x) && SafeToExtend(keeping, x)
  {
    SceneEnds(bls, true, c, m, x, p, q, y);
    SceneEnds(bls, false, c, m, x, p, q, y);
    assert x != y.block;
  }

  lemma {:induction false} SceneEnds(bls: Bls, prune: bool, c: Chain, m: Members, x: H256,
                                     p: HotStuffVote, q: HotStuffVote, y: HotStuffVote)
    requires Scene(bls, c, m, x, p, q, y)
    ensures var t := Run(bls, prune, Fresh(m), SceneSteps(c, x, p, q, y));
            && t.progress.lockedBlock == Some(y.block) && t.progress.lockedSlot == 3 && t.progress.finalizedSlot == 10
            && (x in t.tables.blockSlots <==> !prune) && (!prune ==> t.tables.blockSlots[x] == 5)
  {
    var s0, first := Fresh(m), Recorded(x, c.parentOf(x), 5);
    var s2 := Run(bls, prune, s0, [first, Voted(p)]);
    var s3 := Run(bls, prune, s0, [first, Voted(p), Voted(q)]);
    assert ParentFinal(prune, s3, m, x, p, q) by {
      CertifyParent(bls, prune, c, m, x, p, q, y);
      FinalizeParent(bls, prune, s2, c, m, x, p, q, y);
      RunSnoc(bls, prune, s0, [first, Voted(p)], Voted(q));
      assert [first, Voted(p)] + [Voted(q)] == [first, Voted(p), Voted(q)];
    }
    LockFalls(bls, prune, s3, c, m, x, p, q, y);
    RunSnoc(bls, prune, s0, [first, Voted(p), Voted(q)], Voted(y));
    assert [first, Voted(p), Voted(q)] + [Voted(y)] == SceneSteps(c, x, p, q, y);
  }
}
