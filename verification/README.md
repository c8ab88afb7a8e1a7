# Aether node: a verified model

This project models the core of the Aether layer-1 node in Dafny and proves what it keeps. It covers
the two consensus engines with the arithmetic they rest on, the ledger with its speculative overlay
and fee distribution, the mempool, and the block buffer used while syncing.

Components that update fields in place are classes: `HybridConsensus`, `HotStuffConsensus`, `Ledger`,
`PendingOverlay`, `FeeMarket`, `Mempool` and `SyncManager`. Each method is proved against a function on
plain values, and the theorems over whole runs are proved about those functions. `dafny verify
dfyconfig.toml` checks everything.

## Main results

- **One block per slot.** In every run of the hybrid engine, from any validator list, certificates of one
  slot name one block, across phases, timeouts, slashes up to the whole stake and epoch changes
  (`OneBlockPerSlot`). Finality is always backed by a certified parent and a later certified child
  (`FinalityIsBacked`), counters are ordered and never fall, and no slot is reported twice.
- **Batching is feeding.** `BatchProcessVotes` leaves the state and hands out the certificates of feeding the
  votes one by one.
- **Pruning is invisible.** A HotStuff engine that prunes and one that never does answer every run alike
  (`PruningIsInvisible`); for proposals on forgotten parents the exact condition is given
  (`ForgottenParentIff`).
- **HotStuff finality only rises.** Reported slots and declared blocks come in the order of their slots, so none
  comes twice (`ReportsRise`, `DeclaredSlotsRise`).
- **Timeout certificates round trip** exactly when the votes are unanimous (`TimeoutRoundTripIff`).
- **Speculation refines execution.** Running a block on the overlay and committing it gives the accounts,
  outputs, tree, root and receipts of direct execution (`SpeculateAndCommit`, `SpeculationRefines`,
  `ReceiptsAgree`), failed transactions leave no trace (`FailuresLeaveNoTrace`), and reopening a ledger
  changes nothing (`Ledger.constructor`).
- **Value is accounted for.** An identity for every transaction, block and committed block says where every
  unit goes (`TransactionConserves`, `BlockConserves`, `CommitConserves`). When all fees offered are paid and cover
  the burn, no block grows the wealth, and it stays exactly if every success spends exactly (`BlockConservesIff`);
  over a chain that means a surplus equal to the fee (`ChainBlockConservesIff`).
- **Nothing happens twice.** Nonces are consecutive over any run, no transaction succeeds twice and no output
  is consumed twice (`NoncesAreConsecutive`, `NoTransactionTwice`, `NoOutputTwice`). Successes in a chain of blocks
  are successes of such a run (`SuccessIsInRun`), so the same holds over chains (`ChainNonces`, `ChainNoReplay`,
  `ChainNoDoubleSpend`).
- **The mempool's indexes always agree**, with one transaction per sender and nonce, and promotion moves
  exactly the longest ready run (`Mempool.Valid`, `PromoteQueued`). A reorg loses nothing above the new tip when the
  reverted transactions can return (`Reorg`).
- **Draining is maximal.** `DrainReady` delivers the greedy chain, unless it reaches the last slot number, and a
  second drain delivers nothing.

## Where the code falls short of what it promises

Each of these is a lemma or a two-sided contract.

- `mul_div` puts the carry of its middle column at the wrong weight, and `div_256_by_128` drops the top
  bit of a doubled remainder. `MulDiv` is exact if and only if `MulDivExact`. It always is for divisors up to 2^64,
  which is all the callers use (`MulDivExactForSmallDivisors`), and for rates below 2^64 with divisors up to 2^127.
- `has_quorum` is too lenient by a third of a unit for totals from 2^127 on that leave remainder two
  (`HasQuorumIff`, `LenientQuorum`). Two quorums still always meet.
- Slashing by more than the whole stake breaks the bound the quorum rule needs (`SlashKeepsBoundIff`), and
  with it safety: a run gives one slot two certificates (`OverSlashingSplitsASlot`).
- A timeout certificate built from votes that name different highest certificates is refused by every node
  (`TimeoutRoundTripIff`, `SplitTimeoutsAreRefused`, with a whole instance in `SplitTimeoutsHappen`).
- A HotStuff lock can fall below the prune line, and then pruning shows in how a proposal is judged
  (`ForgottenParentIff`, `PruningCanShow`).
- The node adds the fees of failed transactions to what it distributes, so they are minted, and so is a burn
  the fees do not cover (`UnpaidFeesAreMinted`, `BlockConservesIff`, `FailedTransactionMints`).
- The base fee can rise by more than an eighth at a gas usage above twice the target (`RiseWithinEighthIff`). The
  node admits ten million gas against a default target of one million, so a full block more than doubles the fee
  (`DefaultFeeDoubles`).
- If a fee credit overflows, the store is untouched but the in-memory tree is already ahead of it, unless
  nothing in the block succeeded (`FailedCommitSoundIff`, `FullProposerLeavesTreeAhead`).
- A mempool replacement that pays enough but is then refused for its nonce has already removed the
  transaction it would replace (`ReplacementHeldIff`, `FullQueueLosesBoth`).

## Assumptions

- Hashing, decoding, signatures and BLS are function-valued fields of `Bls`, `Codec` and `Rules`. Laws they
  need are stated where they are used: `AggregationComplete`, `AggregationBinding`, `HashBinds`, `HashesBind`,
  `AccountHashBinds`.
- The two laws of aggregation concern distinct registered members whose keys and signatures aggregate at all. For BLS
  they say that no group of the members' keys cancels to zero, and that the points of the messages in play (those
  the votes of one round sign, and the zero certificate) are independent. `SchemeMeetsLaws` shows that they hold
  together in a scheme that refuses repeated signatures.
- The Merkle tree is a map from addresses to hashes, and its root is a function of that map.
- Storage writes succeed and a batch is applied in order.
- Hash maps are visited in any order: every loop over one picks an arbitrary remaining key.
- The stakes of a validator list add up to less than 2^128, and the engines' slot counters stay below 2^64 - 1.
- A transaction has fewer than 2^32 outputs.
- Arithmetic is that of the release profile: plain operators wrap, and saturating and checked ones are
  written out.

## Model

| member | source | states |
|---|---|---|
| `WideArithmetic.Div256By128` | crates/consensus/src/hybrid.rs:44-61 | the saturated 256-by-128-bit quotient, if and only if no round drops a set bit of the remainder; never too large otherwise; all ones when the high word reaches the divisor |
| `WideArithmetic.DivideBits` | crates/consensus/src/hybrid.rs:53-59 | the long-division loop keeps quotient and remainder of the bits read so far, and records whether a bit was dropped |
| `WideArithmetic.Product` | crates/consensus/src/hybrid.rs:24-39 | the two product words hold the true product, or the product with the middle carry at the wrong weight when the column wraps |
| `WideArithmetic.MulDiv` | crates/consensus/src/hybrid.rs:20-42 | zero for divisor zero; otherwise min(floor(ab/c), 2^128-1) if and only if the column does not wrap and the division is exact |
| `WideArithmetic.MulDivExactForRates` | crates/consensus/src/hybrid.rs:20-61 | exact for every stake, every rate below 2^64 and every divisor from 1 to 2^127 |
| `WideArithmetic.MulDivExactForSmallDivisors` | crates/consensus/src/hybrid.rs:20-61 | exact for all factors when the divisor is at most 2^64, because a wrapped column means the quotient saturates anyway |
| `WideArithmetic.WrapGap` | crates/consensus/src/hybrid.rs:34-39 | when the column wraps, the quotient is too small for every divisor |
| `WideArithmetic.MulDivFailures` | crates/consensus/src/hybrid.rs:20-61 | both failing branches are reached, each with factors of its own |
| `Slashing.CalculateSlashAmount` | crates/consensus/src/slashing.rs:237-246 | takes the documented share of any stake, never more than the stake |
| `Slashing.AmountAtRate` | crates/consensus/src/hybrid.rs:991-1000 | the amount taken is the exact share at every rate, saturated, and at most the stake up to 10000 basis points |
| `Slashing.RateTakesAtMostAll` | crates/consensus/src/hybrid.rs:991-1000 | a rate of at most 10000 basis points takes at most everything |
| `Slashing.RateAgreesWithPenalty` | crates/consensus/src/slashing.rs:227-246 | slashing at the published rate and the penalty function take the same amount from every stake, if and only if the offence is an equivocation or there is nothing to take |
| `Quorum.HasQuorumIff` | crates/consensus/src/lib.rs:126-145 | accepts exactly when 3v >= 2t, except for totals from 2^127 with remainder two, where 3v = 2t-1 is accepted too |
| `Quorum.LenientQuorum` | crates/consensus/src/lib.rs:126-145 | the lenient case at a total of 2^127 |
| `Quorum.QuorumsMeet` | crates/consensus/src/lib.rs:126-145 | any two accepted voter sets share a voter with positive stake |
| `Validators.IndexValidators` | crates/consensus/src/hybrid.rs:178-185 | the indexed validators and their saturated total stake |
| `Validators.MembersBounded` | crates/consensus/src/hybrid.rs:178-185 | the indexed stakes never exceed the sum of the list, duplicates included |
| `HybridEngine.HybridConsensus.constructor` | crates/consensus/src/hybrid.rs:167-228 | the initial state |
| `HybridEngine.HybridConsensus.PreValidate` | crates/consensus/src/hybrid.rs:655-686 | true exactly for votes that pass the checks before the signature |
| `HybridEngine.HybridConsensus.VerifyVote` | crates/consensus/src/hybrid.rs:388-453 | true exactly for votes of the current slot by a known validator with the right stake and a valid signature |
| `HybridEngine.HybridConsensus.ProcessVote` | crates/consensus/src/hybrid.rs:388-625 | the new state and outcome of one vote, errors included |
| `HybridEngine.HybridConsensus.TallyVotes` | crates/consensus/src/hybrid.rs:507-624 | the quorum test over the loop sum of recorded stakes, and what a quorum does |
| `HybridEngine.HybridConsensus.CertifyTogether` | crates/consensus/src/hybrid.rs:539-621 | the aggregated certificate and its effects, or no effect when aggregation fails |
| `HybridEngine.HybridConsensus.CommitAndFinalize` | crates/consensus/src/hybrid.rs:529-534 | the single-validator rule raises both counters and never lowers them |
| `HybridEngine.HybridConsensus.FollowCertificate` | crates/consensus/src/hybrid.rs:558-619 | lock, commit, finality and phase after a quorum in each phase |
| `HybridEngine.HybridConsensus.TryFinalizeParent` | crates/consensus/src/hybrid.rs:562-577 | the two-chain rule from recorded parents and certificates |
| `HybridModel.PhasesRotate` | crates/consensus/src/hybrid.rs:801-808 | advancing visits all four phases and starts over |
| `HybridEngine.HybridConsensus.BatchProcessVotes` | crates/consensus/src/hybrid.rs:638-754 | same state and certificates as feeding the votes one by one, exactly when the batch check does not error; else nothing changes |
| `HybridEngine.HybridConsensus.Prepare` | crates/consensus/src/hybrid.rs:655-697 | splits a batch into the votes to verify and the indices rejected before |
| `HybridEngine.HybridConsensus.CheckSignatures` | crates/consensus/src/hybrid.rs:699-728 | the batch verdicts, or an error exactly when the batch verifier fails |
| `HybridEngine.HybridConsensus.FeedPrepared` | crates/consensus/src/hybrid.rs:730-753 | feeding verified votes in order is processing every vote |
| `HybridEngine.HybridConsensus.AdvanceSlot` | crates/consensus/src/hybrid.rs:840-876 | next slot, votes cleared, old entries pruned, validators snapshotted at epoch starts |
| `HybridEngine.HybridConsensus.OnTimeout` | crates/consensus/src/hybrid.rs:965-972 | votes of the slot are dropped and the vote record survives |
| `HybridEngine.HybridConsensus.SlashValidator` | crates/consensus/src/hybrid.rs:991-1000 | the amount taken and the new stakes |
| `HybridEngine.HybridConsensus.CheckFinality` | crates/consensus/src/hybrid.rs:816-823 | true exactly for a finalized slot above the last reported one |
| `HybridEngine.HybridConsensus.RecordBlock` | crates/consensus/src/hybrid.rs:829-832 | the parent and slot of a block are remembered |
| `HybridEngine.CountCandidates` | crates/consensus/src/hybrid.rs:486-490 | the number of blocks with votes in a slot and phase |
| `HybridEngine.SumStakes` | crates/consensus/src/hybrid.rs:508-511 | the saturated stake of the recorded votes |
| `HybridEngine.FedStep` | crates/consensus/src/hybrid.rs:733-751 | one more vote of a batch keeps the agreement with one-by-one feeding |
| `HybridSafety.OneBlockPerSlot` | crates/consensus/src/hybrid.rs:388-625 | in every run, certificates of one slot name one block |
| `HybridSafety.StepKeeps` | crates/consensus/src/hybrid.rs:388-1000 | every step keeps the vote records honest, the stakes bounded and the certificates of a slot unique |
| `HybridSafety.RunKeeps` | crates/consensus/src/hybrid.rs:388-1000 | so does every run |
| `HybridSafety.InitialInv` | crates/consensus/src/hybrid.rs:167-228 | it holds at the start for any validator list |
| `HybridSafety.BackedIsUnique` | crates/consensus/src/hybrid.rs:455-514 | two blocks cannot both have a quorum on record in a slot |
| `HybridSafety.TallyForms` | crates/consensus/src/hybrid.rs:507-624 | a certificate is handed out only for the voted block at the current slot |
| `HybridSafety.TickKeeps` | crates/consensus/src/hybrid.rs:840-876 | starting a slot keeps the invariant, epoch snapshot included |
| `HybridSafety.SlashKeeps` | crates/consensus/src/hybrid.rs:991-1000 | slashing up to the whole stake keeps it |
| `HybridSafety.SlashKeepsBoundIff` | crates/consensus/src/hybrid.rs:991-1000 | a tight total stays a bound exactly when no more than the stake is taken or there is no other stake |
| `HybridSafety.OverSlashingSplitsTheQuorum` | crates/consensus/src/hybrid.rs:991-1000 | after slashing one of three equal validators by twice its stake, each other one is a quorum alone |
| `HybridSplit.OverSlashingSplitsASlot` | crates/consensus/src/hybrid.rs:388-1000 | the run that follows: one slot gets two certificates for different blocks |
| `HybridSplit.DecisiveVote` | crates/consensus/src/hybrid.rs:507-622 | a vote that is a quorum alone forms a certificate for its block |
| `HybridSafety.BoxesInject` | crates/consensus/src/hybrid.rs:482-505 | vote boxes of one slot and phase inject into the voters |
| `HybridSafety.CandidateLimitUnreachable` | crates/consensus/src/hybrid.rs:482-498 | the too-many-candidates rejection never happens, at any point of any run |
| `HybridFinality.CountersOrderedAndMonotone` | crates/consensus/src/hybrid.rs:516-622 | finalized <= committed <= current at every point of a run, and lock, commit, finality and slot never fall |
| `HybridFinality.ReportedOnce` | crates/consensus/src/lib.rs:19-31 | a slot is reported final at most once in a run |
| `HybridFinality.TallyFinalizes` | crates/consensus/src/hybrid.rs:516-622 | a rise of the finalized slot found a certificate of the recorded parent at that slot |
| `HybridFinality.VoteFinalizes` | crates/consensus/src/hybrid.rs:388-625 | the same from the vote on |
| `HybridFinality.FinalityIsBacked` | crates/consensus/src/hybrid.rs:516-622 | in every run with several validators, a rise comes with a certificate for a block whose recorded parent was certified by an earlier step at exactly the new finalized slot, strictly earlier |
| `HybridFinality.OnlyVotesFinalize` | crates/consensus/src/hybrid.rs:801-1000 | no other operation moves the finalized slot |
| `HotStuffEngine.HotStuffConsensus.constructor` | crates/consensus/src/hotstuff.rs:144-177 | the initial state |
| `HotStuffEngine.HotStuffConsensus.AdvancePhase` | crates/consensus/src/hotstuff.rs:205-216 | the phase cycle, with the slot advancing after commit |
| `HotStuffEngine.HotStuffConsensus.OnPropose` | crates/consensus/src/hotstuff.rs:219-264 | phase and lock checks, tables and the vote a proposal gets |
| `HotStuffEngine.HotStuffConsensus.CreateVote` | crates/consensus/src/hotstuff.rs:626-660 | no vote without an identity, an error outside the validator set, and otherwise one vote at the current slot with the registered stake, signed over block, parent, slot and phase |
| `HotStuffModel.OwnVoteVerifies` | crates/consensus/src/hotstuff.rs:626-699 | what a node broadcasts passes the vote check of every node with the same members and claims the registered stake |
| `HotStuffEngine.HotStuffConsensus.OnVote` | crates/consensus/src/hotstuff.rs:267-397 | the new state and actions of one vote, errors included |
| `HotStuffEngine.HotStuffConsensus.VerifyVote` | crates/consensus/src/hotstuff.rs:663-699 | true exactly for a known validator with a registered key and a valid signature |
| `HotStuffEngine.HotStuffConsensus.TrackVote` | crates/consensus/src/hotstuff.rs:281-285 | the parent and slot named by the vote are remembered |
| `HotStuffEngine.HotStuffConsensus.CountVote` | crates/consensus/src/hotstuff.rs:301-396 | duplicates are refused and a quorum forms a certificate |
| `HotStuffEngine.HotStuffConsensus.AggregateVotes` | crates/consensus/src/hotstuff.rs:737-764 | the aggregate of the collected votes |
| `HotStuffEngine.HotStuffConsensus.FollowCertificate` | crates/consensus/src/hotstuff.rs:331-396 | lock, phase and finality after a certificate |
| `HotStuffEngine.HotStuffConsensus.FinalizeParent` | crates/consensus/src/hotstuff.rs:347-385 | the two-chain rule, followed by pruning |
| `HotStuffEngine.HotStuffConsensus.PruneFinalizedState` | crates/consensus/src/hotstuff.rs:796-807 | exactly the entries below the prune line go |
| `HotStuffEngine.HotStuffConsensus.HighestQc` | crates/consensus/src/hotstuff.rs:613-623 | a certificate with the highest slot, or slot zero and the zero hash |
| `HotStuffEngine.HotStuffConsensus.OnTimeout` | crates/consensus/src/hotstuff.rs:400-432 | the timeout vote a node sends |
| `HotStuffEngine.HotStuffConsensus.VerifyTimeout` | crates/consensus/src/hotstuff.rs:702-735 | true exactly for a valid timeout signature of a known validator |
| `HotStuffEngine.HotStuffConsensus.OnTimeoutVote` | crates/consensus/src/hotstuff.rs:441-518 | the new state and the certificate a quorum forms |
| `HotStuffEngine.HotStuffConsensus.CertifyTimeout` | crates/consensus/src/hotstuff.rs:481-517 | the certificate names the highest certificate among the votes |
| `HotStuffEngine.HotStuffConsensus.OnTimeoutCertificate` | crates/consensus/src/hotstuff.rs:529-610 | the new state of an accepted certificate; nothing changes for a refused one |
| `HotStuffEngine.HotStuffConsensus.VerifyCertificate` | crates/consensus/src/hotstuff.rs:533-588 | true exactly for a certificate whose distinct known signers hold a quorum and whose aggregate verifies |
| `HotStuffEngine.HotStuffConsensus.AdoptLock` | crates/consensus/src/hotstuff.rs:590-596 | the lock rises to the named certificate or stays |
| `HotStuffEngine.HotStuffConsensus.StartRound` | crates/consensus/src/hotstuff.rs:598-607 | next slot in Propose, with the timeout votes of later rounds only |
| `HotStuffEngine.HotStuffConsensus.CheckFinality` | crates/consensus/src/hotstuff.rs:811-823 | true exactly for a finalized slot above the last reported one |
| `HotStuffEngine.HotStuffConsensus.RecordBlock` | crates/consensus/src/hotstuff.rs:829-832 | the parent and slot of a block are remembered |
| `HotStuffPruning.PruningIsInvisible` | crates/consensus/src/hotstuff.rs:347-392 | over any run of truthful steps whose proposals the lock decides, a pruning and a never-pruning engine reply alike and agree on the highest certificate slot |
| `HotStuffPruning.RunMirrors` | crates/consensus/src/hotstuff.rs:267-397 | the two engines stay mirror images over the run |
| `HotStuffPruning.StepMirrors` | crates/consensus/src/hotstuff.rs:219-610 | every step keeps them so |
| `HotStuffPruning.SameFinality` | crates/consensus/src/hotstuff.rs:347-392 | the two-chain rule fires alike |
| `HotStuffPruning.SameHighest` | crates/consensus/src/hotstuff.rs:613-623 | the highest certificate slot is the same |
| `HotStuffPruning.FinalizeMirrors` | crates/consensus/src/hotstuff.rs:796-807 | pruning at a finalization keeps the mirror |
| `HotStuffPruning.ForgottenParentIff` | crates/consensus/src/hotstuff.rs:219-264 | for a forgotten parent the engines judge a proposal alike if and only if the lock decides it |
| `HotStuffLock.PruningCanShow` | crates/consensus/src/hotstuff.rs:219-264 | a truthful run that ends with the lock below the prune line, after which the two engines judge a proposal differently |
| `HotStuffLock.LockFalls` | crates/consensus/src/hotstuff.rs:333-339 | a late prevote certificate lowers the lock |
| `HotStuffFinality.CountersNeverFall` | crates/consensus/src/hotstuff.rs:205-610 | in every run the slot and the committed, finalized and reported slots never fall |
| `HotStuffFinality.ReportsRise` | crates/consensus/src/lib.rs:16-31 | reported slots rise, so no slot is reported twice, and what was reported stays final |
| `HotStuffFinality.DeclaredSlotsRise` | crates/consensus/src/hotstuff.rs:267-398 | blocks are declared final in the order of their slots, at most one per slot |
| `HotStuffFinality.StepAdvances` | crates/consensus/src/hotstuff.rs:205-610 | the finalized slot rises exactly with the one block a step declares final, to that block's slot |
| `HotStuffTimeouts.TimeoutRoundTripIff` | crates/consensus/src/hotstuff.rs:441-610 | an assembled certificate verifies at another node with the same members if and only if its votes are unanimous |
| `HotStuffTimeouts.SplitTimeoutsAreRefused` | crates/consensus/src/hotstuff.rs:441-610 | two honest votes that name different slots: the node certifies the round and no node accepts the certificate |
| `HotStuffSignatures.SplitTimeoutsHappen` | crates/consensus/src/hotstuff.rs:441-610 | a whole instance, for every two members, stake, round and pair of slots |
| `HotStuffTimeouts.UnanimousIff` | crates/consensus/src/hotstuff.rs:481-489 | unanimous means every vote names the certificate the builder picks |
| `HotStuffTimeouts.HighestIsMaximal` | crates/consensus/src/hotstuff.rs:481-489 | the builder picks a highest named certificate |
| `HotStuffTimeouts.AggregateVerifiesIff` | crates/consensus/src/hotstuff.rs:559-588 | one aggregate check passes exactly when all signed messages are the checked one |
| `HotStuffTimeouts.BoxStakeIsSignerStake` | crates/consensus/src/hotstuff.rs:473-479 | the stake that formed a certificate is the stake its signers have |
| `HotStuffTimeouts.RunKeepsHonest` | crates/consensus/src/hotstuff.rs:441-518 | in every run recorded timeout votes are distinct, verified and from members |
| `HotStuffTimeouts.AcceptedCertificate` | crates/consensus/src/hotstuff.rs:529-610 | an accepted certificate never lowers the lock, starts the next slot in Propose and keeps exactly the later rounds |
| `LedgerModel.EffectOnAccounts` | crates/ledger/src/state.rs:163-217 | every balance changes by inflow minus outflow, self-transfers included, and only the sender nonce moves, by one |
| `LedgerModel.EffectOnUtxos` | crates/ledger/src/state.rs:248-271 | an output is unspent afterwards exactly if it is made, or was there and is not spent |
| `LedgerModel.EffectKeepsTree` | crates/ledger/src/state.rs:323-353 | updating the leaves of the written accounts keeps the tree the tree of all accounts |
| `LedgerModel.BlockKeepsTree` | crates/ledger/src/state.rs:323-353 | so does a whole block |
| `LedgerOverlay.LookupReadsOver` | crates/ledger/src/state.rs:35-52 | reading the overlay first and the store second reads the overlaid map, deletions included |
| `LedgerOverlay.SpeculateRefines` | crates/ledger/src/state.rs:664-845 | one speculative step shows what one direct step does |
| `LedgerOverlay.SpeculationRefines` | crates/ledger/src/state.rs:572-661 | a speculative block shows what direct execution of the expected chain's transactions does |
| `LedgerOverlay.ReceiptsAgree` | crates/ledger/src/state.rs:614-652 | same successes and same receipt roots |
| `LedgerOverlay.FailuresLeaveNoTrace` | crates/ledger/src/state.rs:614-652 | removing the failed transactions changes neither overlay, tree nor the other receipts |
| `LedgerStore.CommitKeepsConsistent` | crates/ledger/src/state.rs:867-901 | committing a tracked overlay keeps tree, stored accounts and stored root in agreement |
| `LedgerStore.DistributionKeepsConsistent` | crates/ledger/src/state.rs:428-493 | so does distributing fees |
| `LedgerStore.AccountKeepsConsistent` | crates/ledger/src/state.rs:539-554 | so does writing one account |
| `LedgerEngine.CheckDistinct` | crates/ledger/src/state.rs:130-137 | true exactly for inputs without repetition |
| `LedgerEngine.TotalStoredInputs` | crates/ledger/src/state.rs:139-156 | the total of the inputs, exactly when all exist, are the sender's and do not overflow |
| `LedgerEngine.TotalOverlaidInputs` | crates/ledger/src/state.rs:743-768 | the same read through the overlay |
| `LedgerEngine.CheckCover` | crates/ledger/src/state.rs:219-237 | true exactly when inputs cover outputs and fee without overflow |
| `LedgerEngine.PlanAccounts` | crates/ledger/src/state.rs:158-217 | the accounts to write, exactly when nonce, balance and recipient allow it |
| `LedgerEngine.PendingOverlay.constructor` | crates/ledger/src/state.rs:26-33 | empty |
| `LedgerEngine.PendingOverlay.PutAccounts` | crates/ledger/src/state.rs:791-811 | sender and recipient are written and listed as changed |
| `LedgerEngine.PendingOverlay.SpendInputs` | crates/ledger/src/state.rs:813-817 | every input is deleted in the overlay |
| `LedgerEngine.PendingOverlay.CreateOutputs` | crates/ledger/src/state.rs:818-834 | every output is written in the overlay |
| `LedgerEngine.Ledger.constructor` | crates/ledger/src/state.rs:60-81 | opening rebuilds the tree; on a consistent store it changes neither tree nor root |
| `LedgerEngine.Ledger.RecomputeStateRoot` | crates/ledger/src/state.rs:357-385 | the tree of all stored accounts and its root, in any visiting order |
| `LedgerEngine.Ledger.GetAccountFromOverlay` | crates/ledger/src/state.rs:848-861 | the account as the overlay shows it |
| `LedgerEngine.Ledger.ApplyTxToOverlay` | crates/ledger/src/state.rs:664-845 | success exactly for valid transactions; the overlay and tree they leave; nothing written on failure |
| `LedgerEngine.Ledger.ApplyBlockSpeculatively` | crates/ledger/src/state.rs:572-661 | overlay, receipts and announced root, exactly when every sender and signature is authentic; the store is not touched |
| `LedgerEngine.Ledger.ApplyTransactionValidated` | crates/ledger/src/state.rs:126-292 | direct execution has the effect of a valid transaction or none, and keeps tree and root consistent |
| `LedgerEngine.Ledger.BatchTransaction` | crates/ledger/src/state.rs:239-271 | the batch of a transaction writes exactly its effect |
| `LedgerEngine.Ledger.UpdateLeaves` | crates/ledger/src/state.rs:323-353 | the leaves of the written accounts |
| `LedgerEngine.Ledger.WriteBatch` | crates/state/storage/src/database.rs:173-200 | a batch takes effect in order |
| `LedgerEngine.Ledger.ApplyBlockTransactions` | crates/ledger/src/state.rs:976-1032 | state and receipts of applying the transactions in order, exactly when all are authentic |
| `LedgerEngine.Ledger.PrepareOverlayBatch` | crates/ledger/src/state.rs:867-901 | a batch that leads to the committed store, and the tree of the speculation, in any visiting order |
| `LedgerEngine.Ledger.CommitOverlay` | crates/ledger/src/state.rs:932-937 | the committed store and tree |
| `LedgerEngine.Ledger.SpeculateAndCommit` | crates/ledger/src/state.rs:572-937 | the state, receipts and root of direct execution, with the announced root committed |
| `LedgerEngine.Ledger.FoldFeeDistribution` | crates/ledger/src/state.rs:428-493 | the reward and both counters, exactly when none overflows |
| `LedgerEngine.Ledger.FoldReward` | crates/ledger/src/state.rs:437-448 | the proposer is paid on top of what the overlay shows |
| `LedgerEngine.Ledger.FoldCounters` | crates/ledger/src/state.rs:450-490 | burn and treasury grow by the given amounts, or nothing is written |
| `LedgerEngine.Ledger.CommitBlock` | crates/node/src/node.rs:930-943 | all or nothing in the store, exactly when no credit overflows; consistency kept; the tree after a failure |
| `LedgerEngine.Ledger.CreditAccount` | crates/ledger/src/state.rs:527-554 | the balance grows by the amount exactly when it fits |
| `LedgerEngine.Ledger.SeedAccount` | crates/ledger/src/state.rs:947-957 | the account is replaced, nonce included |
| `FeeMarketEngine.SplitIsExhaustive` | crates/ledger/src/emission.rs:101-105 | reward, treasury and burn add up to the larger of fees and burn; when the proposer gets its full share |
| `FeeMarketEngine.BaseFeeMoves` | crates/ledger/src/fee_market.rs:106-127 | direction of the base fee, its floor, and a fall of at most an eighth |
| `FeeMarketEngine.RiseWithinEighthIff` | crates/ledger/src/fee_market.rs:100-127 | a rise of at most an eighth, or one, for every fee, if and only if the gas is at most twice the target |
| `FeeMarketEngine.DefaultFeeDoubles` | crates/ledger/src/fee_market.rs:112-118 | at the default configuration a full block more than doubles the base fee |
| `FeeMarketEngine.OddMaximumRisesFaster` | crates/ledger/src/fee_market.rs:46-56 | an odd maximum rises by a quarter at its own limit |
| `FeeMarketEngine.FeeMarket.constructor` | crates/ledger/src/fee_market.rs:46-56 | target and maximum, with the maximum at most one above twice the target |
| `FeeMarketEngine.FeeMarket.ProcessBlock` | crates/ledger/src/fee_market.rs:71-99 | split, running totals and next base fee; the floor is kept |
| `FeeMarketEngine.FeeMarket.CalculateNextBaseFee` | crates/ledger/src/fee_market.rs:106-127 | the next base fee |
| `LedgerSupply.AccountsPayFee` | crates/ledger/src/state.rs:178-217 | balances fall by exactly the fee, or stay for output transactions |
| `LedgerSupply.UtxosBalance` | crates/ledger/src/state.rs:219-271 | unspent amounts change by outputs minus inputs minus replaced outputs |
| `LedgerSupply.OverwrittenNothingIff` | crates/ledger/src/state.rs:818-834 | nothing of value is replaced exactly if no output made was already unspent with a positive amount |
| `LedgerSupply.TransactionConserves` | crates/ledger/src/state.rs:126-292 | supply before is supply after plus fee plus what is lost |
| `LedgerSupply.BlockConserves` | crates/ledger/src/state.rs:614-652 | the same over a block |
| `LedgerSupply.DistributionPays` | crates/ledger/src/state.rs:428-493 | distribution adds exactly reward, burn and treasury |
| `LedgerSupply.CommitConserves` | crates/node/src/node.rs:922-943 | the identity for a committed block, whatever was collected |
| `LedgerSupply.NothingLostIff` | crates/ledger/src/state.rs:770-787 | a block loses nothing exactly if every success spends its inputs on outputs and fee and replaces nothing |
| `LedgerSupply.CoveredBlockNeverGrows` | crates/node/src/node.rs:922-943 | with collected fees that were paid and cover the burn the wealth never grows, and stays if and only if all paid fees were collected and nothing is lost |
| `LedgerSupply.FeesArePaidOrNot` | crates/node/src/node.rs:922-924 | the collected fees are those of successes plus those of failures |
| `LedgerSupply.UnpaidFeesAreMinted` | crates/node/src/node.rs:922-943 | for every block: what the store gains is the fees of failed transactions plus the uncovered burn, less what is lost and what the fee sum saturates away |
| `LedgerSupply.BlockConservesIff` | crates/node/src/node.rs:922-943 | for every block: if all fees offered are paid and cover the burn, the wealth never grows and stays exactly if every success spends exactly and the fees fit; and the other way round |
| `LedgerSupply.FailedTransactionMints` | crates/node/src/node.rs:922-943 | for every fee and base fee: a block with one failing transaction makes its fee, or the burn, out of nothing |
| `BlockCommit.AddUp` | crates/node/src/node.rs:922-927 | saturated sums of fees and gas over all transactions |
| `BlockCommit.CommitProducedBlock` | crates/node/src/node.rs:844-943 | commits exactly when signatures hold and credits fit; the whole new state of ledger and fee market, consistency and the conservation identity; store untouched otherwise |
| `LedgerChain.ChainIsRun` | crates/node/src/node.rs:844-943 | any sequence of commit attempts, failed ones included, moves accounts and outputs like one run |
| `LedgerChain.SuccessIsInRun` | crates/node/src/node.rs:844-943 | a transaction of a committed block is an event of that run, and succeeds in the block exactly if the event succeeds |
| `LedgerChain.ChainNonces` | crates/ledger/src/state.rs:671-708 | a success in a chain carries the initial nonce plus the number of earlier successes of its sender |
| `LedgerChain.ChainNoReplay` | crates/ledger/src/state.rs:671-708 | no transaction succeeds twice in a chain, in one block or in two |
| `LedgerChain.ChainNoDoubleSpend` | crates/ledger/src/state.rs:743-834 | no output is consumed twice in a chain |
| `LedgerChain.ChainReplacesNothing` | crates/ledger/src/state.rs:818-834 | no success in a chain replaces an unspent output |
| `LedgerChain.ChainExactIff` | crates/ledger/src/state.rs:770-834 | in a chain, spending exactly is just having a surplus equal to the fee |
| `LedgerChain.ChainBlockConservesIff` | crates/node/src/node.rs:922-943 | a paid and covered block of a chain never grows the wealth, and keeps it if and only if every surplus is the fee and the fees fit |
| `LedgerChain.CommitStaysSound` | crates/node/src/node.rs:930-943 | a commit whose credits fit keeps tree, stored accounts and stored root in agreement |
| `LedgerChain.ChainStaysSound` | crates/node/src/node.rs:930-943 | so does every chain of such blocks |
| `LedgerChain.SuccessShows` | crates/ledger/src/state.rs:705-708 | a success in a block shows in some nonce after it |
| `LedgerChain.FailedCommitSoundIff` | crates/node/src/node.rs:930-943 | after a commit that fails on an overflow, tree and store agree if and only if no transaction succeeded and no reward reached the tree |
| `LedgerChain.FullProposerLeavesTreeAhead` | crates/node/src/node.rs:930-943 | a sender that pays and a proposer with a full balance: the commit fails and the tree is ahead of the store |
| `LedgerReplay.BlockIsRun` | crates/ledger/src/state.rs:614-652 | a block is the run of its transactions |
| `LedgerReplay.CommitIsRun` | crates/node/src/node.rs:844-943 | a committed block with its fees is that run followed by the reward |
| `LedgerReplay.NoncesAreConsecutive` | crates/ledger/src/state.rs:671-708 | over any run the stored nonce counts successes and the k-th success carries the initial nonce plus k |
| `LedgerReplay.LaterNonceIsLarger` | crates/ledger/src/state.rs:671-708 | a later success of a sender has a larger nonce |
| `LedgerReplay.NoTransactionTwice` | crates/ledger/src/state.rs:671-708 | no transaction succeeds twice, not even signed anew |
| `LedgerReplay.EveryOutputHasOrigin` | crates/ledger/src/state.rs:818-834 | every unspent output was there at the start or was made by a success |
| `LedgerReplay.SuccessReplacesNothing` | crates/ledger/src/state.rs:818-834 | over a run no success replaces an unspent output |
| `LedgerReplay.SpentStaysGone` | crates/ledger/src/state.rs:813-834 | a consumed output never comes back |
| `LedgerReplay.NoOutputTwice` | crates/ledger/src/state.rs:743-834 | no output is consumed by two successes of a run, nor twice by one |
| `MempoolEngine.Mempool.constructor` | crates/mempool/src/pool.rs:85-98 | empty and valid |
| `MempoolEngine.Mempool.AddTransaction` | crates/mempool/src/pool.rs:174-324 | the whole new state of refused, replacing, evicting, ready and waiting transactions, with the victim and the routing; the indexes stay in agreement |
| `MempoolEngine.Mempool.ReplaceByFee` | crates/mempool/src/pool.rs:222-255 | replaces exactly when the fee is more than a tenth higher; the expected nonce rolls back |
| `MempoolEngine.Mempool.FindConflict` | crates/mempool/src/pool.rs:224-228 | the one indexed transaction with the same sender and nonce, if any |
| `MempoolEngine.Mempool.Insert` | crates/mempool/src/pool.rs:257-319 | room is made, and the newcomer is indexed and routed exactly if its nonce allows it |
| `MempoolEngine.Mempool.MakeRoom` | crates/mempool/src/pool.rs:257-260 | a full pool, and only a full one, loses its cheapest waiting transaction or a lowest ready one |
| `MempoolEngine.Mempool.Route` | crates/mempool/src/pool.rs:262-319 | indexed and filed exactly when the nonce is routable; otherwise everything is as before |
| `MempoolEngine.Mempool.Enqueue` | crates/mempool/src/pool.rs:278-319 | ready with the run behind it, or waiting, exactly within gap and queue limits |
| `MempoolEngine.Mempool.AddToPending` | crates/mempool/src/pool.rs:363-388 | one more ready transaction of its sender and the advanced nonce |
| `MempoolEngine.Mempool.PromoteQueued` | crates/mempool/src/pool.rs:327-361 | ends, and for every sender moves exactly the longest run from the expected nonce, in order, leaving the expected nonce at the first gap |
| `MempoolEngine.Mempool.PromoteSender` | crates/mempool/src/pool.rs:332-360 | the same for one sender, others untouched |
| `MempoolEngine.Mempool.EvictLowestFee` | crates/mempool/src/pool.rs:520-560 | a cheapest waiting transaction goes, or if none waits, a lowest ready one |
| `MempoolEngine.Mempool.FindCheapestWaiting` | crates/mempool/src/pool.rs:522-532 | a waiting transaction with the lowest fee over all queues |
| `MempoolEngine.Mempool.FindLowestReady` | crates/mempool/src/pool.rs:549-552 | an entry below which there is none |
| `MempoolEngine.Mempool.ExpireOldTransactions` | crates/mempool/src/pool.rs:115-156 | exactly the stale transactions leave indexes and queues, and no stale entry stays ready |
| `MempoolEngine.Mempool.ExpireQueues` | crates/mempool/src/pool.rs:127-148 | every queue keeps exactly its fresh transactions, and the collected hashes are the stale ones |
| `MempoolEngine.Mempool.SetCurrentSlot` | crates/mempool/src/pool.rs:108-111 | the slot is set and nothing stale remains |
| `MempoolEngine.Mempool.RemoveTransactions` | crates/mempool/src/pool.rs:495-508 | exactly the given hashes leave both indexes, and the heap keeps the live entries |
| `MempoolEngine.Mempool.RebuildHeap` | crates/mempool/src/pool.rs:510-518 | the heap keeps exactly the entries still indexed |
| `MempoolEngine.Mempool.AdvanceSenderNonce` | crates/mempool/src/pool.rs:166-171 | never lowers an expected nonce |
| `MempoolEngine.Mempool.Reorg` | crates/mempool/src/pool.rs:391-419 | afterwards nothing indexed and no expected nonce is below the new tip, and nothing appears that was neither indexed nor reverted; if the reverted ones can return, they and everything above the tip are indexed |
| `MempoolEngine.Mempool.ReAdd` | crates/mempool/src/pool.rs:411-417 | putting a transaction back adds at most that one and leaves nothing below the tip; one that can return does, and the ones after it still can |
| `MempoolEngine.Mempool.MoveToTip` | crates/mempool/src/pool.rs:393-407 | exactly what is below the new tip is forgotten |
| `MempoolModel.OneReturns` | crates/mempool/src/pool.rs:413-418 | with room and a free place, a reverted transaction in turn becomes ready at once and the others stay in turn |
| `MempoolModel.NotPromoted` | crates/mempool/src/pool.rs:327-361 | promotion leaves a sender alone that has nothing waiting at its expected nonce |
| `MempoolModel.FirstGap` | crates/mempool/src/pool.rs:332-340 | the first nonce from the given one on that does not wait |
| `MempoolModel.PromotionIsComplete` | crates/mempool/src/pool.rs:332-348 | after promotion nothing more is ready |
| `MempoolModel.TrackKeeps` | crates/mempool/src/pool.rs:274-276 | indexing a free nonce keeps both indexes in agreement with one transaction per nonce |
| `MempoolModel.ForgetKeeps` | crates/mempool/src/pool.rs:242-246 | forgetting a hash does too |
| `MempoolModel.LiveIsIndexed` | crates/mempool/src/pool.rs:510-518 | the rebuilt heap holds exactly the entries that are still indexed |
| `MempoolModel.RoutingRaises` | crates/mempool/src/pool.rs:363-378 | routing never lowers an expected nonce |
| `MempoolModel.ReplacementHeldIff` | crates/mempool/src/pool.rs:222-319 | after a paying replacement, evicting or not, the nonce is held by some transaction if and only if the newcomer was routable |
| `MempoolEngine.FullQueueLosesBoth` | crates/mempool/src/pool.rs:222-319 | sixty-four waiting transactions and a paying replacement of the first: both are gone from the index |
| `BlockSync.SyncManager.constructor` | crates/node/src/sync.rs:49-60 | an empty buffer |
| `BlockSync.SyncManager.BufferBlock` | crates/node/src/sync.rs:95-103 | the block is appended, unless the buffer is full |
| `BlockSync.SyncManager.DrainReady` | crates/node/src/sync.rs:109-158 | delivers the greedy chain and keeps exactly what the drain should keep, if and only if no block of slot 2^64 - 1 is delivered; what it delivers is always linked and was buffered |
| `BlockSync.SyncManager.FirstPass` | crates/node/src/sync.rs:118-137 | the loop over the sorted buffer takes the greedy chain, unless it takes a block of slot 2^64 - 1; a linked chain always |
| `BlockSync.SyncManager.SecondPass` | crates/node/src/sync.rs:139-154 | the second loop takes the leading links of what was kept, unless it takes a block of slot 2^64 - 1; a linked chain always |
| `BlockSync.SortOrders` | crates/node/src/sync.rs:113 | sorting orders the slots and loses nothing |
| `BlockSync.SortIsStable` | crates/node/src/sync.rs:113 | and keeps arrival order within a slot |
| `BlockSync.GreedyIsChain` | crates/node/src/sync.rs:109-158 | the delivered blocks have consecutive slots and link by parent hash |
| `BlockSync.GreedyIsMaximal` | crates/node/src/sync.rs:109-158 | no buffered block continues them |
| `BlockSync.SecondPassTakesNothing` | crates/node/src/sync.rs:139-154 | the second loop never takes a block |
| `BlockSync.DrainKeeps` | crates/node/src/sync.rs:109-158 | only blocks below the new expected slot are dropped |
| `BlockSync.DrainIsMaximal` | crates/node/src/sync.rs:109-158 | a second drain at once delivers nothing |
| `BlockSync.HasNextIff` | crates/node/src/sync.rs:131 | the expected slot saturates exactly when a block of the last slot is delivered |
| `BlockSync.DeliveriesFormOneChain` | crates/node/src/sync.rs:95-158 | over any run of arrivals and drains, everything delivered is one chain |

## Left out

- Reasons inside failed receipts and errors: the model keeps success or failure only.
- Gas and logs in receipts: constants or copies of the gas limit, so they would only add fields.
- HybridEngine.HybridConsensus.AdvanceSlot: does not model the pacemaker's timer, the epoch counter or the epoch's VRF randomness, which no modelled operation reads.
- VRF leader election, block validation and vote creation in `hybrid.rs`: they rest on cryptography that is not part of this model.
- Agreement on finalized blocks between different nodes: the code that decides when a node votes is not part of this model.
- One certificate per slot for HotStuff: that engine keeps no equivocation record, so the property belongs to the hybrid engine only.
- HybridEngine.HybridConsensus.CertifyTogether: the signers of a certificate are a set, because the source collects them from a hash map in no fixed order.
- `SlashingDetector`, slash proofs and reporter rewards: easy members beside the penalty arithmetic.
- LedgerEngine.Ledger.CommitBlock: the block and receipt records and the spent-output log that ride in the same batch are not modelled.
- BlockCommit.CommitProducedBlock: block assembly, the node's check of its own block, roots of transactions and receipts, and gossip around the commit are not modelled.
- LedgerEngine.Ledger.CreditAccount: one credit per batch; crediting several accounts in one batch is not modelled.
- LedgerChain.ChainIsRun: seeding an account resets its nonce, so a run has no seeding in it.
- MempoolEngine.Mempool.AddTransaction: signature, fee schedule and rate limit are answers given to it; the rate limiter's clock is not modelled.
- MempoolEngine.Mempool.Reorg: when some reverted transactions cannot return (rate limit, full pool, occupied or distant nonces), what becomes of each is what `AddTransaction` says of it in turn; no summary is stated.
- MempoolEngine.Mempool.EvictLowestFee: a scan for a lowest entry stands for sorting the heap's entries and taking the last.
- Mempool block selection, forced inclusion, the size cap and `queued` being part of `by_hash`: the last two do not hold on every path, the first two would only add easy members.
- BlockSync.SyncManager.DrainReady: once a block of slot 2^64 - 1 is delivered, the contract says that what is delivered is linked, not which blocks are chosen.
- Sync state, batch requests and stall handling: wall-clock behaviour and simple setters.
- Emission schedule, staking, rewards at epoch boundaries, RPC, P2P, AI mesh and applications: outside the core.
