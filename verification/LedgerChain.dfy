/** Chains of committed blocks: they are runs, and the tree follows the store as long as no fee credit
    overflows. */
module LedgerChain {
  import opened Types
  import opened LedgerModel
  import opened LedgerOverlay
  import opened LedgerStore
  import opened LedgerSupply
  import opened LedgerReplay
  import opened FeeMarketEngine

  /** A block as the node commits it. */
  datatype Committable = Committable(chain: Option<u64>, txs: seq<Transaction>, proposer: Address, fees: Fees)

  /** The stored and in-memory state between blocks. */
  datatype Chainstate = Chainstate(store: Store, leaves: map<Address, H256>)

  ghost function BaseOf(s: Chainstate): Base {
    Base(s.store.accounts, s.store.utxos, s.leaves)
  }

  ghost function ViewOf(s: Chainstate): View {
    BaseView(BaseOf(s))
  }

  /** The store with the block but without its fees. */
  ghost function Bare(c: Codec, s: Chainstate, b: Committable): Store {
    AfterBlock(c, s.store, s.leaves, b.chain, b.txs)
  }

  ghost predicate Fits(c: Codec, s: Chainstate, b: Committable) {
    FeesFit(Bare(c, s, b), b.proposer, b.fees)
  }

  /** What a commit attempt leaves: on an overflow the store stays, but the tree already has the block. */
  ghost function Commit(c: Codec, s: Chainstate, b: Committable): Chainstate {
    var tree := SpeculateAll(c, BaseOf(s), b.chain, b.txs).leaves;
    Chainstate(
      if Fits(c, s, b) then AfterFees(c, s.store, s.leaves, b.chain, b.txs, b.proposer, b.fees) else s.store,
      if RewardFits(Bare(c, s, b), b.proposer, b.fees)
          then RewardedLeaves(c, Bare(c, s, b), tree, b.proposer, b.fees) else tree)
  }

  ghost function CommitAll(c: Codec, s: Chainstate, blocks: seq<Committable>): Chainstate {
    if blocks == [] then s else Commit(c, CommitAll(c, s, blocks[..|blocks| - 1]), blocks[|blocks| - 1])
  }

  // ---------------------------------------------------------------- chains are runs

  /** The events of the blocks that are committed. */
  ghost function ChainEvents(c: Codec, s: Chainstate, blocks: seq<Committable>): seq<Event> {
    if blocks == [] then []
    else
      var n := |blocks| - 1;
      var b, before := blocks[n], ChainEvents(c, s, blocks[..n]);
      if Fits(c, CommitAll(c, s, blocks[..n]), b) then before + BlockEvents(b.chain, b.txs, b.proposer, b.fees)
          else before
  }

  /** Any sequence of commit attempts, failed ones included, moves accounts and outputs like one run. */
  lemma {:induction false} ChainIsRun(c: Codec, s: Chainstate, blocks: seq<Committable>)
    ensures SameMoney(ViewOf(CommitAll(c, s, blocks)), Run(c, ViewOf(s), ChainEvents(c, s, blocks)))
    decreases |blocks|
  {
    if blocks != [] {
      var n := |blocks| - 1;
      ChainIsRun(c, s, blocks[..n]);
      CommitExtends(c, ViewOf(s), CommitAll(c, s, blocks[..n]), ChainEvents(c, s, blocks[..n]), blocks[n]);
    }
  }

  lemma {:induction false} CommitExtends(c: Codec, v: View, t: Chainstate, es: seq<Event>, b: Committable)
    requires SameMoney(ViewOf(t), Run(c, v, es))
    ensures Fits(c, t, b) ==> SameMoney(ViewOf(Commit(c, t, b)),
                                        Run(c, v, es + BlockEvents(b.chain, b.txs, b.proposer, b.fees)))
    ensures !Fits(c, t, b) ==> SameMoney(ViewOf(Commit(c, t, b)), Run(c, v, es))
  {
    if Fits(c, t, b) {
      var more := BlockEvents(b.chain, b.txs, b.proposer, b.fees);
      CommitIsRun(c, t.store, t.leaves, b.chain, b.txs, b.proposer, b.fees);
      RunIgnoresTree(c, ViewOf(t), Run(c, v, es), more);
      RunJoins(c, v, es, more);
    }
  }

  // ---------------------------------------------------------------- successes in a chain

  /** Transaction `i` of block `n` succeeds and the block is committed. */
  ghost predicate SucceedsIn(c: Codec, s: Chainstate, blocks: seq<Committable>, n: nat, i: nat) {
    && n < |blocks| && i < |blocks[n].txs|
    && Fits(c, CommitAll(c, s, blocks[..n]), blocks[n])
    && SucceedsAt(c, BaseOf(CommitAll(c, s, blocks[..n])), blocks[n].chain, blocks[n].txs, i)
  }

  /** Where the run executes it: after the events of the earlier blocks and the earlier transactions of the
      expected chain in its own. */
  ghost function Place(c: Codec, s: Chainstate, blocks: seq<Committable>, n: nat, i: nat): nat
    requires n < |blocks| && i < |blocks[n].txs|
  {
    |ChainEvents(c, s, blocks[..n])| + |Ours(blocks[n].chain, blocks[n].txs[..i])|
  }

  lemma {:induction false} EventsGrow(c: Codec, s: Chainstate, blocks: seq<Committable>, m: nat, n: nat)
    requires m <= n <= |blocks|
    ensures ChainEvents(c, s, blocks[..m]) <= ChainEvents(c, s, blocks[..n])
  {
    var history := seq(|blocks| + 1, k requires 0 <= k <= |blocks| => ChainEvents(c, s, blocks[..k]));
    forall k | 0 <= k < |blocks| ensures history[k] <= history[k + 1] {
      EventsKept(c, s, blocks, k);
    }
    PrefixesGrow(history, m, n);
  }

  lemma {:induction false} PrefixesGrow(history: seq<seq<Event>>, m: nat, n: nat)
    requires m <= n < |history| && forall k :: 0 <= k < |history| - 1 ==> history[k] <= history[k + 1]
    ensures history[m] <= history[n]
    decreases n
  {
    if m < n {
      PrefixesGrow(history, m, n - 1);
      assert history[n - 1] <= history[n - 1 + 1];
    }
  }

  lemma {:induction false} EventsKept(c: Codec, s: Chainstate, blocks: seq<Committable>, n: nat)
    requires n < |blocks|
    ensures ChainEvents(c, s, blocks[..n]) <= ChainEvents(c, s, blocks[..n + 1])
  {
    EventsStep(c, s, blocks, n);
  }

  lemma {:induction false} EventsStep(c: Codec, s: Chainstate, blocks: seq<Committable>, n: nat)
    requires n < |blocks|
    ensures var b, before := blocks[n], ChainEvents(c, s, blocks[..n]);
            ChainEvents(c, s, blocks[..n + 1])
            == if Fits(c, CommitAll(c, s, blocks[..n]), b)
                then before + BlockEvents(b.chain, b.txs, b.proposer, b.fees) else before
  {
    assert blocks[..n + 1][..n] == blocks[..n];
  }

  /** A transaction of the expected chain keeps its place among them. */
  lemma {:induction false} OursAt(chain: Option<u64>, txs: seq<Transaction>, i: nat, n: nat)
    requires i < n <= |txs|
    ensures Ours(chain, txs[..i]) <= Ours(chain, txs[..n])
    ensures OnChain(chain, txs[i]) ==>
              |Ours(chain, txs[..i])| < |Ours(chain, txs[..n])|
                  && Ours(chain, txs[..n])[|Ours(chain, txs[..i])|] == txs[i]
    decreases n
  {
    assert txs[..n][..n - 1] == txs[..n - 1];
    if i < n - 1 {
      OursAt(chain, txs, i, n - 1);
    }
  }

  lemma {:induction false} CommittedEvents(c: Codec, s: Chainstate, blocks: seq<Committable>, n: nat)
    requires n < |blocks| && Fits(c, CommitAll(c, s, blocks[..n]), blocks[n])
    ensures var b := blocks[n];
            ChainEvents(c, s, blocks[..n]) + Executions(Ours(b.chain, b.txs)) <= ChainEvents(c, s, blocks)
  {
    assert blocks[..|blocks|] == blocks;
    EventsStep(c, s, blocks, n);
    EventsGrow(c, s, blocks, n + 1, |blocks|);
  }

  lemma {:induction false} PlaceInEvents(es: seq<Event>, before: seq<Event>, ours: seq<Transaction>,
                                         done: seq<Transaction>)
    requires before + Executions(ours) <= es && done < ours
    ensures var k := |before| + |done|;
            k < |es| && es[k] == Execute(ours[|done|]) && es[..k] == before + Executions(done)
  {
    var k := |before| + |done|;
    assert es[k] == (before + Executions(ours))[k];
    assert es[..k] == (before + Executions(ours))[..k];
  }

  /** A transaction of the expected chain in a committed block is an event of the chain's run. */
  lemma {:induction false} EventOf(c: Codec, s: Chainstate, blocks: seq<Committable>, n: nat, i: nat)
    requires n < |blocks| && i < |blocks[n].txs| && OnChain(blocks[n].chain, blocks[n].txs[i])
    requires Fits(c, CommitAll(c, s, blocks[..n]), blocks[n])
    ensures var es, k := ChainEvents(c, s, blocks), Place(c, s, blocks, n, i);
            && k < |es| && es[k] == Execute(blocks[n].txs[i])
            && es[..k] == ChainEvents(c, s, blocks[..n]) + Executions(Ours(blocks[n].chain, blocks[n].txs[..i]))
  {
    var b := blocks[n];
    OursAt(b.chain, b.txs, i, |b.txs|);
    assert b.txs[..|b.txs|] == b.txs;
    CommittedEvents(c, s, blocks, n);
    PlaceInEvents(ChainEvents(c, s, blocks), ChainEvents(c, s, blocks[..n]), Ours(b.chain, b.txs),
                  Ours(b.chain, b.txs[..i]));
  }

  /** THE LINK. It succeeds in the block exactly if the event succeeds in the run. */
  lemma {:induction false} SuccessIsInRun(c: Codec, s: Chainstate, blocks: seq<Committable>, n: nat, i: nat)
    requires n < |blocks| && i < |blocks[n].txs| && OnChain(blocks[n].chain, blocks[n].txs[i])
    requires Fits(c, CommitAll(c, s, blocks[..n]), blocks[n])
    ensures var es, k := ChainEvents(c, s, blocks), Place(c, s, blocks, n, i);
            && k < |es| && es[k] == Execute(blocks[n].txs[i])
            && (SucceedsIn(c, s, blocks, n, i) <==> Succeeded(c, ViewOf(s), es, k))
  {
    EventOf(c, s, blocks, n, i);
    SeenInRun(c, s, blocks[..n], blocks[n], i);
  }

  /** What the transaction sees in its block is what the run has come to. */
  lemma {:induction false} SeenInRun(c: Codec, s: Chainstate, blocks: seq<Committable>, b: Committable, i: nat)
    requires i <= |b.txs|
    ensures var base := BaseOf(CommitAll(c, s, blocks));
            SameMoney(Seen(base, SpeculateAll(c, base, b.chain, b.txs[..i])),
                      Run(c, ViewOf(s), ChainEvents(c, s, blocks) + Executions(Ours(b.chain, b.txs[..i]))))
  {
    var base, done := BaseOf(CommitAll(c, s, blocks)), Ours(b.chain, b.txs[..i]);
    SpeculationRefines(c, base, b.chain, b.txs[..i]);
    BlockIsRun(c, BaseView(base), done);
    ChainIsRun(c, s, blocks);
    RunIgnoresTree(c, BaseView(base), Run(c, ViewOf(s), ChainEvents(c, s, blocks)), Executions(done));
    RunJoins(c, ViewOf(s), ChainEvents(c, s, blocks), Executions(done));
  }

  /** Different successes have different places, in order. */
  lemma {:induction false} PlacesAreOrdered(c: Codec, s: Chainstate, blocks: seq<Committable>, m: nat, i: nat, n: nat,
                                            j: nat)
    requires SucceedsIn(c, s, blocks, m, i) && SucceedsIn(c, s, blocks, n, j)
    requires m < n || (m == n && i < j)
    ensures Place(c, s, blocks, m, i) < Place(c, s, blocks, n, j)
  {
    if m < n {
      assert blocks[..n][..m] == blocks[..m];
      EventOf(c, s, blocks[..n], m, i);
    } else {
      OursAt(blocks[m].chain, blocks[m].txs, i, j);
    }
  }

  /** NONCES over a chain. The success carries the sender's initial nonce plus the number of its earlier ones. */
  lemma {:induction false} ChainNonces(c: Codec, s: Chainstate, blocks: seq<Committable>, n: nat, i: nat)
    requires SucceedsIn(c, s, blocks, n, i)
    ensures var tx, es, k := blocks[n].txs[i], ChainEvents(c, s, blocks), Place(c, s, blocks, n, i);
            k <= |es| && tx.nonce == NonceOf(ViewOf(s), tx.sender) + Successful(c, ViewOf(s), es, tx.sender, k)
  {
    SuccessIsInRun(c, s, blocks, n, i);
    NoncesAreConsecutive(c, ViewOf(s), ChainEvents(c, s, blocks), blocks[n].txs[i].sender, Place(c, s, blocks, n, i));
  }

  /** NO REPLAY over a chain. No transaction succeeds twice, in one block or in two, not even signed anew. */
  lemma {:induction false} ChainNoReplay(c: Codec, s: Chainstate, blocks: seq<Committable>, m: nat, i: nat, n: nat,
                                         j: nat)
    requires SucceedsIn(c, s, blocks, m, i) && SucceedsIn(c, s, blocks, n, j)
    requires m < n || (m == n && i < j)
    ensures blocks[m].txs[i].(signature := "") != blocks[n].txs[j].(signature := "")
  {
    SuccessIsInRun(c, s, blocks, m, i);
    SuccessIsInRun(c, s, blocks, n, j);
    PlacesAreOrdered(c, s, blocks, m, i, n, j);
    NoTransactionTwice(c, ViewOf(s), ChainEvents(c, s, blocks), Place(c, s, blocks, m, i), Place(c, s, blocks, n, j));
  }

  /** NO DOUBLE SPEND over a chain. No output is consumed by two successes, in one block or in two. */
  lemma {:induction false} ChainNoDoubleSpend(c: Codec, s: Chainstate, blocks: seq<Committable>,
                                              m: nat, i: nat, n: nat, j: nat, id: UtxoId)
    requires HashesBind(c, ChainEvents(c, s, blocks)) && StartsFresh(c, ViewOf(s), ChainEvents(c, s, blocks))
    requires SucceedsIn(c, s, blocks, m, i) && SucceedsIn(c, s, blocks, n, j)
    requires m < n || (m == n && i < j)
    ensures id !in blocks[m].txs[i].inputs || id !in blocks[n].txs[j].inputs
  {
    var x, y := blocks[m].txs[i], blocks[n].txs[j];
    SuccessIsInRun(c, s, blocks, m, i);
    SuccessIsInRun(c, s, blocks, n, j);
    PlacesAreOrdered(c, s, blocks, m, i, n, j);
    if id in x.inputs && id in y.inputs {
      var p :| 0 <= p < |x.inputs| && x.inputs[p] == id;
      var q :| 0 <= q < |y.inputs| && y.inputs[q] == id;
      NoOutputTwice(c, ViewOf(s), ChainEvents(c, s, blocks), Place(c, s, blocks, m, i), Place(c, s, blocks, n, j), p,
                    q);
    }
  }

  /** FRESH OUTPUTS over a chain. In a committed block no success replaces an unspent output. */
  lemma {:induction false} ChainReplacesNothing(c: Codec, s: Chainstate, blocks: seq<Committable>, n: nat, i: nat)
    requires HashesBind(c, ChainEvents(c, s, blocks)) && StartsFresh(c, ViewOf(s), ChainEvents(c, s, blocks))
    requires SucceedsIn(c, s, blocks, n, i)
    ensures var b, base := blocks[n], BaseOf(CommitAll(c, s, blocks[..n]));
            ReplacesNothing(c, UtxosBefore(c, base, b.chain, b.txs, i), b.txs[i])
  {
    SuccessIsInRun(c, s, blocks, n, i);
    SuccessReplacesNothing(c, ViewOf(s), ChainEvents(c, s, blocks), Place(c, s, blocks, n, i));
    EventOf(c, s, blocks, n, i);
    SeenInRun(c, s, blocks[..n], blocks[n], i);
  }

  /** A success uses up its inputs. */
  ghost predicate BalancedAt(c: Codec, b: Base, chain: Option<u64>, txs: seq<Transaction>, i: nat)
    requires i < |txs|
  {
    SucceedsAt(c, b, chain, txs, i) && IsUtxoTx(txs[i]) ==>
      SumInputs(UtxosBefore(c, b, chain, txs, i), txs[i].inputs) == SumOutputs(txs[i].outputs) + txs[i].fee
  }

  /** So for a committed block of a chain, spending exactly is using up the inputs: the surplus of every success
      that spends outputs is its fee. */
  lemma {:induction false} ChainExactIff(c: Codec, s: Chainstate, blocks: seq<Committable>, n: nat)
    requires HashesBind(c, ChainEvents(c, s, blocks)) && StartsFresh(c, ViewOf(s), ChainEvents(c, s, blocks))
    requires n < |blocks| && Fits(c, CommitAll(c, s, blocks[..n]), blocks[n])
    ensures var b, base := blocks[n], BaseOf(CommitAll(c, s, blocks[..n]));
            AllExact(c, base, b.chain, b.txs, |b.txs|)
            <==> forall i :: 0 <= i < |b.txs| ==> BalancedAt(c, base, b.chain, b.txs, i)
  {
    var b, base := blocks[n], BaseOf(CommitAll(c, s, blocks[..n]));
    forall i | 0 <= i < |b.txs|
      ensures ExactAt(c, base, b.chain, b.txs, i) <==> BalancedAt(c, base, b.chain, b.txs, i)
    {
      if SucceedsIn(c, s, blocks, n, i) {
        ChainReplacesNothing(c, s, blocks, n, i);
      }
    }
  }

  /** CONSERVATION over a chain. A committed block in which every fee offered is paid and the fees cover the burn
      never grows the wealth, and keeps it exactly if the fees fit and the surplus of every success is its fee. */
  lemma {:induction false} ChainBlockConservesIff(c: Codec, s: Chainstate, blocks: seq<Committable>, n: nat,
                                                  baseFee: u128, gas: u64)
    requires HashesBind(c, ChainEvents(c, s, blocks)) && StartsFresh(c, ViewOf(s), ChainEvents(c, s, blocks))
    requires n < |blocks| && Fits(c, CommitAll(c, s, blocks[..n]), blocks[n])
    requires blocks[n].fees == Split(baseFee, gas, Collected(blocks[n].txs))
    requires AllPay(c, BaseOf(CommitAll(c, s, blocks[..n])), blocks[n].chain, blocks[n].txs, |blocks[n].txs|)
    requires SaturatingMul(baseFee, gas) <= Collected(blocks[n].txs)
    ensures var b, before, after := blocks[n], CommitAll(c, s, blocks[..n]), CommitAll(c, s, blocks[..n + 1]);
            && Wealth(after.store) <= Wealth(before.store)
            && (Wealth(after.store) == Wealth(before.store)
                <==> SumFees(b.txs) <= U128_MAX
                     && forall i :: 0 <= i < |b.txs| ==> BalancedAt(c, BaseOf(before), b.chain, b.txs, i))
  {
    var b, before := blocks[n], CommitAll(c, s, blocks[..n]);
    CommitAllSnoc(c, s, blocks, n);
    BlockConservesIff(c, before.store, before.leaves, b.chain, b.txs, b.proposer, baseFee, gas);
    ChainExactIff(c, s, blocks, n);
  }

  // ---------------------------------------------------------------- tree and store

  ghost predicate Sound(c: Codec, s: Chainstate) {
    Consistent(c, s.store, s.leaves)
  }

  ghost predicate AllFit(c: Codec, s: Chainstate, blocks: seq<Committable>) {
    forall i :: 0 <= i < |blocks| ==> Fits(c, CommitAll(c, s, blocks[..i]), blocks[i])
  }

  /** While no credit overflows, tree and stored root agree with the stored accounts after every block. */
  lemma {:induction false} ChainStaysSound(c: Codec, s: Chainstate, blocks: seq<Committable>, n: nat)
    requires Sound(c, s) && AllFit(c, s, blocks) && n <= |blocks|
    ensures Sound(c, CommitAll(c, s, blocks[..n]))
    decreases n
  {
    if n == 0 {
      assert blocks[..0] == [];
    } else {
      ChainStaysSound(c, s, blocks, n - 1);
      NextStaysSound(c, s, blocks, n - 1);
    }
  }

  lemma {:induction false} NextStaysSound(c: Codec, s: Chainstate, blocks: seq<Committable>, i: nat)
    requires i < |blocks| && AllFit(c, s, blocks) && Sound(c, CommitAll(c, s, blocks[..i]))
    ensures Sound(c, CommitAll(c, s, blocks[..i + 1]))
  {
    CommitAllSnoc(c, s, blocks, i);
    CommitStaysSound(c, CommitAll(c, s, blocks[..i]), blocks[i]);
  }

  lemma {:induction false} CommitAllSnoc(c: Codec, s: Chainstate, blocks: seq<Committable>, i: nat)
    requires i < |blocks|
    ensures CommitAll(c, s, blocks[..i + 1]) == Commit(c, CommitAll(c, s, blocks[..i]), blocks[i])
  {
    assert blocks[..i + 1][..i] == blocks[..i];
  }

  lemma {:induction false} CommitStaysSound(c: Codec, s: Chainstate, b: Committable)
    requires Sound(c, s) && Fits(c, s, b)
    ensures Sound(c, Commit(c, s, b))
  {
    TreeFollowsBlock(c, s, b);
    DistributionKeepsConsistent(c, Bare(c, s, b), SpeculateAll(c, BaseOf(s), b.chain, b.txs).leaves, b.proposer,
                                b.fees);
  }

  lemma {:induction false} TreeFollowsBlock(c: Codec, s: Chainstate, b: Committable)
    requires Sound(c, s)
    ensures Consistent(c, Bare(c, s, b), SpeculateAll(c, BaseOf(s), b.chain, b.txs).leaves)
  {
    SpeculationRefines(c, BaseOf(s), b.chain, b.txs);
    BlockKeepsTree(c, ViewOf(s), Ours(b.chain, b.txs));
  }

  /** Different accounts have different hashes. */
  ghost predicate AccountHashBinds(c: Codec) {
    forall x, y :: c.accountHash(x) == c.accountHash(y) ==> x == y
  }

  lemma {:induction false} SameTreeSameAccounts(c: Codec, x: map<Address, Account>, y: map<Address, Account>)
    requires AccountHashBinds(c) && Hashed(c, x) == Hashed(c, y)
    ensures x == y
  {
    assert x.Keys == Hashed(c, x).Keys == Hashed(c, y).Keys == y.Keys;
    forall a | a in x ensures x[a] == y[a] {
      assert Hashed(c, x)[a] == Hashed(c, y)[a];
    }
  }

  lemma {:induction false} NonceNeverFalls(c: Codec, b: Base, chain: Option<u64>, txs: seq<Transaction>, a: Address)
    ensures NonceOf(Seen(b, SpeculateAll(c, b, chain, txs)), a) >= NonceOf(BaseView(b), a)
  {
    var ours := Ours(chain, txs);
    SpeculationRefines(c, b, chain, txs);
    BlockIsRun(c, BaseView(b), ours);
    NoncesAreConsecutive(c, BaseView(b), Executions(ours), a, |ours|);
    assert Executions(ours)[..|ours|] == Executions(ours);
  }

  /** If some transaction of a block succeeds, some sender's nonce has risen after the block. */
  lemma {:induction false} SuccessShows(c: Codec, b: Base, chain: Option<u64>, txs: seq<Transaction>)
    returns (a: Address)
    requires Survivors(c, b, chain, txs) != []
    ensures NonceOf(Seen(b, SpeculateAll(c, b, chain, txs)), a) > NonceOf(BaseView(b), a)
    decreases |txs|
  {
    var n := |txs| - 1;
    var spec := SpeculateAll(c, b, chain, txs[..n]);
    if Succeeds(c, b, spec, chain, txs[n]) {
      a := txs[n].sender;
      NonceNeverFalls(c, b, chain, txs[..n], a);
      SpeculationRefines(c, b, chain, txs[..n]);
      SpeculateRefines(c, b, spec, txs[n]);
      EffectOnAccounts(c, Seen(b, spec), txs[n], a);
    } else {
      a := SuccessShows(c, b, chain, txs[..n]);
    }
  }

  /** The tree and the store after a failed commit agree exactly if there was nothing to commit: no transaction
      of the block succeeded and no reward reached the tree. */
  lemma {:induction false} FailedCommitSoundIff(c: Codec, s: Chainstate, b: Committable)
    requires Sound(c, s) && !Fits(c, s, b) && AccountHashBinds(c)
    ensures Sound(c, Commit(c, s, b))
            <==> Survivors(c, BaseOf(s), b.chain, b.txs) == []
                 && (b.fees.reward == 0 || !RewardFits(Bare(c, s, b), b.proposer, b.fees))
  {
    TreeFollowsBlock(c, s, b);
    FailedTreeIsOf(c, s, b);
    NothingAheadIff(c, s, b);
  }

  /** The accounts of the tree are the stored ones exactly if there was nothing to commit. */
  lemma {:induction false} NothingAheadIff(c: Codec, s: Chainstate, b: Committable)
    ensures AheadAccounts(c, s, b) == s.store.accounts
            <==> Survivors(c, BaseOf(s), b.chain, b.txs) == []
                 && (b.fees.reward == 0 || !RewardFits(Bare(c, s, b), b.proposer, b.fees))
  {
    var bare := Bare(c, s, b);
    SpeculationRefines(c, BaseOf(s), b.chain, b.txs);
    if Survivors(c, BaseOf(s), b.chain, b.txs) == [] {
      FailuresLeaveNoTrace(c, BaseOf(s), b.chain, b.txs);
      assert bare.accounts == s.store.accounts;
    } else {
      var a := SuccessShows(c, BaseOf(s), b.chain, b.txs);
      assert AccountAt(AheadAccounts(c, s, b), a).nonce == AccountAt(bare.accounts, a).nonce;
      assert AheadAccounts(c, s, b) != s.store.accounts;
    }
  }

  /** The accounts the tree has after a failed commit. */
  ghost function AheadAccounts(c: Codec, s: Chainstate, b: Committable): map<Address, Account> {
    var bare := Bare(c, s, b);
    if b.fees.reward > 0 && RewardFits(bare, b.proposer, b.fees)
    then bare.accounts[b.proposer := Rewarded(bare, b.proposer, b.fees)] else bare.accounts
  }

  /** So they agree exactly if those accounts are the stored ones. */
  lemma {:induction false} FailedTreeIsOf(c: Codec, s: Chainstate, b: Committable)
    requires Sound(c, s) && !Fits(c, s, b) && AccountHashBinds(c)
    requires Consistent(c, Bare(c, s, b), SpeculateAll(c, BaseOf(s), b.chain, b.txs).leaves)
    ensures Sound(c, Commit(c, s, b)) <==> AheadAccounts(c, s, b) == s.store.accounts
  {
    var bare, ahead := Bare(c, s, b), AheadAccounts(c, s, b);
    if b.fees.reward > 0 && RewardFits(bare, b.proposer, b.fees) {
      var a := Rewarded(bare, b.proposer, b.fees);
      assert Hashed(c, bare.accounts[b.proposer := a]) == Hashed(c, bare.accounts)[b.proposer := c.accountHash(a)];
    }
    assert Commit(c, s, b).leaves == Hashed(c, ahead);
    if Hashed(c, ahead) == Hashed(c, s.store.accounts) {
      SameTreeSameAccounts(c, ahead, s.store.accounts);
    }
  }

  // ---------------------------------------------------------------- a commit that fails

  /** One seeded account after another on an empty store. */
  ghost function Seeded(c: Codec, x: Account, y: Account): Chainstate {
    var s := Chainstate(WithAccount(c, Store(map[], map[], None, 0, 0), map[], x), map[x.address := c.accountHash(x)]);
    Chainstate(WithAccount(c, s.store, s.leaves, y), s.leaves[y.address := c.accountHash(y)])
  }

  /** A sender that pays its fee and a proposer whose balance is full: the commit fails and the tree is ahead. */
  lemma {:induction false} FullProposerLeavesTreeAhead(c: Codec, tx: Transaction, proposer: Address, baseFee: u128)
    requires AccountHashBinds(c) && tx.sender != proposer
    requires !IsUtxoTx(tx) && tx.programId == None && tx.nonce == 0
    requires Split(baseFee, tx.gasLimit, tx.fee).reward > 0
    ensures var s := Seeded(c, NewAccount(tx.sender).(balance := tx.fee), NewAccount(proposer).(balance := U128_MAX));
            var b := Committable(Some(tx.chainId), [tx], proposer, Split(baseFee, tx.gasLimit, tx.fee));
            Sound(c, s) && !Fits(c, s, b) && !Sound(c, Commit(c, s, b))
  {
    var x, y := NewAccount(tx.sender).(balance := tx.fee), NewAccount(proposer).(balance := U128_MAX);
    var s := Seeded(c, x, y);
    var b := Committable(Some(tx.chainId), [tx], proposer, Split(baseFee, tx.gasLimit, tx.fee));
    SeededIsSound(c, x, y);
    PayingSucceeds(c, s, tx);
    FailedCommitSoundIff(c, s, b);
  }

  lemma {:induction false} SeededIsSound(c: Codec, x: Account, y: Account)
    ensures Sound(c, Seeded(c, x, y))
  {
    var empty := Store(map[], map[], None, 0, 0);
    assert Hashed(c, map[]) == map[];
    AccountKeepsConsistent(c, empty, map[], x);
    AccountKeepsConsistent(c, WithAccount(c, empty, map[], x), map[x.address := c.accountHash(x)], y);
  }

  /** A block of one plain transaction that can pay: it survives and touches only its sender. */
  lemma {:induction false} PayingSucceeds(c: Codec, s: Chainstate, tx: Transaction)
    requires !IsUtxoTx(tx) && tx.programId == None && tx.nonce == 0
    requires tx.sender in s.store.accounts && s.store.accounts[tx.sender] == NewAccount(tx.sender).(balance := tx.fee)
    ensures Survivors(c, BaseOf(s), Some(tx.chainId), [tx]) == [tx]
    ensures forall a :: a != tx.sender ==>
              AccountAt(AfterBlock(c, s.store, s.leaves, Some(tx.chainId), [tx]).accounts, a)
                  == AccountAt(s.store.accounts, a)
  {
    var base := BaseOf(s);
    assert [tx][..0] == [];
    StartSeesBase(base);
    PayingIsValid(c, BaseView(base), tx);
    SpeculationRefines(c, base, Some(tx.chainId), []);
    SpeculateRefines(c, base, Start(base), tx);
    assert SpeculateAll(c, base, Some(tx.chainId), [tx]) == Speculate(c, base, Start(base), tx);
  }

  lemma {:induction false} StartSeesBase(b: Base)
    ensures Seen(b, Start(b)) == BaseView(b)
  {
  }

  lemma {:induction false} PayingIsValid(c: Codec, v: View, tx: Transaction)
    requires !IsUtxoTx(tx) && tx.programId == None && tx.nonce == 0
    requires tx.sender in v.accounts && v.accounts[tx.sender] == NewAccount(tx.sender).(balance := tx.fee)
    ensures Valid(c, v, tx)
  {
    assert SumInputs(v.utxos, tx.inputs) == 0 && SumOutputs(tx.outputs) == 0;
  }
}
