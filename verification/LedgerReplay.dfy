/** Nothing happens twice: over any run of executed transactions and credits, nonces are consecutive, no
    transaction succeeds again and no unspent output is consumed again. */
module LedgerReplay {
  import opened Types
  import opened LedgerModel
  import opened LedgerOverlay
  import opened LedgerStore
  import opened LedgerSupply

  datatype Event = Execute(tx: Transaction) | Credit(account: Address, amount: u128)

  ghost function Credited(c: Codec, v: View, a: Address, amount: u128): View {
    var account := AccountAt(v.accounts, a);
    if account.balance + amount > U128_MAX then v
    else
      var richer := account.(balance := account.balance + amount);
      View(v.accounts[a := richer], v.utxos, v.leaves[a := c.accountHash(richer)])
  }

  ghost function Happen(c: Codec, v: View, e: Event): View {
    match e
    case Execute(tx) => Apply(c, v, tx)
    case Credit(a, amount) => Credited(c, v, a, amount)
  }

  ghost function Run(c: Codec, v: View, es: seq<Event>): View {
    if es == [] then v else Happen(c, Run(c, v, es[..|es| - 1]), es[|es| - 1])
  }

  /** The event is a transaction and it succeeds. */
  ghost predicate Succeeded(c: Codec, v: View, es: seq<Event>, i: nat)
    requires i < |es|
  {
    es[i].Execute? && Valid(c, Run(c, v, es[..i]), es[i].tx)
  }

  lemma {:induction false} RunSnoc(c: Codec, v: View, es: seq<Event>, i: nat)
    requires i < |es|
    ensures Run(c, v, es[..i + 1]) == Happen(c, Run(c, v, es[..i]), es[i])
  {
    assert es[..i + 1][..i] == es[..i];
  }

  lemma {:induction false} RunJoins(c: Codec, v: View, x: seq<Event>, y: seq<Event>)
    ensures Run(c, v, x + y) == Run(c, Run(c, v, x), y)
    decreases |y|
  {
    if y == [] {
      assert x + y == x;
    } else {
      var n := |y| - 1;
      RunJoins(c, v, x, y[..n]);
      assert (x + y)[..|x| + n] == x + y[..n];
    }
  }

  /** Same accounts and outputs, whatever the trees. */
  ghost predicate SameMoney(v: View, w: View) {
    v.accounts == w.accounts && v.utxos == w.utxos
  }

  /** The tree decides nothing. */
  lemma {:induction false} RunIgnoresTree(c: Codec, v: View, w: View, es: seq<Event>)
    requires SameMoney(v, w)
    ensures SameMoney(Run(c, v, es), Run(c, w, es))
    decreases |es|
  {
    if es != [] {
      RunIgnoresTree(c, v, w, es[..|es| - 1]);
    }
  }

  // ---------------------------------------------------------------- committed blocks are runs

  ghost function Executions(txs: seq<Transaction>): seq<Event> {
    seq(|txs|, i requires 0 <= i < |txs| => Execute(txs[i]))
  }

  lemma {:induction false} BlockIsRun(c: Codec, v: View, txs: seq<Transaction>)
    ensures Run(c, v, Executions(txs)) == ApplyAll(c, v, txs)
    decreases |txs|
  {
    if txs != [] {
      var n := |txs| - 1;
      BlockIsRun(c, v, txs[..n]);
      assert Executions(txs)[..n] == Executions(txs[..n]);
    }
  }

  ghost function RewardEvents(proposer: Address, fees: Fees): seq<Event> {
    if fees.reward == 0 then [] else [Credit(proposer, fees.reward)]
  }

  /** The tree after a block and its fees. */
  ghost function LeavesAfter(c: Codec, s: Store, leaves: map<Address, H256>, chain: Option<u64>, txs: seq<Transaction>,
                             proposer: Address, fees: Fees): map<Address, H256>
    requires FeesFit(AfterBlock(c, s, leaves, chain, txs), proposer, fees)
  {
    RewardedLeaves(c, AfterBlock(c, s, leaves, chain, txs),
                   SpeculateAll(c, Base(s.accounts, s.utxos, leaves), chain, txs).leaves,
                   proposer, fees)
  }

  ghost function BlockEvents(chain: Option<u64>, txs: seq<Transaction>, proposer: Address, fees: Fees): seq<Event> {
    Executions(Ours(chain, txs)) + RewardEvents(proposer, fees)
  }

  /** Committing a block with its fees is a run: the block's transactions, then the proposer's reward. */
  lemma {:induction false} CommitIsRun(c: Codec, s: Store, leaves: map<Address, H256>, chain: Option<u64>,
                                       txs: seq<Transaction>,
                                       proposer: Address, fees: Fees)
    requires FeesFit(AfterBlock(c, s, leaves, chain, txs), proposer, fees)
    ensures var after := AfterFees(c, s, leaves, chain, txs, proposer, fees);
            View(after.accounts, after.utxos, LeavesAfter(c, s, leaves, chain, txs, proposer, fees))
            == Run(c, View(s.accounts, s.utxos, leaves), BlockEvents(chain, txs, proposer, fees))
  {
    var es := Executions(Ours(chain, txs));
    SpeculationRefines(c, Base(s.accounts, s.utxos, leaves), chain, txs);
    BlockIsRun(c, View(s.accounts, s.utxos, leaves), Ours(chain, txs));
    if fees.reward == 0 {
      assert es + [] == es;
    } else {
      RunThen(c, View(s.accounts, s.utxos, leaves), es, Credit(proposer, fees.reward));
      PaidIsCredited(c, AfterBlock(c, s, leaves, chain, txs),
                     SpeculateAll(c, Base(s.accounts, s.utxos, leaves), chain, txs).leaves, proposer, fees);
    }
  }

  lemma {:induction false} RunThen(c: Codec, v: View, es: seq<Event>, e: Event)
    ensures Run(c, v, es + [e]) == Happen(c, Run(c, v, es), e)
  {
    assert (es + [e])[..|es|] == es;
  }

  /** Paying the proposer is a credit. */
  lemma {:induction false} PaidIsCredited(c: Codec, s: Store, leaves: map<Address, H256>, proposer: Address, fees: Fees)
    requires FeesFit(s, proposer, fees) && fees.reward > 0
    ensures var after := Distributed(c, s, leaves, proposer, fees);
            View(after.accounts, after.utxos, RewardedLeaves(c, s, leaves, proposer, fees))
            == Credited(c, View(s.accounts, s.utxos, leaves), proposer, fees.reward)
  {
  }

  // ---------------------------------------------------------------- nonces

  ghost function NonceOf(v: View, a: Address): nat {
    AccountAt(v.accounts, a).nonce
  }

  /** How many of the first `n` events are successes of `a`. */
  ghost function Successful(c: Codec, v: View, es: seq<Event>, a: Address, n: nat): nat
    requires n <= |es|
  {
    if n == 0 then 0
    else
      Successful(c, v, es, a, n - 1) + if Succeeded(c, v, es, n - 1) && es[n - 1].tx.sender == a then 1 else 0
  }

  lemma {:induction false} StepNonce(c: Codec, v: View, e: Event, a: Address)
    ensures NonceOf(Happen(c, v, e), a)
            == NonceOf(v, a) + if e.Execute? && e.tx.sender == a && Valid(c, v, e.tx) then 1 else 0
  {
  }

  /** NONCES. The stored nonce counts the successes, and each success carries the next nonce: the k-th success
      of a sender has its initial nonce plus k. */
  lemma {:induction false} NoncesAreConsecutive(c: Codec, v: View, es: seq<Event>, a: Address, n: nat)
    requires n <= |es|
    ensures NonceOf(Run(c, v, es[..n]), a) == NonceOf(v, a) + Successful(c, v, es, a, n)
    ensures n < |es| && Succeeded(c, v, es, n) && es[n].tx.sender == a ==>
              es[n].tx.nonce == NonceOf(v, a) + Successful(c, v, es, a, n)
    decreases n
  {
    if n > 0 {
      NoncesAreConsecutive(c, v, es, a, n - 1);
      RunSnoc(c, v, es, n - 1);
      StepNonce(c, Run(c, v, es[..n - 1]), es[n - 1], a);
    }
  }

  lemma {:induction false} SuccessesGrow(c: Codec, v: View, es: seq<Event>, a: Address, i: nat, j: nat)
    requires i <= j <= |es|
    ensures Successful(c, v, es, a, i) <= Successful(c, v, es, a, j)
    decreases j
  {
    if i < j {
      SuccessesGrow(c, v, es, a, i, j - 1);
    }
  }

  /** A later success of the same sender has a larger nonce. */
  lemma {:induction false} LaterNonceIsLarger(c: Codec, v: View, es: seq<Event>, i: nat, j: nat)
    requires i < j < |es| && Succeeded(c, v, es, i) && Succeeded(c, v, es, j) && es[i].tx.sender == es[j].tx.sender
    ensures es[i].tx.nonce < es[j].tx.nonce
  {
    var a := es[i].tx.sender;
    NoncesAreConsecutive(c, v, es, a, i);
    NoncesAreConsecutive(c, v, es, a, j);
    SuccessesGrow(c, v, es, a, i + 1, j);
  }

  /** NO REPLAY. No transaction succeeds twice, not even signed anew. */
  lemma {:induction false} NoTransactionTwice(c: Codec, v: View, es: seq<Event>, i: nat, j: nat)
    requires i < j < |es| && Succeeded(c, v, es, i) && Succeeded(c, v, es, j)
    ensures es[i].tx.(signature := "") != es[j].tx.(signature := "")
  {
    if es[i].tx.sender == es[j].tx.sender {
      LaterNonceIsLarger(c, v, es, i, j);
    }
  }

  // ---------------------------------------------------------------- unspent outputs

  /** A transaction's hash fixes its sender and nonce. */
  ghost predicate HashesBind(c: Codec, es: seq<Event>) {
    forall i, j :: 0 <= i < |es| && 0 <= j < |es| && es[i].Execute? && es[j].Execute? ==>
      (c.txHash(es[i].tx) == c.txHash(es[j].tx) ==>
         es[i].tx.sender == es[j].tx.sender && es[i].tx.nonce == es[j].tx.nonce)
  }

  /** No output that exists at the start was made by a transaction of the run. */
  ghost predicate StartsFresh(c: Codec, v: View, es: seq<Event>) {
    forall id, i :: id in v.utxos && 0 <= i < |es| && es[i].Execute? ==> c.txHash(es[i].tx) != id.txHash
  }

  /** Some success among the first `n` events made this output. */
  ghost predicate Made(c: Codec, v: View, es: seq<Event>, n: nat, id: UtxoId)
    requires n <= |es|
  {
    exists k :: 0 <= k < n && Succeeded(c, v, es, k) && c.txHash(es[k].tx) == id.txHash
  }

  /** An event either leaves an output as it was, spends it, or makes it. */
  lemma {:induction false} StepUtxo(c: Codec, v: View, e: Event, id: UtxoId)
    ensures id in Happen(c, v, e).utxos ==>
              (id in v.utxos && !(e.Execute? && Valid(c, v, e.tx) && id in e.tx.inputs))
              || (e.Execute? && Valid(c, v, e.tx) && c.txHash(e.tx) == id.txHash)
  {
    if e.Execute? && Valid(c, v, e.tx) {
      EffectOnUtxos(c, v, e.tx, id);
    }
  }

  /** Every output was there at the start or was made by a success of the run. */
  lemma {:induction false} EveryOutputHasOrigin(c: Codec, v: View, es: seq<Event>, n: nat, id: UtxoId)
    requires n <= |es| && id in Run(c, v, es[..n]).utxos
    ensures id in v.utxos || Made(c, v, es, n, id)
    decreases n
  {
    if n > 0 {
      RunSnoc(c, v, es, n - 1);
      StepUtxo(c, Run(c, v, es[..n - 1]), es[n - 1], id);
      if id in Run(c, v, es[..n - 1]).utxos {
        EveryOutputHasOrigin(c, v, es, n - 1, id);
      } else {
        assert Succeeded(c, v, es, n - 1);
      }
    } else {
      assert es[..0] == [];
    }
  }

  /** Once an output has existed, no later success makes it again. */
  lemma {:induction false} NeverRemade(c: Codec, v: View, es: seq<Event>, i: nat, m: nat, id: UtxoId)
    requires HashesBind(c, es) && StartsFresh(c, v, es)
    requires i <= m < |es| && id in Run(c, v, es[..i]).utxos && Succeeded(c, v, es, m)
    ensures c.txHash(es[m].tx) != id.txHash
  {
    EveryOutputHasOrigin(c, v, es, i, id);
    if id !in v.utxos {
      var k :| 0 <= k < i && Succeeded(c, v, es, k) && c.txHash(es[k].tx) == id.txHash;
      if c.txHash(es[m].tx) == id.txHash {
        LaterNonceIsLarger(c, v, es, k, m);
      }
    }
  }

  /** FRESH OUTPUTS. Over a whole run, no success replaces an unspent output. */
  lemma {:induction false} SuccessReplacesNothing(c: Codec, v: View, es: seq<Event>, i: nat)
    requires HashesBind(c, es) && StartsFresh(c, v, es) && i < |es| && Succeeded(c, v, es, i)
    ensures forall id :: id in Run(c, v, es[..i]).utxos ==> !Makes(c, es[i].tx, id)
    ensures Overwritten(c, Run(c, v, es[..i]).utxos, es[i].tx) == 0
  {
    forall id | id in Run(c, v, es[..i]).utxos ensures !Makes(c, es[i].tx, id) {
      NeverRemade(c, v, es, i, i, id);
    }
    OverwrittenNothingIff(c, Run(c, v, es[..i]).utxos, es[i].tx);
  }

  lemma {:induction false} SpentStaysGone(c: Codec, v: View, es: seq<Event>, i: nat, n: nat, id: UtxoId)
    requires HashesBind(c, es) && StartsFresh(c, v, es)
    requires i < n <= |es| && Succeeded(c, v, es, i) && id in es[i].tx.inputs
    ensures id !in Run(c, v, es[..n]).utxos
  {
    SpentWasThere(c, v, es, i, id);
    NotBackAfter(c, v, es, i, i, id);
    GoneStaysGone(c, v, es, i, n, id);
  }

  lemma {:induction false} GoneStaysGone(c: Codec, v: View, es: seq<Event>, i: nat, n: nat, id: UtxoId)
    requires HashesBind(c, es) && StartsFresh(c, v, es)
    requires i < n <= |es| && id in Run(c, v, es[..i]).utxos && id !in Run(c, v, es[..i + 1]).utxos
    ensures id !in Run(c, v, es[..n]).utxos
  {
    for m := i + 1 to n
      invariant id !in Run(c, v, es[..m]).utxos
    {
      NotBackAfter(c, v, es, i, m, id);
    }
  }

  /** Event `m` does not bring back an output that was there before event `i` and is absent, or spent by `m`. */
  lemma {:induction false} NotBackAfter(c: Codec, v: View, es: seq<Event>, i: nat, m: nat, id: UtxoId)
    requires HashesBind(c, es) && StartsFresh(c, v, es)
    requires i <= m < |es| && id in Run(c, v, es[..i]).utxos
    requires id !in Run(c, v, es[..m]).utxos || (Succeeded(c, v, es, m) && id in es[m].tx.inputs)
    ensures id !in Run(c, v, es[..m + 1]).utxos
  {
    if id in Run(c, v, es[..m + 1]).utxos {
      MustBeMade(c, v, es, m, id);
      NeverRemade(c, v, es, i, m, id);
    }
  }

  lemma {:induction false} SpentWasThere(c: Codec, v: View, es: seq<Event>, i: nat, id: UtxoId)
    requires i < |es| && Succeeded(c, v, es, i) && id in es[i].tx.inputs
    ensures id in Run(c, v, es[..i]).utxos
  {
    var p :| 0 <= p < |es[i].tx.inputs| && es[i].tx.inputs[p] == id;
  }

  /** An output that was absent, or spent by this very event, and is there now was made by the event. */
  lemma {:induction false} MustBeMade(c: Codec, v: View, es: seq<Event>, m: nat, id: UtxoId)
    requires m < |es| && id in Run(c, v, es[..m + 1]).utxos
    requires id !in Run(c, v, es[..m]).utxos || (Succeeded(c, v, es, m) && id in es[m].tx.inputs)
    ensures Succeeded(c, v, es, m) && c.txHash(es[m].tx) == id.txHash
  {
    RunSnoc(c, v, es, m);
    StepUtxo(c, Run(c, v, es[..m]), es[m], id);
  }

  /** NO DOUBLE SPEND. Over a whole run no output is consumed by two successes, nor twice by one. */
  lemma {:induction false} NoOutputTwice(c: Codec, v: View, es: seq<Event>, i: nat, j: nat, p: nat, q: nat)
    requires HashesBind(c, es) && StartsFresh(c, v, es)
    requires i < |es| && j < |es| && Succeeded(c, v, es, i) && Succeeded(c, v, es, j)
    requires p < |es[i].tx.inputs| && q < |es[j].tx.inputs| && es[i].tx.inputs[p] == es[j].tx.inputs[q]
    ensures i == j && p == q
  {
    var id := es[i].tx.inputs[p];
    if i < j {
      SpentStaysGone(c, v, es, i, j, id);
    } else if j < i {
      SpentStaysGone(c, v, es, j, i, id);
    }
  }
}
