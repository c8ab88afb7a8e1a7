/** Where the money goes: what every transaction, block and fee distribution does to the total of balances,
    unspent outputs and the burn and treasury counters. */
module LedgerSupply {
  import opened Types
  import opened Totals
  import opened LedgerModel
  import opened LedgerOverlay
  import opened LedgerStore
  import opened FeeMarketEngine

  ghost function Balances(accounts: map<Address, Account>): map<Address, nat> {
    map a | a in accounts :: accounts[a].balance
  }

  ghost function Amounts(utxos: map<UtxoId, Utxo>): map<UtxoId, nat> {
    map id | id in utxos :: utxos[id].amount
  }

  ghost function Supply(accounts: map<Address, Account>, utxos: map<UtxoId, Utxo>): nat {
    Total(Balances(accounts)) + Total(Amounts(utxos))
  }

  // ---------------------------------------------------------------- accounts

  lemma {:induction false} PutBalance(accounts: map<Address, Account>, k: Address, a: Account)
    ensures Total(Balances(accounts[k := a])) == Total(Balances(accounts)) - AccountAt(accounts, k).balance + a.balance
  {
    assert Balances(accounts[k := a]) == Balances(accounts)[k := a.balance];
    TotalInsert(Balances(accounts), k, a.balance);
  }

  /** The balances fall by the fee, if it is paid from the balance; a transfer moves, also to oneself. */
  lemma {:induction false} AccountsPayFee(c: Codec, accounts: map<Address, Account>, tx: Transaction)
    requires AccountsValid(c, accounts, tx)
    ensures Total(Balances(accounts + AccountWrites(c, accounts, tx))) + (if IsUtxoTx(tx) then 0 else tx.fee)
            == Total(Balances(accounts))
  {
    var s, r := SenderAfter(c, accounts, tx), RecipientAfter(c, accounts, tx);
    PutBalance(accounts, tx.sender, s);
    if r.None? {
      assert accounts + AccountWrites(c, accounts, tx) == accounts[tx.sender := s];
    } else {
      var recipient := Decode(c, tx).payload.recipient;
      PutBalance(accounts[tx.sender := s], recipient, r.value);
      assert accounts + AccountWrites(c, accounts, tx) == accounts[tx.sender := s][recipient := r.value];
    }
  }

  // ---------------------------------------------------------------- unspent outputs

  lemma {:induction false} SpendingTakesInputs(utxos: map<UtxoId, Utxo>, inputs: seq<UtxoId>)
    requires Distinct(inputs) && forall id :: id in inputs ==> id in utxos
    ensures Total(Amounts(utxos - Spent(inputs))) + SumInputs(utxos, inputs) == Total(Amounts(utxos))
    decreases |inputs|
  {
    if inputs == [] {
      assert utxos - Spent(inputs) == utxos;
    } else {
      var n := |inputs| - 1;
      var rest, last := utxos - Spent(inputs[..n]), inputs[n];
      SpendingTakesInputs(utxos, inputs[..n]);
      assert last !in inputs[..n];
      assert Amounts(utxos - Spent(inputs)) == Amounts(rest) - {last};
      TotalSplit(Amounts(rest), last);
    }
  }

  lemma {:induction false} CreatedTotal(c: Codec, tx: Transaction, n: nat)
    requires n <= |tx.outputs|
    ensures Total(Amounts(Created(c, tx, n))) == SumOutputs(tx.outputs[..n])
    ensures forall id :: id in Created(c, tx, n) ==> id.index < n
    decreases n
  {
    if n == 0 {
      assert Amounts(map[]) == map[];
    } else {
      CreatedTotal(c, tx, n - 1);
      var id := UtxoId(c.txHash(tx), n - 1);
      assert id !in Created(c, tx, n - 1);
      assert Amounts(Created(c, tx, n)) == Amounts(Created(c, tx, n - 1))[id := tx.outputs[n - 1].amount];
      TotalInsert(Amounts(Created(c, tx, n - 1)), id, tx.outputs[n - 1].amount);
      assert tx.outputs[..n][..n - 1] == tx.outputs[..n - 1];
    }
  }

  /** Unspent outputs that the transaction's own outputs replace. */
  ghost function Overwritten(c: Codec, utxos: map<UtxoId, Utxo>, tx: Transaction): nat {
    Weight(Amounts(utxos - Spent(tx.inputs)), Created(c, tx, |tx.outputs|).Keys)
  }

  lemma {:induction false} OverlayTotal(base: map<UtxoId, Utxo>, top: map<UtxoId, Utxo>)
    ensures Total(Amounts(base + top)) + Weight(Amounts(base), top.Keys) == Total(Amounts(base)) + Total(Amounts(top))
  {
    var kept, hit := Amounts(base - top.Keys), Restrict(Amounts(base), top.Keys);
    assert Amounts(base + top) == kept + Amounts(top);
    TotalUnion(kept, Amounts(top));
    assert Amounts(base) == kept + hit;
    TotalUnion(kept, hit);
  }

  lemma {:induction false} UtxosBalance(c: Codec, utxos: map<UtxoId, Utxo>, tx: Transaction)
    requires FundsValid(utxos, tx)
    ensures Total(Amounts(UtxosAfter(c, utxos, tx))) + SumInputs(utxos, tx.inputs) + Overwritten(c, utxos, tx)
            == Total(Amounts(utxos)) + SumOutputs(tx.outputs)
  {
    SpendingTakesInputs(utxos, tx.inputs);
    CreatedTotal(c, tx, |tx.outputs|);
    assert tx.outputs[..|tx.outputs|] == tx.outputs;
    OverlayTotal(utxos - Spent(tx.inputs), Created(c, tx, |tx.outputs|));
  }

  // ---------------------------------------------------------------- one transaction

  /** What disappears beyond the fee: inputs the outputs and fee do not use up, and replaced outputs. */
  ghost function Lost(c: Codec, v: View, tx: Transaction): nat
    requires Valid(c, v, tx)
  {
    if IsUtxoTx(tx)
    then SumInputs(v.utxos, tx.inputs) - SumOutputs(tx.outputs) - tx.fee + Overwritten(c, v.utxos, tx)
    else 0
  }

  /** CONSERVATION, one transaction. The supply falls by the fee and by what is lost, never by less. */
  lemma {:induction false} TransactionConserves(c: Codec, v: View, tx: Transaction)
    requires Valid(c, v, tx)
    ensures var w := Effect(c, v, tx);
            Supply(w.accounts, w.utxos) + tx.fee + Lost(c, v, tx) == Supply(v.accounts, v.utxos)
  {
    AccountsPayFee(c, v.accounts, tx);
    UtxosBalance(c, v.utxos, tx);
    if !IsUtxoTx(tx) {
      PlainTransactionKeepsUtxos(c, v.utxos, tx);
    }
  }

  lemma {:induction false} PlainTransactionKeepsUtxos(c: Codec, utxos: map<UtxoId, Utxo>, tx: Transaction)
    requires !IsUtxoTx(tx)
    ensures UtxosAfter(c, utxos, tx) == utxos
  {
    assert Spent(tx.inputs) == {};
    assert Created(c, tx, |tx.outputs|) == map[];
  }

  // ---------------------------------------------------------------- blocks

  /** Fees of the transactions that succeed. */
  ghost function PaidFees(c: Codec, v: View, txs: seq<Transaction>): nat {
    if txs == [] then 0
    else
      var n := |txs| - 1;
      PaidFees(c, v, txs[..n]) + if Valid(c, ApplyAll(c, v, txs[..n]), txs[n]) then txs[n].fee else 0
  }

  ghost function TotalLost(c: Codec, v: View, txs: seq<Transaction>): nat {
    if txs == [] then 0
    else
      var n := |txs| - 1;
      var w := ApplyAll(c, v, txs[..n]);
      TotalLost(c, v, txs[..n]) + if Valid(c, w, txs[n]) then Lost(c, w, txs[n]) else 0
  }

  /** CONSERVATION, one block. */
  lemma {:induction false} BlockConserves(c: Codec, v: View, txs: seq<Transaction>)
    ensures var w := ApplyAll(c, v, txs);
            Supply(w.accounts, w.utxos) + PaidFees(c, v, txs) + TotalLost(c, v, txs) == Supply(v.accounts, v.utxos)
    decreases |txs|
  {
    if txs != [] {
      var n := |txs| - 1;
      BlockConserves(c, v, txs[..n]);
      var w := ApplyAll(c, v, txs[..n]);
      if Valid(c, w, txs[n]) {
        TransactionConserves(c, w, txs[n]);
      }
    }
  }

  // ---------------------------------------------------------------- when nothing is lost

  /** No output the transaction makes replaces an unspent one that is worth something. */
  ghost predicate ReplacesNothing(c: Codec, utxos: map<UtxoId, Utxo>, tx: Transaction) {
    forall id :: id in utxos && id !in tx.inputs && Makes(c, tx, id) ==> utxos[id].amount == 0
  }

  lemma {:induction false} OverwrittenNothingIff(c: Codec, utxos: map<UtxoId, Utxo>, tx: Transaction)
    ensures Overwritten(c, utxos, tx) == 0 <==> ReplacesNothing(c, utxos, tx)
  {
    var made := Created(c, tx, |tx.outputs|).Keys;
    var hit := Restrict(Amounts(utxos - Spent(tx.inputs)), made);
    forall id ensures id in made <==> Makes(c, tx, id) {
      CreatedAt(c, tx, |tx.outputs|, id);
    }
    TotalZeroIff(hit);
    if Total(hit) == 0 {
      forall id | id in utxos && id !in tx.inputs && Makes(c, tx, id) ensures utxos[id].amount == 0 {
        assert id in hit;
      }
    }
  }

  /** The inputs are used up exactly by outputs and fee, and the outputs are new. */
  ghost predicate SpendsExactly(c: Codec, utxos: map<UtxoId, Utxo>, tx: Transaction) {
    IsUtxoTx(tx) ==> SumInputs(utxos, tx.inputs) == SumOutputs(tx.outputs) + tx.fee && ReplacesNothing(c, utxos, tx)
  }

  lemma {:induction false} LostNothingAtIff(c: Codec, w: View, tx: Transaction)
    ensures Valid(c, w, tx) ==> (Lost(c, w, tx) == 0 <==> SpendsExactly(c, w.utxos, tx))
  {
    OverwrittenNothingIff(c, w.utxos, tx);
  }

  // ---------------------------------------------------------------- a committed block

  /** Everything the store accounts for. */
  ghost function Wealth(s: Store): nat {
    Supply(s.accounts, s.utxos) + s.burned + s.treasury
  }

  lemma {:induction false} DistributionPays(c: Codec, s: Store, leaves: map<Address, H256>, proposer: Address,
                                            fees: Fees)
    requires FeesFit(s, proposer, fees)
    ensures Wealth(Distributed(c, s, leaves, proposer, fees)) == Wealth(s) + fees.reward + fees.burned + fees.treasury
  {
    if fees.reward != 0 {
      PutBalance(s.accounts, proposer, Rewarded(s, proposer, fees));
    }
  }

  /** The store after a block is executed speculatively, committed and its fees distributed. */
  ghost function AfterBlock(c: Codec, s: Store, leaves: map<Address, H256>, chain: Option<u64>,
                            txs: seq<Transaction>): Store {
    var spec := SpeculateAll(c, Base(s.accounts, s.utxos, leaves), chain, txs);
    Committed(c, s, spec.overlay, spec.leaves)
  }

  ghost function AfterFees(c: Codec, s: Store, leaves: map<Address, H256>, chain: Option<u64>, txs: seq<Transaction>,
                           proposer: Address, fees: Fees): Store
    requires FeesFit(AfterBlock(c, s, leaves, chain, txs), proposer, fees)
  {
    Distributed(c, AfterBlock(c, s, leaves, chain, txs),
                SpeculateAll(c, Base(s.accounts, s.utxos, leaves), chain, txs).leaves,
                proposer, fees)
  }

  /** CONSERVATION, a committed block. Whatever was collected, the store gains the larger of the collected
      fees and the burn, and loses the fees paid and what is lost. */
  lemma {:induction false} CommitConserves(c: Codec, s: Store, leaves: map<Address, H256>, chain: Option<u64>,
                                           txs: seq<Transaction>,
                                           proposer: Address, baseFee: u128, gas: u64, collected: u128)
    requires FeesFit(AfterBlock(c, s, leaves, chain, txs), proposer, Split(baseFee, gas, collected))
    ensures var v, ours, fees := View(s.accounts, s.utxos, leaves), Ours(chain, txs), Split(baseFee, gas, collected);
            Wealth(AfterFees(c, s, leaves, chain, txs, proposer, fees)) + PaidFees(c, v, ours) + TotalLost(c, v, ours)
            == Wealth(s) + Max(collected, SaturatingMul(baseFee, gas))
  {
    var v, ours := View(s.accounts, s.utxos, leaves), Ours(chain, txs);
    SpeculationRefines(c, Base(s.accounts, s.utxos, leaves), chain, txs);
    BlockConserves(c, v, ours);
    DistributionPays(c, AfterBlock(c, s, leaves, chain, txs),
                     SpeculateAll(c, Base(s.accounts, s.utxos, leaves), chain, txs).leaves, proposer,
                         Split(baseFee, gas, collected));
    SplitIsExhaustive(baseFee, gas, collected);
  }

  // ---------------------------------------------------------------- fees the node collects

  ghost function SumFees(txs: seq<Transaction>): nat {
    if txs == [] then 0 else SumFees(txs[..|txs| - 1]) + txs[|txs| - 1].fee
  }

  ghost function SumGas(txs: seq<Transaction>): nat {
    if txs == [] then 0 else SumGas(txs[..|txs| - 1]) + txs[|txs| - 1].gasLimit
  }

  ghost predicate SucceedsAt(c: Codec, b: Base, chain: Option<u64>, txs: seq<Transaction>, i: nat)
    requires i < |txs|
  {
    Succeeds(c, b, SpeculateAll(c, b, chain, txs[..i]), chain, txs[i])
  }

  /** Fees of the transactions that fail. */
  ghost function UnpaidFees(c: Codec, b: Base, chain: Option<u64>, txs: seq<Transaction>): nat {
    if txs == [] then 0
    else
      var n := |txs| - 1;
      UnpaidFees(c, b, chain, txs[..n]) + if SucceedsAt(c, b, chain, txs, n) then 0 else txs[n].fee
  }

  lemma {:induction false} FeesArePaidOrNot(c: Codec, b: Base, chain: Option<u64>, txs: seq<Transaction>)
    ensures SumFees(txs) == PaidFees(c, BaseView(b), Ours(chain, txs)) + UnpaidFees(c, b, chain, txs)
    decreases |txs|
  {
    if txs != [] {
      var n := |txs| - 1;
      FeesArePaidOrNot(c, b, chain, txs[..n]);
      SpeculationRefines(c, b, chain, txs[..n]);
      var ours := Ours(chain, txs[..n]);
      assert (ours + [txs[n]])[..|ours|] == ours;
    }
  }

  /** A transaction that offers a fee pays it. */
  ghost predicate PaysAt(c: Codec, b: Base, chain: Option<u64>, txs: seq<Transaction>, i: nat)
    requires i < |txs|
  {
    txs[i].fee == 0 || SucceedsAt(c, b, chain, txs, i)
  }

  ghost predicate AllPay(c: Codec, b: Base, chain: Option<u64>, txs: seq<Transaction>, n: nat)
    requires n <= |txs|
  {
    forall i :: 0 <= i < n ==> PaysAt(c, b, chain, txs, i)
  }

  /** A running total that grows exactly at the flagged places is zero up to `n` if none is flagged before. */
  lemma {:induction false} StaysZeroIff(totals: seq<nat>, still: seq<bool>, n: nat)
    requires |totals| == |still| + 1 && n <= |still| && totals[0] == 0
    requires forall i :: 0 <= i < |still| ==> totals[i] <= totals[i + 1] && (totals[i] == totals[i + 1] <==> still[i])
    ensures totals[n] == 0 <==> forall i :: 0 <= i < n ==> still[i]
    decreases n
  {
    if n > 0 {
      StaysZeroIff(totals, still, n - 1);
      assert totals[n - 1] <= totals[n - 1 + 1];
    }
  }

  lemma {:induction false} AllPaidIff(c: Codec, b: Base, chain: Option<u64>, txs: seq<Transaction>)
    ensures UnpaidFees(c, b, chain, txs) == 0 <==> AllPay(c, b, chain, txs, |txs|)
  {
    var totals := seq(|txs| + 1, i requires 0 <= i <= |txs| => UnpaidFees(c, b, chain, txs[..i]));
    var still := seq(|txs|, i requires 0 <= i < |txs| => PaysAt(c, b, chain, txs, i));
    forall i | 0 <= i < |txs| ensures totals[i] <= totals[i + 1] && (totals[i] == totals[i + 1] <==> still[i]) {
      UnpaidAtLast(c, b, chain, txs, i);
    }
    assert forall i :: 0 <= i < |txs| ==> still[i] == PaysAt(c, b, chain, txs, i);
    StaysZeroIff(totals, still, |txs|);
    assert txs[..|txs|] == txs;
  }

  lemma {:induction false} UnpaidAtLast(c: Codec, b: Base, chain: Option<u64>, txs: seq<Transaction>, i: nat)
    requires i < |txs|
    ensures UnpaidFees(c, b, chain, txs[..i + 1])
            == UnpaidFees(c, b, chain, txs[..i]) + if SucceedsAt(c, b, chain, txs, i) then 0 else txs[i].fee
  {
    assert txs[..i + 1][..i] == txs[..i];
  }

  /** The outputs a transaction of a block sees. */
  ghost function UtxosBefore(c: Codec, b: Base, chain: Option<u64>, txs: seq<Transaction>, i: nat): map<UtxoId, Utxo>
    requires i < |txs|
  {
    Seen(b, SpeculateAll(c, b, chain, txs[..i])).utxos
  }

  /** The transaction fails or spends exactly. */
  ghost predicate ExactAt(c: Codec, b: Base, chain: Option<u64>, txs: seq<Transaction>, i: nat)
    requires i < |txs|
  {
    SucceedsAt(c, b, chain, txs, i) ==> SpendsExactly(c, UtxosBefore(c, b, chain, txs, i), txs[i])
  }

  ghost predicate AllExact(c: Codec, b: Base, chain: Option<u64>, txs: seq<Transaction>, n: nat)
    requires n <= |txs|
  {
    forall i :: 0 <= i < n ==> ExactAt(c, b, chain, txs, i)
  }

  /** A block loses nothing exactly if every transaction of it that succeeds spends exactly. */
  lemma {:induction false} NothingLostIff(c: Codec, b: Base, chain: Option<u64>, txs: seq<Transaction>)
    ensures TotalLost(c, BaseView(b), Ours(chain, txs)) == 0 <==> AllExact(c, b, chain, txs, |txs|)
  {
    var totals := seq(|txs| + 1, i requires 0 <= i <= |txs| => TotalLost(c, BaseView(b), Ours(chain, txs[..i])));
    var still := seq(|txs|, i requires 0 <= i < |txs| => ExactAt(c, b, chain, txs, i));
    forall i | 0 <= i < |txs| ensures totals[i] <= totals[i + 1] && (totals[i] == totals[i + 1] <==> still[i]) {
      LostAtLast(c, b, chain, txs, i);
    }
    assert forall i :: 0 <= i < |txs| ==> still[i] == ExactAt(c, b, chain, txs, i);
    StaysZeroIff(totals, still, |txs|);
    assert txs[..|txs|] == txs;
  }

  /** What one more transaction loses. */
  lemma {:induction false} LostAtLast(c: Codec, b: Base, chain: Option<u64>, txs: seq<Transaction>, i: nat)
    requires i < |txs|
    ensures var before, after := TotalLost(c, BaseView(b), Ours(chain, txs[..i])),
            TotalLost(c, BaseView(b), Ours(chain, txs[..i + 1]));
            before <= after && (before == after <==> ExactAt(c, b, chain, txs, i))
  {
    assert txs[..i + 1][..i] == txs[..i];
    SpeculationRefines(c, b, chain, txs[..i]);
    var ours := Ours(chain, txs[..i]);
    assert (ours + [txs[i]])[..|ours|] == ours;
    LostNothingAtIff(c, ApplyAll(c, BaseView(b), ours), txs[i]);
  }

  /** How far the burn exceeds the collected fees. */
  ghost function Shortfall(baseFee: u128, gas: u64, collected: u128): nat {
    Max(0, SaturatingMul(baseFee, gas) - collected)
  }

  /** What the node collects: the fees of every transaction in the block, saturating. */
  ghost function Collected(txs: seq<Transaction>): u128 {
    Min(SumFees(txs), U128_MAX)
  }

  /** Failed transactions count too. So the fees of the failed ones, and a burn that the fees do not cover,
      come from nowhere; fees beyond the largest amount, and what transactions lose, go nowhere. */
  lemma {:induction false} UnpaidFeesAreMinted(c: Codec, s: Store, leaves: map<Address, H256>, chain: Option<u64>,
                                               txs: seq<Transaction>, proposer: Address, baseFee: u128, gas: u64)
    requires FeesFit(AfterBlock(c, s, leaves, chain, txs), proposer, Split(baseFee, gas, Collected(txs)))
    ensures var b := Base(s.accounts, s.utxos, leaves);
            Wealth(AfterFees(c, s, leaves, chain, txs, proposer, Split(baseFee, gas, Collected(txs))))
            + TotalLost(c, BaseView(b), Ours(chain, txs)) + (SumFees(txs) - Collected(txs))
            == Wealth(s) + UnpaidFees(c, b, chain, txs) + Shortfall(baseFee, gas, Collected(txs))
  {
    CommitConserves(c, s, leaves, chain, txs, proposer, baseFee, gas, Collected(txs));
    FeesArePaidOrNot(c, Base(s.accounts, s.utxos, leaves), chain, txs);
  }

  /** With collected fees that cover the burn and were all paid, the wealth never grows, whatever the
      transactions. It stays exactly if every paid fee was collected and every success spends exactly. */
  lemma {:induction false} CoveredBlockNeverGrows(c: Codec, s: Store, leaves: map<Address, H256>, chain: Option<u64>,
                                                  txs: seq<Transaction>, proposer: Address, baseFee: u128, gas: u64,
                                                  collected: u128)
    requires FeesFit(AfterBlock(c, s, leaves, chain, txs), proposer, Split(baseFee, gas, collected))
    requires SaturatingMul(baseFee, gas) <= collected <= PaidFees(c, View(s.accounts, s.utxos, leaves),
                                                                  Ours(chain, txs))
    ensures var v, ours := View(s.accounts, s.utxos, leaves), Ours(chain, txs);
            var after := AfterFees(c, s, leaves, chain, txs, proposer, Split(baseFee, gas, collected));
            && Wealth(after) <= Wealth(s)
            && (Wealth(after) == Wealth(s)
                <==> collected == PaidFees(c, v, ours)
                     && AllExact(c, Base(s.accounts, s.utxos, leaves), chain, txs, |txs|))
  {
    var v, ours := View(s.accounts, s.utxos, leaves), Ours(chain, txs);
    CommitConserves(c, s, leaves, chain, txs, proposer, baseFee, gas, collected);
    NothingLostIff(c, Base(s.accounts, s.utxos, leaves), chain, txs);
  }

  /** CONSERVATION, the node's block. If every fee offered is paid and the fees cover the burn, the wealth never
      grows, and stays exactly if every success spends exactly and the fees fit. If every success spends exactly and the
      fees fit, it never shrinks, and stays exactly if every fee offered is paid and the fees cover the burn. */
  lemma {:induction false} BlockConservesIff(c: Codec, s: Store, leaves: map<Address, H256>, chain: Option<u64>,
                                             txs: seq<Transaction>, proposer: Address, baseFee: u128, gas: u64)
    requires FeesFit(AfterBlock(c, s, leaves, chain, txs), proposer, Split(baseFee, gas, Collected(txs)))
    ensures var b := Base(s.accounts, s.utxos, leaves);
            var after := AfterFees(c, s, leaves, chain, txs, proposer, Split(baseFee, gas, Collected(txs)));
            var paid := AllPay(c, b, chain, txs, |txs|) && SaturatingMul(baseFee, gas) <= Collected(txs);
            var exact := AllExact(c, b, chain, txs, |txs|) && SumFees(txs) <= U128_MAX;
            && (paid ==> Wealth(after) <= Wealth(s) && (Wealth(after) == Wealth(s) <==> exact))
            && (exact ==> Wealth(after) >= Wealth(s) && (Wealth(after) == Wealth(s) <==> paid))
  {
    var b := Base(s.accounts, s.utxos, leaves);
    UnpaidFeesAreMinted(c, s, leaves, chain, txs, proposer, baseFee, gas);
    AllPaidIff(c, b, chain, txs);
    NothingLostIff(c, b, chain, txs);
  }

  /** On an empty ledger an account transaction with a fee fails and leaves no trace. */
  lemma {:induction false} UnfundedFails(c: Codec, chain: Option<u64>, tx: Transaction)
    requires tx.fee > 0 && !IsUtxoTx(tx)
    ensures SpeculateAll(c, Base(map[], map[], map[]), chain, [tx]) == Start(Base(map[], map[], map[]))
    ensures PaidFees(c, View(map[], map[], map[]), Ours(chain, [tx])) == 0
    ensures TotalLost(c, View(map[], map[], map[]), Ours(chain, [tx])) == 0
  {
    var b := Base(map[], map[], map[]);
    assert [tx][..0] == [];
    assert Over<Address, Account>(map[], Layer(map[], {})) == map[];
    assert !SucceedsAt(c, b, chain, [tx], 0);
    FeesArePaidOrNot(c, b, chain, [tx]);
  }

  /** A block with one failing transaction, on an empty ledger, at any base fee: its fee, or the burn if that is
      larger, appears out of nothing. */
  lemma {:induction false} FailedTransactionMints(c: Codec, chain: Option<u64>, proposer: Address, tx: Transaction,
                                                  baseFee: u128)
    requires tx.fee > 0 && !IsUtxoTx(tx)
    ensures var s, fees := Store(map[], map[], None, 0, 0), Split(baseFee, tx.gasLimit, tx.fee);
            && Wealth(s) == 0 && Collected([tx]) == tx.fee
            && FeesFit(AfterBlock(c, s, map[], chain, [tx]), proposer, fees)
            && Wealth(AfterFees(c, s, map[], chain, [tx], proposer, fees))
               == Max(tx.fee, SaturatingMul(baseFee, tx.gasLimit))
  {
    var s, fees := Store(map[], map[], None, 0, 0), Split(baseFee, tx.gasLimit, tx.fee);
    assert [tx][..0] == [];
    assert SumFees([tx]) == tx.fee;
    assert Balances(map[]) == map[] && Amounts(map[]) == map[];
    UnfundedFails(c, chain, tx);
    assert AfterBlock(c, s, map[], chain, [tx]).accounts == map[];
    CommitConserves(c, s, map[], chain, [tx], proposer, baseFee, tx.gasLimit, tx.fee);
  }
}
