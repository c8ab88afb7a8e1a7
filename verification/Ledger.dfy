/** The ledger as the node runs it: a store, the Merkle tree of its accounts, and the two ways to execute
    transactions on them. */
module LedgerEngine {
  import opened Types
  import opened LedgerModel
  import opened LedgerOverlay
  import opened LedgerStore

  // ---------------------------------------------------------------- validation

  method CheckDistinct(inputs: seq<UtxoId>) returns (ok: bool)
    ensures ok == Distinct(inputs)
  {
    var seen: set<UtxoId> := {};
    for i := 0 to |inputs|
      invariant seen == set j | 0 <= j < i :: inputs[j]
      invariant Distinct(inputs[..i])
    {
      if inputs[i] in seen {
        return false;
      }
      seen := seen + {inputs[i]};
    }
    assert inputs[..|inputs|] == inputs;
    return true;
  }

  ghost predicate OwnedUpTo(utxos: map<UtxoId, Utxo>, tx: Transaction, n: nat) {
    forall i :: 0 <= i < |tx.inputs| && i < n ==> tx.inputs[i] in utxos && utxos[tx.inputs[i]].owner == tx.sender
  }

  lemma {:induction false} SumInputsGrows(utxos: map<UtxoId, Utxo>, inputs: seq<UtxoId>, i: nat)
    requires i <= |inputs|
    ensures SumInputs(utxos, inputs[..i]) <= SumInputs(utxos, inputs)
    decreases |inputs|
  {
    if i == |inputs| {
      assert inputs[..i] == inputs;
    } else {
      var n := |inputs| - 1;
      assert inputs[..n][..i] == inputs[..i];
      SumInputsGrows(utxos, inputs[..n], i);
    }
  }

  lemma {:induction false} SumOutputsGrows(outputs: seq<UtxoOutput>, i: nat)
    requires i <= |outputs|
    ensures SumOutputs(outputs[..i]) <= SumOutputs(outputs)
    decreases |outputs|
  {
    if i == |outputs| {
      assert outputs[..i] == outputs;
    } else {
      var n := |outputs| - 1;
      assert outputs[..n][..i] == outputs[..i];
      SumOutputsGrows(outputs[..n], i);
    }
  }

  /** Existence, ownership and total of the inputs, read from the store. */
  method TotalStoredInputs(utxos: map<UtxoId, Utxo>, tx: Transaction) returns (total: Option<u128>)
    ensures total.Some? <==> Owned(utxos, tx) && SumInputs(utxos, tx.inputs) <= U128_MAX
    ensures total.Some? ==> total.value == SumInputs(utxos, tx.inputs)
  {
    var sum := 0;
    for i := 0 to |tx.inputs|
      invariant OwnedUpTo(utxos, tx, i) && sum == SumInputs(utxos, tx.inputs[..i]) <= U128_MAX
    {
      var id := tx.inputs[i];
      assert tx.inputs[..i + 1][..i] == tx.inputs[..i];
      SumInputsGrows(utxos, tx.inputs, i + 1);
      if id !in utxos || utxos[id].owner != tx.sender || sum + utxos[id].amount > U128_MAX {
        return None;
      }
      sum := sum + utxos[id].amount;
    }
    assert tx.inputs[..|tx.inputs|] == tx.inputs;
    return Some(sum);
  }

  /** The same, read from the overlay first and the store second. */
  method TotalOverlaidInputs(utxos: map<UtxoId, Utxo>, l: Layer<UtxoId, Utxo>, tx: Transaction)
    returns (total: Option<u128>)
    requires Coherent(l)
    ensures total.Some? <==> Owned(Over(utxos, l), tx) && SumInputs(Over(utxos, l), tx.inputs) <= U128_MAX
    ensures total.Some? ==> total.value == SumInputs(Over(utxos, l), tx.inputs)
  {
    ghost var seen := Over(utxos, l);
    var sum := 0;
    for i := 0 to |tx.inputs|
      invariant OwnedUpTo(seen, tx, i) && sum == SumInputs(seen, tx.inputs[..i]) <= U128_MAX
    {
      var id := tx.inputs[i];
      assert tx.inputs[..i + 1][..i] == tx.inputs[..i];
      SumInputsGrows(seen, tx.inputs, i + 1);
      LookupReadsOver(utxos, l, id);
      var utxo: Utxo;
      match Get(l, id) {
        case Found(u) => utxo := u;
        case Deleted => return None;
        case Unknown =>
          if id !in utxos {
            return None;
          }
          utxo := utxos[id];
      }
      if utxo.owner != tx.sender || sum + utxo.amount > U128_MAX {
        return None;
      }
      sum := sum + utxo.amount;
    }
    assert tx.inputs[..|tx.inputs|] == tx.inputs;
    return Some(sum);
  }

  method TotalOutputs(outputs: seq<UtxoOutput>) returns (total: Option<u128>)
    ensures total.Some? <==> SumOutputs(outputs) <= U128_MAX
    ensures total.Some? ==> total.value == SumOutputs(outputs)
  {
    var sum := 0;
    for i := 0 to |outputs|
      invariant sum == SumOutputs(outputs[..i]) <= U128_MAX
    {
      assert outputs[..i + 1][..i] == outputs[..i];
      SumOutputsGrows(outputs, i + 1);
      if sum + outputs[i].amount > U128_MAX {
        return None;
      }
      sum := sum + outputs[i].amount;
    }
    assert outputs[..|outputs|] == outputs;
    return Some(sum);
  }

  /** Do the inputs cover the outputs and, for a UTxO transaction, the fee? */
  method CheckCover(tx: Transaction, totalInput: u128) returns (ok: bool)
    requires tx.inputs == [] ==> totalInput == 0
    ensures ok <==> SumOutputs(tx.outputs) <= U128_MAX
                    && (IsUtxoTx(tx) ==> SumOutputs(tx.outputs) + tx.fee <= U128_MAX
                                         && totalInput >= SumOutputs(tx.outputs) + tx.fee)
  {
    var totalOutput := TotalOutputs(tx.outputs);
    if totalOutput.None? {
      return false;
    }
    if IsUtxoTx(tx) {
      var required := totalOutput.value + tx.fee;
      return required <= U128_MAX && totalInput >= required;
    }
    return totalInput >= totalOutput.value;
  }

  /** The sender's and the recipient's accounts after the transaction, from the ones read before it. */
  method PlanAccounts(c: Codec, tx: Transaction, sender: Account, recipient: Account,
                      ghost accounts: map<Address, Account>)
    returns (ok: bool, newSender: Account, newRecipient: Option<Account>)
    requires sender == AccountAt(accounts, tx.sender) && recipient == AccountAt(accounts, RecipientOf(c, tx))
    ensures ok == AccountsValid(c, accounts, tx)
    ensures ok ==> newSender == SenderAfter(c, accounts, tx) && newRecipient == RecipientAfter(c, accounts, tx)
  {
    ok, newSender, newRecipient := false, sender, None;
    var d := Decode(c, tx);
    if d == BadPayload || (d.Transfer? && IsUtxoTx(tx)) || sender.nonce != tx.nonce {
      return;
    }
    var balance := sender.balance;
    if !IsUtxoTx(tx) {
      var debit := tx.fee + TransferAmount(d);
      if debit > U128_MAX || sender.balance < debit {
        return;
      }
      balance := balance - debit;
    }
    if sender.nonce == U64_MAX {
      return;
    }
    if d.Transfer? {
      if d.payload.recipient == tx.sender {
        balance := balance + d.payload.amount;
      } else if recipient.balance + d.payload.amount > U128_MAX {
        return;
      } else {
        newRecipient := Some(recipient.(balance := recipient.balance + d.payload.amount));
      }
    }
    ok, newSender := true, sender.(balance := balance, nonce := sender.nonce + 1);
  }

  // ---------------------------------------------------------------- the overlay

  class PendingOverlay {
    var accounts: Layer<Address, Account>
    var utxos: Layer<UtxoId, Utxo>
    var changedAccounts: seq<Address>
    var stateRoot: H256

    ghost function Model(): Overlay
      reads this
    {
      Overlay(accounts, utxos, changedAccounts)
    }

    constructor ()
      ensures Model() == EMPTY_OVERLAY && stateRoot == ZERO_HASH
    {
      accounts, utxos, changedAccounts, stateRoot := Layer(map[], {}), Layer(map[], {}), [], ZERO_HASH;
    }

    method PutAccounts(sender: Address, s: Account, recipient: Address, r: Option<Account>)
      modifies this`accounts, this`changedAccounts
      ensures accounts == WriteAccounts(old(accounts), sender, s, recipient, r)
      ensures changedAccounts == old(changedAccounts) + if r.None? then [sender] else [sender, recipient]
    {
      accounts := Put(accounts, sender, s);
      changedAccounts := changedAccounts + [sender];
      if r.Some? {
        accounts := Put(accounts, recipient, r.value);
        changedAccounts := changedAccounts + [recipient];
      }
    }

    method SpendInputs(ids: seq<UtxoId>)
      modifies this`utxos
      ensures utxos == DeleteAll(old(utxos), ids)
    {
      for i := 0 to |ids|
        invariant utxos == DeleteAll(old(utxos), ids[..i])
      {
        assert ids[..i + 1][..i] == ids[..i];
        utxos := Delete(utxos, ids[i]);
      }
      assert ids[..|ids|] == ids;
    }

    method CreateOutputs(c: Codec, tx: Transaction)
      modifies this`utxos
      ensures utxos == PutOutputs(c, old(utxos), tx, |tx.outputs|)
    {
      var txHash := c.txHash(tx);
      for i := 0 to |tx.outputs|
        invariant utxos == PutOutputs(c, old(utxos), tx, i)
      {
        utxos := Put(utxos, UtxoId(txHash, i), OutputUtxo(c, tx.outputs[i]));
      }
    }
  }

  // ---------------------------------------------------------------- the ledger

  class Ledger {
    const codec: Codec
    var store: Store
    var leaves: map<Address, H256>

    ghost function CurrentView(): View
      reads this
    {
      View(store.accounts, store.utxos, leaves)
    }

    ghost function CurrentBase(): Base
      reads this
    {
      Base(store.accounts, store.utxos, leaves)
    }

    // -------------------------------------------------------------- speculative execution

    method GetAccountFromOverlay(overlay: PendingOverlay, a: Address) returns (account: Account)
      requires Coherent(overlay.accounts)
      ensures account == AccountAt(Over(store.accounts, overlay.accounts), a)
    {
      LookupReadsOver(store.accounts, overlay.accounts, a);
      match Get(overlay.accounts, a)
      case Found(found) => account := found;
      case Deleted => account := NewAccount(a);
      case Unknown => account := AccountAt(store.accounts, a);
    }

    /** Execute on the overlay; a failing transaction writes nothing. */
    method ApplyTxToOverlay(tx: Transaction, overlay: PendingOverlay, tree: map<Address, H256>)
      returns (receipt: Option<Receipt>, newTree: map<Address, H256>)
      modifies overlay`accounts, overlay`utxos, overlay`changedAccounts
      requires Tracked(codec, CurrentBase(), Speculation(overlay.Model(), tree))
      requires WellKeyed(store.accounts) && WellKeyed(overlay.accounts.writes)
      ensures Speculation(overlay.Model(), newTree)
              == Speculate(codec, CurrentBase(), Speculation(old(overlay.Model()), tree), tx)
      ensures receipt == if Valid(codec, Seen(CurrentBase(), Speculation(old(overlay.Model()), tree)), tx)
                         then Some(Receipt(codec.txHash(tx), true, codec.root(newTree))) else None
      ensures WellKeyed(overlay.accounts.writes)
    {
      ghost var seen := Over(store.accounts, overlay.accounts);
      newTree := tree;
      var sender := GetAccountFromOverlay(overlay, tx.sender);
      var recipient := GetAccountFromOverlay(overlay, RecipientOf(codec, tx));
      var ok, newSender, newRecipient := PlanAccounts(codec, tx, sender, recipient, seen);
      if !ok {
        return None, tree;
      }
      var funded := CheckOverlaidFunds(tx, overlay.utxos);
      if !funded {
        return None, tree;
      }
      newTree := WriteToOverlay(tx, overlay, tree, newSender, newRecipient, seen);
      return Some(Receipt(codec.txHash(tx), true, codec.root(newTree))), newTree;
    }

    /** The writes of a transaction that passed every check. */
    method WriteToOverlay(tx: Transaction, overlay: PendingOverlay, tree: map<Address, H256>,
                          newSender: Account, newRecipient: Option<Account>, ghost seen: map<Address, Account>)
      returns (newTree: map<Address, H256>)
      modifies overlay`accounts, overlay`utxos, overlay`changedAccounts
      requires AccountsValid(codec, seen, tx) && WellKeyed(seen) && WellKeyed(overlay.accounts.writes)
      requires newSender == SenderAfter(codec, seen, tx) && newRecipient == RecipientAfter(codec, seen, tx)
      requires Coherent(overlay.accounts) && overlay.accounts.deletes == {}
      ensures Speculation(overlay.Model(), newTree) == Written(codec, seen, Speculation(old(overlay.Model()), tree), tx)
      ensures WellKeyed(overlay.accounts.writes)
    {
      WritesAreKeyed(codec, seen, overlay.accounts.writes, tx);
      WritePairOver(map[], overlay.accounts, tx.sender, newSender, RecipientOf(codec, tx), newRecipient);
      overlay.PutAccounts(tx.sender, newSender, RecipientOf(codec, tx), newRecipient);
      newTree := UpdateLeaves(tree, newSender, newRecipient);
      overlay.SpendInputs(tx.inputs);
      overlay.CreateOutputs(codec, tx);
    }

    /** Execute a block without touching the store. */
    method ApplyBlockSpeculatively(txs: seq<Transaction>, chain: Option<u64>)
      returns (receipts: Option<seq<Receipt>>, overlay: PendingOverlay)
      requires WellKeyed(store.accounts)
      ensures fresh(overlay)
      ensures receipts.Some? <==> AllAuthentic(codec, txs)
      ensures receipts.Some? ==>
                var s := SpeculateAll(codec, CurrentBase(), chain, txs);
                && receipts.value == SpeculativeReceipts(codec, CurrentBase(), chain, txs)
                && overlay.Model() == s.overlay && overlay.stateRoot == codec.root(s.leaves)
                && WellKeyed(overlay.accounts.writes)
    {
      overlay := new PendingOverlay();
      var authentic := CheckAuthentic(txs);
      if !authentic {
        return None, overlay;
      }
      var list, tree := RunOnOverlay(txs, chain, overlay);
      overlay.stateRoot := codec.root(tree);
      return Some(list), overlay;
    }

    /** All senders match their keys and all signatures hold. */
    method CheckAuthentic(txs: seq<Transaction>) returns (ok: bool)
      ensures ok == AllAuthentic(codec, txs)
    {
      for i := 0 to |txs|
        invariant forall j :: 0 <= j < i ==> Authentic(codec, txs[j])
      {
        if codec.addressOf(txs[i].senderKey) != txs[i].sender || !codec.signed(txs[i]) {
          return false;
        }
      }
      return true;
    }

    method RunOnOverlay(txs: seq<Transaction>, chain: Option<u64>, overlay: PendingOverlay)
      returns (list: seq<Receipt>, tree: map<Address, H256>)
      modifies overlay`accounts, overlay`utxos, overlay`changedAccounts
      requires WellKeyed(store.accounts) && overlay.Model() == EMPTY_OVERLAY
      ensures Speculation(overlay.Model(), tree) == SpeculateAll(codec, CurrentBase(), chain, txs)
      ensures list == SpeculativeReceipts(codec, CurrentBase(), chain, txs)
      ensures WellKeyed(overlay.accounts.writes)
    {
      tree, list := leaves, [];
      for i := 0 to |txs|
        invariant Speculation(overlay.Model(), tree) == SpeculateAll(codec, CurrentBase(), chain, txs[..i])
        invariant list == SpeculativeReceipts(codec, CurrentBase(), chain, txs[..i])
        invariant WellKeyed(overlay.accounts.writes)
      {
        SpeculateAllSnoc(codec, CurrentBase(), chain, txs, i);
        var receipt;
        receipt, tree := RunOne(txs[i], chain, overlay, tree);
        list := list + [receipt];
      }
      assert txs[..|txs|] == txs;
    }

    /** One transaction of a block: other chains' fail without being looked at. */
    method RunOne(tx: Transaction, chain: Option<u64>, overlay: PendingOverlay, tree: map<Address, H256>)
      returns (receipt: Receipt, newTree: map<Address, H256>)
      modifies overlay`accounts, overlay`utxos, overlay`changedAccounts
      requires Tracked(codec, CurrentBase(), Speculation(overlay.Model(), tree))
      requires WellKeyed(store.accounts) && WellKeyed(overlay.accounts.writes)
      ensures var s := Speculation(old(overlay.Model()), tree);
              && Speculation(overlay.Model(), newTree) == SpeculateOn(codec, CurrentBase(), s, chain, tx)
              && receipt == Receipt(codec.txHash(tx), Succeeds(codec, CurrentBase(), s, chain, tx), codec.root(newTree))
      ensures WellKeyed(overlay.accounts.writes)
    {
      newTree := tree;
      var applied := None;
      if OnChain(chain, tx) {
        applied, newTree := ApplyTxToOverlay(tx, overlay, tree);
      }
      receipt := if applied.Some? then applied.value else Receipt(codec.txHash(tx), false, codec.root(newTree));
    }

    method CheckOverlaidFunds(tx: Transaction, l: Layer<UtxoId, Utxo>) returns (ok: bool)
      requires Coherent(l)
      ensures ok == FundsValid(Over(store.utxos, l), tx)
    {
      ok := CheckDistinct(tx.inputs);
      if ok {
        var total := TotalOverlaidInputs(store.utxos, l, tx);
        ok := total.Some?;
        if ok {
          ok := CheckCover(tx, total.value);
        }
      }
    }

    /** Put the hashes of the written accounts into a tree. */
    method UpdateLeaves(tree: map<Address, H256>, s: Account, r: Option<Account>) returns (newTree: map<Address, H256>)
      ensures newTree == tree + Hashed(codec, if r.None? then map[s.address := s]
                                       else map[s.address := s][r.value.address := r.value])
    {
      newTree := tree[s.address := codec.accountHash(s)];
      if r.Some? {
        newTree := newTree[r.value.address := codec.accountHash(r.value)];
      }
    }

    // -------------------------------------------------------------- direct execution

    method ApplyTransactionValidated(tx: Transaction) returns (receipt: Option<Receipt>)
      modifies this
      requires WellKeyed(store.accounts)
      ensures CurrentView() == Apply(codec, old(CurrentView()), tx)
      ensures receipt == if Valid(codec, old(CurrentView()), tx)
                         then Some(Receipt(codec.txHash(tx), true, codec.root(leaves))) else None
      ensures store.stateRoot == if receipt.Some? then Some(codec.root(leaves)) else old(store.stateRoot)
      ensures store.burned == old(store.burned) && store.treasury == old(store.treasury) && WellKeyed(store.accounts)
      ensures old(Consistent(codec, store, leaves)) ==> Consistent(codec, store, leaves)
    {
      ghost var v := CurrentView();
      var funded := CheckStoredFunds(tx);
      if !funded {
        return None;
      }
      var recipient := AccountAt(store.accounts, RecipientOf(codec, tx));
      var ok, newSender, newRecipient := PlanAccounts(codec, tx, AccountAt(store.accounts, tx.sender), recipient,
                                                      store.accounts);
      if !ok {
        return None;
      }
      WritesAreKeyed(codec, store.accounts, store.accounts, tx);
      var batch := BatchTransaction(tx, newSender, newRecipient);
      leaves := UpdateLeaves(leaves, newSender, newRecipient);
      WriteSnoc(store, batch, PutRoot(codec.root(leaves)));
      WriteBatch(batch + [PutRoot(codec.root(leaves))]);
      EffectKeepsTree(codec, v, tx);
      return Some(Receipt(codec.txHash(tx), true, codec.root(leaves)));
    }

    method CheckStoredFunds(tx: Transaction) returns (ok: bool)
      ensures ok == FundsValid(store.utxos, tx)
    {
      ok := CheckDistinct(tx.inputs);
      if ok {
        var total := TotalStoredInputs(store.utxos, tx);
        ok := total.Some?;
        if ok {
          ok := CheckCover(tx, total.value);
        }
      }
    }

    /** The account, spend and create operations of a transaction, in order. */
    method BatchTransaction(tx: Transaction, newSender: Account, newRecipient: Option<Account>) returns (batch: seq<Op>)
      requires AccountsValid(codec, store.accounts, tx) && WellKeyed(store.accounts)
      requires newSender == SenderAfter(codec, store.accounts, tx)
               && newRecipient == RecipientAfter(codec, store.accounts, tx)
      ensures WriteAll(store, batch)
              == store.(accounts := store.accounts + AccountWrites(codec, store.accounts, tx),
                        utxos := UtxosAfter(codec, store.utxos, tx))
    {
      WritesAreKeyed(codec, store.accounts, store.accounts, tx);
      batch := BatchAccounts(newSender, newRecipient);
      batch := AppendSpends(batch, tx.inputs);
      batch := AppendOutputs(batch, tx);
    }

    method AppendSpends(start: seq<Op>, ids: seq<UtxoId>) returns (batch: seq<Op>)
      ensures WriteAll(store, batch) == WriteAll(store, start).(utxos := WriteAll(store, start).utxos - Spent(ids))
    {
      batch := start;
      ghost var s := WriteAll(store, start);
      for i := 0 to |ids|
        invariant WriteAll(store, batch) == s.(utxos := s.utxos - Spent(ids[..i]))
      {
        assert Spent(ids[..i + 1]) == Spent(ids[..i]) + {ids[i]};
        WriteSnoc(store, batch, DeleteUtxo(ids[i]));
        batch := batch + [DeleteUtxo(ids[i])];
      }
      assert ids[..|ids|] == ids;
    }

    method AppendOutputs(start: seq<Op>, tx: Transaction) returns (batch: seq<Op>)
      ensures WriteAll(store, batch)
              == WriteAll(store, start).(utxos := WriteAll(store, start).utxos + Created(codec, tx, |tx.outputs|))
    {
      batch := start;
      ghost var s := WriteAll(store, start);
      var txHash := codec.txHash(tx);
      for i := 0 to |tx.outputs|
        invariant WriteAll(store, batch) == s.(utxos := s.utxos + Created(codec, tx, i))
      {
        var op := PutUtxo(UtxoId(txHash, i), OutputUtxo(codec, tx.outputs[i]));
        WriteSnoc(store, batch, op);
        UpdateOfUnion(s.utxos, Created(codec, tx, i), op.id, op.utxo);
        batch := batch + [op];
      }
    }

    method BatchAccounts(s: Account, r: Option<Account>) returns (batch: seq<Op>)
      ensures WriteAll(store, batch)
              == store.(accounts := store.accounts
                                    + if r.None? then map[s.address := s]
                                        else map[s.address := s][r.value.address := r.value])
    {
      batch := [PutAccount(s.address, s)];
      WriteSnoc(store, [], batch[0]);
      assert [] + [batch[0]] == batch;
      if r.Some? {
        var op := PutAccount(r.value.address, r.value);
        WriteSnoc(store, batch, op);
        batch := batch + [op];
      }
    }

    method WriteBatch(batch: seq<Op>)
      modifies this`store
      ensures store == WriteAll(old(store), batch)
    {
      for i := 0 to |batch|
        invariant store == WriteAll(old(store), batch[..i])
      {
        assert batch[..i + 1][..i] == batch[..i];
        store := WriteOp(store, batch[i]);
      }
      assert batch[..|batch|] == batch;
    }

    method ApplyBlockTransactions(txs: seq<Transaction>) returns (receipts: Option<seq<Receipt>>)
      modifies this
      requires WellKeyed(store.accounts)
      ensures receipts.Some? <==> AllAuthentic(codec, txs)
      ensures receipts.Some? ==> CurrentView() == ApplyAll(codec, old(CurrentView()), txs)
      ensures receipts.Some? ==> receipts.value == Receipts(codec, old(CurrentView()), txs)
      ensures receipts.None? ==> store == old(store) && leaves == old(leaves)
      ensures store.burned == old(store.burned) && store.treasury == old(store.treasury) && WellKeyed(store.accounts)
      ensures old(Consistent(codec, store, leaves)) ==> Consistent(codec, store, leaves)
    {
      var authentic := CheckAuthentic(txs);
      if !authentic {
        return None;
      }
      ghost var start := CurrentView();
      var list := [];
      for i := 0 to |txs|
        invariant CurrentView() == ApplyAll(codec, start, txs[..i])
        invariant list == Receipts(codec, start, txs[..i])
        invariant store.burned == old(store.burned) && store.treasury == old(store.treasury)
                  && WellKeyed(store.accounts)
        invariant old(Consistent(codec, store, leaves)) ==> Consistent(codec, store, leaves)
      {
        assert txs[..i + 1][..i] == txs[..i];
        var receipt := ApplyTransactionValidated(txs[i]);
        list := list + [if receipt.Some? then receipt.value
                        else Receipt(codec.txHash(txs[i]), false, codec.root(leaves))];
      }
      assert txs[..|txs|] == txs;
      return Some(list);
    }

    // -------------------------------------------------------------- commit

    /** The overlay as a batch, with the tree brought up to date and its root included. The maps are
        visited in no particular order. */
    method PrepareOverlayBatch(overlay: PendingOverlay, ghost tree: map<Address, H256>) returns (batch: seq<Op>)
      modifies this`leaves
      requires Tracked(codec, CurrentBase(), Speculation(overlay.Model(), tree))
      ensures leaves == tree
      ensures WriteAll(store, batch) == Committed(codec, store, overlay.Model(), tree)
    {
      batch := BatchLayers(overlay);
      leaves := Rehash(leaves, overlay.accounts, overlay.changedAccounts);
      WriteSnoc(store, batch, PutRoot(codec.root(leaves)));
      batch := batch + [PutRoot(codec.root(leaves))];
    }

    method BatchLayers(overlay: PendingOverlay) returns (batch: seq<Op>)
      requires Coherent(overlay.accounts) && Coherent(overlay.utxos)
      ensures WriteAll(store, batch) == store.(accounts := Over(store.accounts, overlay.accounts),
                                               utxos := Over(store.utxos, overlay.utxos))
    {
      var accountPuts := BatchAccountWrites([], overlay.accounts.writes);
      var puts := BatchUtxoWrites(accountPuts, overlay.utxos.writes);
      var accountDeletes := BatchAccountDeletes(puts, overlay.accounts.deletes);
      batch := BatchUtxoDeletes(accountDeletes, overlay.utxos.deletes);
      WritesThenDeletes(store.accounts, overlay.accounts);
      WritesThenDeletes(store.utxos, overlay.utxos);
    }

    method BatchAccountWrites(start: seq<Op>, writes: map<Address, Account>) returns (batch: seq<Op>)
      ensures WriteAll(store, batch) == WriteAll(store, start).(accounts := WriteAll(store, start).accounts + writes)
    {
      batch := start;
      var rest := writes.Keys;
      ghost var s := WriteAll(store, start);
      while rest != {}
        invariant rest <= writes.Keys
        invariant WriteAll(store, batch) == s.(accounts := s.accounts + (writes - rest))
        decreases |rest|
      {
        var k :| k in rest;
        WriteSnoc(store, batch, PutAccount(k, writes[k]));
        OneMoreWrite(s.accounts, writes, rest, k);
        batch, rest := batch + [PutAccount(k, writes[k])], rest - {k};
      }
      assert writes - rest == writes;
    }

    method BatchUtxoWrites(start: seq<Op>, writes: map<UtxoId, Utxo>) returns (batch: seq<Op>)
      ensures WriteAll(store, batch) == WriteAll(store, start).(utxos := WriteAll(store, start).utxos + writes)
    {
      batch := start;
      var rest := writes.Keys;
      ghost var s := WriteAll(store, start);
      while rest != {}
        invariant rest <= writes.Keys
        invariant WriteAll(store, batch) == s.(utxos := s.utxos + (writes - rest))
        decreases |rest|
      {
        var k :| k in rest;
        WriteSnoc(store, batch, PutUtxo(k, writes[k]));
        OneMoreWrite(s.utxos, writes, rest, k);
        batch, rest := batch + [PutUtxo(k, writes[k])], rest - {k};
      }
      assert writes - rest == writes;
    }

    method BatchAccountDeletes(start: seq<Op>, deletes: set<Address>) returns (batch: seq<Op>)
      ensures WriteAll(store, batch) == WriteAll(store, start).(accounts := WriteAll(store, start).accounts - deletes)
    {
      batch := start;
      var rest := deletes;
      ghost var s := WriteAll(store, start);
      while rest != {}
        invariant rest <= deletes
        invariant WriteAll(store, batch) == s.(accounts := s.accounts - (deletes - rest))
        decreases |rest|
      {
        var k :| k in rest;
        WriteSnoc(store, batch, DeleteAccount(k));
        OneMoreDelete(s.accounts, deletes, rest, k);
        batch, rest := batch + [DeleteAccount(k)], rest - {k};
      }
      assert deletes - rest == deletes;
    }

    method BatchUtxoDeletes(start: seq<Op>, deletes: set<UtxoId>) returns (batch: seq<Op>)
      ensures WriteAll(store, batch) == WriteAll(store, start).(utxos := WriteAll(store, start).utxos - deletes)
    {
      batch := start;
      var rest := deletes;
      ghost var s := WriteAll(store, start);
      while rest != {}
        invariant rest <= deletes
        invariant WriteAll(store, batch) == s.(utxos := s.utxos - (deletes - rest))
        decreases |rest|
      {
        var k :| k in rest;
        WriteSnoc(store, batch, DeleteUtxo(k));
        OneMoreDelete(s.utxos, deletes, rest, k);
        batch, rest := batch + [DeleteUtxo(k)], rest - {k};
      }
      assert deletes - rest == deletes;
    }

    /** Rehash every account on the overlay's list of changed accounts. */
    method Rehash(tree: map<Address, H256>, accounts: Layer<Address, Account>, changed: seq<Address>)
      returns (newTree: map<Address, H256>)
      requires Coherent(accounts)
      requires forall a :: a in changed <==> a in accounts.writes
      ensures newTree == tree + Hashed(codec, accounts.writes)
    {
      newTree := tree;
      ghost var hashes := Hashed(codec, accounts.writes);
      for i := 0 to |changed|
        invariant newTree == tree + Chosen(hashes, changed[..i])
      {
        ChosenSnoc(hashes, changed, i);
        newTree := RehashOne(newTree, accounts, changed[i]);
      }
      assert changed[..|changed|] == changed;
      assert Chosen(hashes, changed) == hashes;
    }

    method RehashOne(tree: map<Address, H256>, accounts: Layer<Address, Account>, a: Address)
      returns (newTree: map<Address, H256>)
      ensures a in accounts.writes && a !in accounts.deletes ==>
                newTree == tree[a := codec.accountHash(accounts.writes[a])]
      ensures a in accounts.deletes ==> newTree == tree[a := ZERO_HASH]
      ensures a !in accounts.writes && a !in accounts.deletes ==> newTree == tree
    {
      match Get(accounts, a) {
        case Found(account) => newTree := tree[a := codec.accountHash(account)];
        case Deleted => newTree := tree[a := ZERO_HASH];
        case Unknown => newTree := tree;
      }
    }

    method CommitOverlay(overlay: PendingOverlay, ghost tree: map<Address, H256>)
      modifies this
      requires Tracked(codec, CurrentBase(), Speculation(overlay.Model(), tree))
      ensures leaves == tree && store == Committed(codec, old(store), overlay.Model(), tree)
    {
      var batch := PrepareOverlayBatch(overlay, tree);
      WriteBatch(batch);
    }

    /** The speculative path from end to end. It leaves the ledger exactly as `ApplyBlockTransactions`
        does and hands out the same receipts, and the root announced before the commit is the committed
        one. */
    method SpeculateAndCommit(txs: seq<Transaction>) returns (receipts: Option<seq<Receipt>>, announced: H256)
      modifies this
      requires WellKeyed(store.accounts)
      ensures receipts.Some? <==> AllAuthentic(codec, txs)
      ensures receipts.Some? ==> CurrentView() == ApplyAll(codec, old(CurrentView()), txs)
      ensures receipts.Some? ==> receipts.value == Receipts(codec, old(CurrentView()), txs)
      ensures receipts.Some? ==> store.stateRoot == Some(announced) && announced == codec.root(leaves)
      ensures store.burned == old(store.burned) && store.treasury == old(store.treasury)
      ensures old(Consistent(codec, store, leaves)) ==> Consistent(codec, store, leaves)
      ensures receipts.None? ==> store == old(store) && leaves == old(leaves)
    {
      var overlay;
      receipts, overlay := ApplyBlockSpeculatively(txs, None);
      announced := overlay.stateRoot;
      if receipts.Some? {
        ghost var b := CurrentBase();
        SpeculationRefines(codec, b, None, txs);
        ReceiptsAgree(codec, b, txs);
        OursIsAll(txs);
        if Consistent(codec, store, leaves) {
          BlockKeepsTree(codec, CurrentView(), txs);
        }
        CommitOverlay(overlay, SpeculateAll(codec, b, None, txs).leaves);
      }
    }

    // -------------------------------------------------------------- fees

    /** Add the proposer's reward and the burn and treasury counters to a batch that commits `overlay` and
        leads to `s`. The tree already has the overlay's accounts. An overflow gives up, possibly after the
        tree got the reward; the store is never touched. */
    method FoldFeeDistribution(start: seq<Op>, overlay: PendingOverlay, proposer: Address, fees: Fees, ghost s: Store)
      returns (batch: Option<seq<Op>>)
      modifies this`leaves
      requires Coherent(overlay.accounts) && WellKeyed(s.accounts)
      requires s == WriteAll(store, start) == Committed(codec, store, overlay.Model(), leaves)
      ensures batch.Some? <==> FeesFit(s, proposer, fees)
      ensures batch.Some? ==> WriteAll(store, batch.value) == Distributed(codec, s, old(leaves), proposer, fees)
      ensures leaves == if RewardFits(s, proposer, fees) then RewardedLeaves(codec, s, old(leaves), proposer, fees)
              else old(leaves)
    {
      var rewarded := FoldReward(start, overlay, proposer, fees, s);
      if rewarded.None? {
        return None;
      }
      batch := FoldCounters(rewarded.value, fees);
    }

    method FoldReward(start: seq<Op>, overlay: PendingOverlay, proposer: Address, fees: Fees, ghost s: Store)
      returns (batch: Option<seq<Op>>)
      modifies this`leaves
      requires Coherent(overlay.accounts) && WellKeyed(s.accounts)
      requires s == WriteAll(store, start) == Committed(codec, store, overlay.Model(), leaves)
      ensures batch.Some? <==> RewardFits(s, proposer, fees)
      ensures batch.Some? ==> leaves == RewardedLeaves(codec, s, old(leaves), proposer, fees)
      ensures batch.Some? ==> WriteAll(store, batch.value) == Paid(codec, s, old(leaves), proposer, fees)
      ensures batch.None? ==> leaves == old(leaves)
    {
      if fees.reward == 0 {
        return Some(start);
      }
      var account := GetAccountFromOverlay(overlay, proposer);
      if account.balance + fees.reward > U128_MAX {
        return None;
      }
      account := account.(balance := account.balance + fees.reward);
      leaves := leaves[account.address := codec.accountHash(account)];
      batch := Some(AppendAccount(start, account));
    }

    /** The counters are read from the store, which the batch has not reached yet. */
    method FoldCounters(start: seq<Op>, fees: Fees) returns (batch: Option<seq<Op>>)
      requires WriteAll(store, start).burned == store.burned && WriteAll(store, start).treasury == store.treasury
      ensures batch.Some? <==> store.burned + fees.burned <= U128_MAX && store.treasury + fees.treasury <= U128_MAX
      ensures batch.Some? ==> WriteAll(store, batch.value)
                              == WriteAll(store, start).(burned := store.burned + fees.burned,
                                                         treasury := store.treasury + fees.treasury)
    {
      var ops := start;
      if fees.burned > 0 {
        if store.burned + fees.burned > U128_MAX {
          return None;
        }
        WriteSnoc(store, ops, PutBurned(store.burned + fees.burned));
        ops := ops + [PutBurned(store.burned + fees.burned)];
      }
      if fees.treasury > 0 {
        if store.treasury + fees.treasury > U128_MAX {
          return None;
        }
        WriteSnoc(store, ops, PutTreasury(store.treasury + fees.treasury));
        ops := ops + [PutTreasury(store.treasury + fees.treasury)];
      }
      return Some(ops);
    }

    /** The node's commit: overlay and fees in one batch. It happens exactly when no credit overflows and is
        all or nothing in the store; the tree keeps the overlay's accounts either way. */
    method CommitBlock(overlay: PendingOverlay, ghost tree: map<Address, H256>, proposer: Address, fees: Fees)
      returns (ok: bool)
      modifies this
      requires WellKeyed(store.accounts) && WellKeyed(overlay.accounts.writes)
      requires Tracked(codec, CurrentBase(), Speculation(overlay.Model(), tree))
      ensures ok <==> FeesFit(Committed(codec, old(store), overlay.Model(), tree), proposer, fees)
      ensures ok ==> store == Distributed(codec, Committed(codec, old(store), overlay.Model(), tree), tree, proposer,
                                          fees)
      ensures ok && old(Consistent(codec, store, leaves)) ==> Consistent(codec, store, leaves)
      ensures !ok ==> store == old(store)
      ensures leaves == if RewardFits(Committed(codec, old(store), overlay.Model(), tree), proposer, fees)
                        then RewardedLeaves(codec, Committed(codec, old(store), overlay.Model(), tree), tree,
                                            proposer, fees)
                        else tree
    {
      ghost var committed := Committed(codec, store, overlay.Model(), tree);
      ghost var s, l := store, leaves;
      var batch := PrepareOverlayBatch(overlay, tree);
      var folded := FoldFeeDistribution(batch, overlay, proposer, fees, committed);
      ok := folded.Some?;
      if ok {
        WriteBatch(folded.value);
        if Consistent(codec, s, l) {
          CommitKeepsConsistent(codec, s, l, Speculation(overlay.Model(), tree));
          DistributionKeepsConsistent(codec, committed, tree, proposer, fees);
        }
      }
    }

    // -------------------------------------------------------------- single accounts

    /** Put an account and the tree's root at the end of a batch. */
    function AppendAccount(batch: seq<Op>, account: Account): (r: seq<Op>)
      reads this
      ensures var s := WriteAll(store, batch);
              WriteAll(store, r) == s.(accounts := s.accounts[account.address := account],
                                       stateRoot := Some(codec.root(leaves)))
    {
      var put, root := PutAccount(account.address, account), PutRoot(codec.root(leaves));
      WriteSnoc(store, batch, put);
      WriteSnoc(store, batch + [put], root);
      batch + [put] + [root]
    }

    method CreditAccount(a: Address, amount: u128) returns (ok: bool)
      modifies this
      requires WellKeyed(store.accounts)
      ensures ok <==> AccountAt(old(store.accounts), a).balance + amount <= U128_MAX
      ensures ok ==> var account := AccountAt(old(store.accounts), a);
                     && store == WithAccount(codec, old(store), old(leaves),
                                             account.(balance := account.balance + amount))
                     && leaves == old(leaves)[a := codec.accountHash(account.(balance := account.balance + amount))]
      ensures !ok ==> store == old(store) && leaves == old(leaves)
      ensures old(Consistent(codec, store, leaves)) ==> Consistent(codec, store, leaves)
    {
      var account := AccountAt(store.accounts, a);
      ok := account.balance + amount <= U128_MAX;
      if ok {
        WriteAccount(account.(balance := account.balance + amount));
      }
    }

    /** Seeding replaces whatever was stored, nonce included. */
    method SeedAccount(a: Address, balance: u128)
      modifies this
      ensures store == WithAccount(codec, old(store), old(leaves), NewAccount(a).(balance := balance))
      ensures leaves == old(leaves)[a := codec.accountHash(NewAccount(a).(balance := balance))]
      ensures old(Consistent(codec, store, leaves)) ==> Consistent(codec, store, leaves)
    {
      WriteAccount(NewAccount(a).(balance := balance));
    }

    method WriteAccount(account: Account)
      modifies this
      ensures store == WithAccount(codec, old(store), old(leaves), account)
      ensures leaves == old(leaves)[account.address := codec.accountHash(account)]
      ensures old(Consistent(codec, store, leaves)) ==> Consistent(codec, store, leaves)
    {
      ghost var s, l := store, leaves;
      leaves := leaves[account.address := codec.accountHash(account)];
      WriteBatch(AppendAccount([], account));
      if Consistent(codec, s, l) {
        AccountKeepsConsistent(codec, s, l, account);
      }
    }

    // -------------------------------------------------------------- restart

    /** Opening a store rebuilds the tree from the stored accounts and writes its root. On a store that was
        left consistent this finds the tree of before and changes nothing. */
    constructor (c: Codec, s: Store)
      ensures codec == c && leaves == Hashed(c, s.accounts)
      ensures store == if s.stateRoot == None && s.accounts == map[] then s else s.(stateRoot := Some(c.root(leaves)))
      ensures WellKeyed(s.accounts) ==> Consistent(c, store, leaves)
      ensures forall before :: Consistent(c, s, before) ==> leaves == before && store == s
    {
      codec, store, leaves := c, s, map[];
      new;
      if store.stateRoot.Some? || store.accounts != map[] {
        RecomputeStateRoot();
      }
    }

    method RecomputeStateRoot()
      modifies this
      ensures leaves == Hashed(codec, old(store.accounts))
      ensures store == old(store).(stateRoot := Some(codec.root(leaves)))
    {
      var accounts := store.accounts;
      var rest := accounts.Keys;
      leaves := map[];
      while rest != {}
        invariant rest <= accounts.Keys && store == old(store)
        invariant leaves == Hashed(codec, accounts - rest)
        decreases |rest|
      {
        var a :| a in rest;
        leaves := leaves[a := codec.accountHash(accounts[a])];
        OneMoreHash(codec, accounts, rest, a);
        rest := rest - {a};
      }
      assert accounts - rest == accounts;
      WriteSnoc(store, [], PutRoot(codec.root(leaves)));
      WriteBatch([] + [PutRoot(codec.root(leaves))]);
    }
  }

  /** Written accounts carry the address they are written under. */
  lemma {:induction false} WritesAreKeyed(c: Codec, seen: map<Address, Account>, writes: map<Address, Account>,
                                          tx: Transaction)
    requires AccountsValid(c, seen, tx) && WellKeyed(seen)
    ensures SenderAfter(c, seen, tx).address == tx.sender
    ensures RecipientAfter(c, seen, tx).Some? ==> RecipientAfter(c, seen, tx).value.address == RecipientOf(c, tx)
    ensures WellKeyed(writes) ==> WellKeyed(writes + AccountWrites(c, seen, tx))
  {
  }

  /** Writing first and deleting second gives the overlaid map, because no key is in both. */
  lemma {:induction false} WritesThenDeletes<K, V>(base: map<K, V>, l: Layer<K, V>)
    requires Coherent(l)
    ensures (base + l.writes) - l.deletes == Over(base, l)
  {
  }

  /** The part of a map on the listed keys. */
  ghost function Chosen(m: map<Address, H256>, keys: seq<Address>): map<Address, H256> {
    map a | a in m && a in keys :: m[a]
  }

  lemma {:induction false} ChosenSnoc(m: map<Address, H256>, keys: seq<Address>, i: nat)
    requires i < |keys| && keys[i] in m
    ensures Chosen(m, keys[..i + 1]) == Chosen(m, keys[..i])[keys[i] := m[keys[i]]]
  {
    assert keys[..i + 1] == keys[..i] + [keys[i]];
  }

  /** Writing one key fewer of what remains. */
  lemma {:induction false} OneMoreWrite<K, V>(base: map<K, V>, writes: map<K, V>, rest: set<K>, k: K)
    requires k in rest && rest <= writes.Keys
    ensures base + (writes - (rest - {k})) == (base + (writes - rest))[k := writes[k]]
  {
  }

  lemma {:induction false} OneMoreDelete<K, V>(base: map<K, V>, deletes: set<K>, rest: set<K>, k: K)
    requires k in rest && rest <= deletes
    ensures base - (deletes - (rest - {k})) == base - (deletes - rest) - {k}
  {
  }

  lemma {:induction false} OneMoreHash(c: Codec, accounts: map<Address, Account>, rest: set<Address>, a: Address)
    requires a in rest && rest <= accounts.Keys
    ensures Hashed(c, accounts - (rest - {a})) == Hashed(c, accounts - rest)[a := c.accountHash(accounts[a])]
  {
    assert accounts - (rest - {a}) == (accounts - rest)[a := accounts[a]];
  }
}
