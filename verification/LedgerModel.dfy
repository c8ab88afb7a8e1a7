/** What a transaction means, stated once on plain values: when it is valid and what it changes. The two
    implementations, direct and speculative, are both proved against this. */
module LedgerModel {
  import opened Types

  datatype Account = Account(address: Address, balance: u128, nonce: u64, codeHash: Option<H256>, storageRoot: H256)

  datatype UtxoId = UtxoId(txHash: H256, index: nat)

  datatype Utxo = Utxo(amount: u128, owner: Address, scriptHash: Option<H256>)

  datatype UtxoOutput = UtxoOutput(amount: u128, owner: PublicKey, scriptHash: Option<H256>)

  datatype TransferPayload = TransferPayload(recipient: Address, amount: u128)

  datatype Transaction = Transaction(
    nonce: u64,
    chainId: u64,
    sender: Address,
    senderKey: PublicKey,
    inputs: seq<UtxoId>,
    outputs: seq<UtxoOutput>,
    programId: Option<H256>,
    data: string,
    gasLimit: u64,
    fee: u128,
    signature: string)

  const TRANSFER_PROGRAM_ID: H256 := H256(0x0101010101010101010101010101010101010101010101010101010101010101)

  /** Hashing, decoding and signatures. */
  datatype Codec = Codec(
    addressOf: PublicKey -> Address,
    txHash: Transaction -> H256,
    accountHash: Account -> H256,
    root: map<Address, H256> -> H256,
    decodePayload: string -> Option<TransferPayload>,
    signed: Transaction -> bool)

  datatype Receipt = Receipt(txHash: H256, success: bool, stateRoot: H256)

  /** The state a transaction sees: accounts, unspent outputs and the Merkle leaves of the accounts. */
  datatype View = View(
    accounts: map<Address, Account>,
    utxos: map<UtxoId, Utxo>,
    leaves: map<Address, H256>)

  function NewAccount(a: Address): Account {
    Account(a, 0, 0, None, ZERO_HASH)
  }

  function AccountAt(accounts: map<Address, Account>, a: Address): Account {
    if a in accounts then accounts[a] else NewAccount(a)
  }

  // ---------------------------------------------------------------- payloads

  datatype Decoded = BadPayload | NoTransfer | Transfer(payload: TransferPayload)

  function Decode(c: Codec, tx: Transaction): Decoded {
    if tx.programId != Some(TRANSFER_PROGRAM_ID) then NoTransfer
    else if tx.data == "" then BadPayload
    else
      match c.decodePayload(tx.data)
      case None => BadPayload
      case Some(p) => if p.amount == 0 then BadPayload else Transfer(p)
  }

  function TransferAmount(d: Decoded): u128 {
    if d.Transfer? then d.payload.amount else 0
  }

  predicate IsUtxoTx(tx: Transaction) {
    tx.inputs != [] || tx.outputs != []
  }

  // ---------------------------------------------------------------- sums

  ghost function SumInputs(utxos: map<UtxoId, Utxo>, inputs: seq<UtxoId>): nat {
    if inputs == [] then 0
    else
      var last := inputs[|inputs| - 1];
      SumInputs(utxos, inputs[..|inputs| - 1]) + if last in utxos then utxos[last].amount else 0
  }

  ghost function SumOutputs(outputs: seq<UtxoOutput>): nat {
    if outputs == [] then 0 else SumOutputs(outputs[..|outputs| - 1]) + outputs[|outputs| - 1].amount
  }

  predicate Distinct(inputs: seq<UtxoId>) {
    forall i, j :: 0 <= i < j < |inputs| ==> inputs[i] != inputs[j]
  }

  predicate Owned(utxos: map<UtxoId, Utxo>, tx: Transaction) {
    forall i :: 0 <= i < |tx.inputs| ==> tx.inputs[i] in utxos && utxos[tx.inputs[i]].owner == tx.sender
  }

  // ---------------------------------------------------------------- validity

  /** The spent outputs exist, are distinct and the sender's, and cover what is created plus the fee. */
  ghost predicate FundsValid(utxos: map<UtxoId, Utxo>, tx: Transaction) {
    && Distinct(tx.inputs)
    && Owned(utxos, tx)
    && SumInputs(utxos, tx.inputs) <= U128_MAX
    && SumOutputs(tx.outputs) <= U128_MAX
    && (IsUtxoTx(tx) ==> SumOutputs(tx.outputs) + tx.fee <= U128_MAX
                         && SumInputs(utxos, tx.inputs) >= SumOutputs(tx.outputs) + tx.fee)
  }

  /** The sender has the right nonce, and without UTxOs also the balance; the recipient has room. */
  predicate AccountsValid(c: Codec, accounts: map<Address, Account>, tx: Transaction) {
    var d, sender := Decode(c, tx), AccountAt(accounts, tx.sender);
    && d != BadPayload
    && (d.Transfer? ==> !IsUtxoTx(tx))
    && sender.nonce == tx.nonce
    && sender.nonce < U64_MAX
    && (!IsUtxoTx(tx) ==> tx.fee + TransferAmount(d) <= U128_MAX && tx.fee + TransferAmount(d) <= sender.balance)
    && (d.Transfer? && d.payload.recipient != tx.sender ==>
          AccountAt(accounts, d.payload.recipient).balance + d.payload.amount <= U128_MAX)
  }

  ghost predicate Valid(c: Codec, v: View, tx: Transaction) {
    FundsValid(v.utxos, tx) && AccountsValid(c, v.accounts, tx)
  }

  // ---------------------------------------------------------------- effect

  function SenderAfter(c: Codec, accounts: map<Address, Account>, tx: Transaction): Account
    requires AccountsValid(c, accounts, tx)
  {
    var d, sender := Decode(c, tx), AccountAt(accounts, tx.sender);
    var debit := if IsUtxoTx(tx) then 0 else tx.fee + TransferAmount(d);
    var credit := if d.Transfer? && d.payload.recipient == tx.sender then d.payload.amount else 0;
    sender.(balance := sender.balance - debit + credit, nonce := sender.nonce + 1)
  }

  /** Another account that the transaction credits. */
  function RecipientAfter(c: Codec, accounts: map<Address, Account>, tx: Transaction): Option<Account>
    requires AccountsValid(c, accounts, tx)
  {
    var d := Decode(c, tx);
    if d.Transfer? && d.payload.recipient != tx.sender then
      var r := AccountAt(accounts, d.payload.recipient);
      Some(r.(balance := r.balance + d.payload.amount))
    else None
  }

  /** The accounts a transaction writes. */
  function AccountWrites(c: Codec, accounts: map<Address, Account>, tx: Transaction): map<Address, Account>
    requires AccountsValid(c, accounts, tx)
  {
    var r := RecipientAfter(c, accounts, tx);
    var s := map[tx.sender := SenderAfter(c, accounts, tx)];
    if r.None? then s else s[Decode(c, tx).payload.recipient := r.value]
  }

  function OutputUtxo(c: Codec, o: UtxoOutput): Utxo {
    Utxo(o.amount, c.addressOf(o.owner), o.scriptHash)
  }

  /** The first `n` outputs under their ids. */
  function Created(c: Codec, tx: Transaction, n: nat): map<UtxoId, Utxo>
    requires n <= |tx.outputs|
  {
    if n == 0 then map[] else Created(c, tx, n - 1)[UtxoId(c.txHash(tx), n - 1) := OutputUtxo(c, tx.outputs[n - 1])]
  }

  function Spent(inputs: seq<UtxoId>): set<UtxoId> {
    set id | id in inputs
  }

  function UtxosAfter(c: Codec, utxos: map<UtxoId, Utxo>, tx: Transaction): map<UtxoId, Utxo> {
    (utxos - Spent(tx.inputs)) + Created(c, tx, |tx.outputs|)
  }

  function Hashed(c: Codec, accounts: map<Address, Account>): map<Address, H256> {
    map a | a in accounts :: c.accountHash(accounts[a])
  }

  function Effect(c: Codec, v: View, tx: Transaction): View
    requires AccountsValid(c, v.accounts, tx)
  {
    var writes := AccountWrites(c, v.accounts, tx);
    View(v.accounts + writes, UtxosAfter(c, v.utxos, tx), v.leaves + Hashed(c, writes))
  }

  /** A failed transaction changes nothing. */
  ghost function Apply(c: Codec, v: View, tx: Transaction): View {
    if Valid(c, v, tx) then Effect(c, v, tx) else v
  }

  // ---------------------------------------------------------------- blocks

  /** The sender is who the key says, and signed. */
  predicate Authentic(c: Codec, tx: Transaction) {
    c.addressOf(tx.senderKey) == tx.sender && c.signed(tx)
  }

  predicate AllAuthentic(c: Codec, txs: seq<Transaction>) {
    forall i :: 0 <= i < |txs| ==> Authentic(c, txs[i])
  }

  ghost function ApplyAll(c: Codec, v: View, txs: seq<Transaction>): View {
    if txs == [] then v else Apply(c, ApplyAll(c, v, txs[..|txs| - 1]), txs[|txs| - 1])
  }

  ghost function ReceiptOf(c: Codec, v: View, tx: Transaction): Receipt {
    Receipt(c.txHash(tx), Valid(c, v, tx), c.root(Apply(c, v, tx).leaves))
  }

  ghost function Receipts(c: Codec, v: View, txs: seq<Transaction>): seq<Receipt> {
    if txs == [] then []
    else
      var n := |txs| - 1;
      Receipts(c, v, txs[..n]) + [ReceiptOf(c, ApplyAll(c, v, txs[..n]), txs[n])]
  }

  // ---------------------------------------------------------------- what a success does

  /** What leaves and what enters an account. */
  ghost function Outflow(c: Codec, tx: Transaction, a: Address): nat {
    if a == tx.sender && !IsUtxoTx(tx) then tx.fee + TransferAmount(Decode(c, tx)) else 0
  }

  ghost function Inflow(c: Codec, tx: Transaction, a: Address): nat {
    var d := Decode(c, tx);
    if d.Transfer? && d.payload.recipient == a then d.payload.amount else 0
  }

  /** For every account, sender, recipient, both or neither: the balance changes by what flows in and out, only
      the sender's nonce moves, by one, and the rest of the account stays. */
  lemma {:induction false} EffectOnAccounts(c: Codec, v: View, tx: Transaction, a: Address)
    requires AccountsValid(c, v.accounts, tx)
    ensures var x, y := AccountAt(v.accounts, a), AccountAt(Effect(c, v, tx).accounts, a);
            && y.balance == x.balance + Inflow(c, tx, a) - Outflow(c, tx, a)
            && y.nonce == x.nonce + (if a == tx.sender then 1 else 0)
            && y.codeHash == x.codeHash && y.storageRoot == x.storageRoot && y.address == x.address
  {
    assert RecipientAfter(c, v.accounts, tx).Some? ==> Decode(c, tx).payload.recipient != tx.sender;
  }

  /** The transaction makes this output. */
  predicate Makes(c: Codec, tx: Transaction, id: UtxoId) {
    id.txHash == c.txHash(tx) && id.index < |tx.outputs|
  }

  lemma {:induction false} CreatedAt(c: Codec, tx: Transaction, n: nat, id: UtxoId)
    requires n <= |tx.outputs|
    ensures id in Created(c, tx, n) <==> id.txHash == c.txHash(tx) && id.index < n
    ensures id in Created(c, tx, n) ==> Created(c, tx, n)[id] == OutputUtxo(c, tx.outputs[id.index])
    decreases n
  {
    if n > 0 {
      CreatedAt(c, tx, n - 1, id);
    }
  }

  /** An output is unspent afterwards exactly if the transaction makes it, or it was unspent and is not spent. */
  lemma {:induction false} EffectOnUtxos(c: Codec, v: View, tx: Transaction, id: UtxoId)
    requires AccountsValid(c, v.accounts, tx)
    ensures var after := Effect(c, v, tx).utxos;
            && (id in after <==> Makes(c, tx, id) || (id in v.utxos && id !in tx.inputs))
            && (Makes(c, tx, id) ==> after[id] == OutputUtxo(c, tx.outputs[id.index]))
            && (id in after && !Makes(c, tx, id) ==> after[id] == v.utxos[id])
  {
    CreatedAt(c, tx, |tx.outputs|, id);
  }

  /** Accounts are stored under their own address. */
  ghost predicate WellKeyed(accounts: map<Address, Account>) {
    forall a :: a in accounts ==> accounts[a].address == a
  }

  /** Every leaf is the hash of its account and no account lacks a leaf. */
  ghost predicate TreeAgrees(c: Codec, v: View) {
    WellKeyed(v.accounts) && v.leaves == Hashed(c, v.accounts)
  }

  lemma {:induction false} EffectKeepsTree(c: Codec, v: View, tx: Transaction)
    requires AccountsValid(c, v.accounts, tx)
    ensures WellKeyed(v.accounts) ==>
              WellKeyed(Effect(c, v, tx).accounts) && WellKeyed(AccountWrites(c, v.accounts, tx))
    ensures TreeAgrees(c, v) ==> TreeAgrees(c, Effect(c, v, tx))
  {
    var writes := AccountWrites(c, v.accounts, tx);
    assert Hashed(c, v.accounts + writes) == Hashed(c, v.accounts) + Hashed(c, writes);
  }

  lemma {:induction false} BlockKeepsTree(c: Codec, v: View, txs: seq<Transaction>)
    requires TreeAgrees(c, v)
    ensures TreeAgrees(c, ApplyAll(c, v, txs))
    decreases |txs|
  {
    if txs != [] {
      var n := |txs| - 1;
      BlockKeepsTree(c, v, txs[..n]);
      if Valid(c, ApplyAll(c, v, txs[..n]), txs[n]) {
        EffectKeepsTree(c, ApplyAll(c, v, txs[..n]), txs[n]);
      }
    }
  }
}
