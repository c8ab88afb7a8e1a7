/** Speculative execution: writes go to an in-memory overlay that shadows the store until it is committed
    or thrown away. */
module LedgerOverlay {
  import opened Types
  import opened LedgerModel

  // ---------------------------------------------------------------- one column family

  /** Pending writes and deletes over a stored map. */
  datatype Layer<K, V> = Layer(writes: map<K, V>, deletes: set<K>)

  function Put<K, V>(l: Layer<K, V>, k: K, v: V): Layer<K, V> {
    Layer(l.writes[k := v], l.deletes - {k})
  }

  function Delete<K, V>(l: Layer<K, V>, k: K): Layer<K, V> {
    Layer(l.writes - {k}, l.deletes + {k})
  }

  datatype Lookup<V> = Unknown | Deleted | Found(value: V)

  function Get<K, V>(l: Layer<K, V>, k: K): Lookup<V> {
    if k in l.deletes then Deleted else if k in l.writes then Found(l.writes[k]) else Unknown
  }

  /** No key is both written and deleted. */
  ghost predicate Coherent<K, V>(l: Layer<K, V>) {
    l.writes.Keys !! l.deletes
  }

  /** What a reader of the overlay sees. */
  ghost function Over<K, V>(base: map<K, V>, l: Layer<K, V>): map<K, V> {
    (base - l.deletes) + l.writes
  }

  /** Looking in the overlay first and in the store second reads the overlaid map. */
  lemma {:induction false} LookupReadsOver<K, V>(base: map<K, V>, l: Layer<K, V>, k: K)
    requires Coherent(l)
    ensures match Get(l, k)
            case Found(v) => k in Over(base, l) && Over(base, l)[k] == v
            case Deleted => k !in Over(base, l)
            case Unknown => (k in Over(base, l) <==> k in base) && (k in base ==> Over(base, l)[k] == base[k])
  {
  }

  lemma {:induction false} PutOver<K, V>(base: map<K, V>, l: Layer<K, V>, k: K, v: V)
    requires Coherent(l)
    ensures Coherent(Put(l, k, v)) && Over(base, Put(l, k, v)) == Over(base, l)[k := v]
  {
  }

  lemma {:induction false} DeleteOver<K, V>(base: map<K, V>, l: Layer<K, V>, k: K)
    requires Coherent(l)
    ensures Coherent(Delete(l, k)) && Over(base, Delete(l, k)) == Over(base, l) - {k}
  {
  }

  // ---------------------------------------------------------------- the overlay

  datatype Overlay = Overlay(
    accounts: Layer<Address, Account>,
    utxos: Layer<UtxoId, Utxo>,
    changed: seq<Address>)

  const EMPTY_OVERLAY: Overlay := Overlay(Layer(map[], {}), Layer(map[], {}), [])

  /** What is stored while the overlay lives. */
  datatype Base = Base(accounts: map<Address, Account>, utxos: map<UtxoId, Utxo>, leaves: map<Address, H256>)

  /** The overlay and the speculative copy of the tree. */
  datatype Speculation = Speculation(overlay: Overlay, leaves: map<Address, H256>)

  ghost function Seen(b: Base, s: Speculation): View {
    View(Over(b.accounts, s.overlay.accounts), Over(b.utxos, s.overlay.utxos), s.leaves)
  }

  ghost function Start(b: Base): Speculation {
    Speculation(EMPTY_OVERLAY, b.leaves)
  }

  /** What the overlay always is: coherent, without deleted accounts, listing exactly the accounts it
      writes, and with the tree updated for exactly those. */
  ghost predicate Tracked(c: Codec, b: Base, s: Speculation) {
    && Coherent(s.overlay.accounts) && Coherent(s.overlay.utxos)
    && s.overlay.accounts.deletes == {}
    && (forall a :: a in s.overlay.changed <==> a in s.overlay.accounts.writes)
    && s.leaves == b.leaves + Hashed(c, s.overlay.accounts.writes)
  }

  // ---------------------------------------------------------------- one transaction

  function DeleteAll(l: Layer<UtxoId, Utxo>, ids: seq<UtxoId>): Layer<UtxoId, Utxo> {
    if ids == [] then l else Delete(DeleteAll(l, ids[..|ids| - 1]), ids[|ids| - 1])
  }

  function PutOutputs(c: Codec, l: Layer<UtxoId, Utxo>, tx: Transaction, n: nat): Layer<UtxoId, Utxo>
    requires n <= |tx.outputs|
  {
    if n == 0 then l
    else Put(PutOutputs(c, l, tx, n - 1), UtxoId(c.txHash(tx), n - 1), OutputUtxo(c, tx.outputs[n - 1]))
  }

  function WriteUtxos(c: Codec, l: Layer<UtxoId, Utxo>, tx: Transaction): Layer<UtxoId, Utxo> {
    PutOutputs(c, DeleteAll(l, tx.inputs), tx, |tx.outputs|)
  }

  /** The overlay's account writes: the sender's, then the recipient's. */
  function WriteAccounts(l: Layer<Address, Account>, sender: Address, s: Account, recipient: Address,
                         r: Option<Account>)
    : Layer<Address, Account>
  {
    var l1 := Put(l, sender, s);
    if r.None? then l1 else Put(l1, recipient, r.value)
  }

  function RecipientOf(c: Codec, tx: Transaction): Address {
    var d := Decode(c, tx);
    if d.Transfer? then d.payload.recipient else tx.sender
  }

  function Touched(c: Codec, tx: Transaction): seq<Address> {
    if RecipientOf(c, tx) == tx.sender then [tx.sender] else [tx.sender, RecipientOf(c, tx)]
  }

  /** The overlay and tree after a valid transaction, seen accounts being `seen`. */
  function Written(c: Codec, seen: map<Address, Account>, s: Speculation, tx: Transaction): Speculation
    requires AccountsValid(c, seen, tx)
  {
    Speculation(
      Overlay(WriteAccounts(s.overlay.accounts, tx.sender, SenderAfter(c, seen, tx), RecipientOf(c, tx),
                            RecipientAfter(c, seen, tx)),
              WriteUtxos(c, s.overlay.utxos, tx),
              s.overlay.changed + Touched(c, tx)),
      s.leaves + Hashed(c, AccountWrites(c, seen, tx)))
  }

  ghost function Speculate(c: Codec, b: Base, s: Speculation, tx: Transaction): Speculation {
    if Valid(c, Seen(b, s), tx) then Written(c, Seen(b, s).accounts, s, tx) else s
  }

  lemma {:induction false} DeleteAllOver(base: map<UtxoId, Utxo>, l: Layer<UtxoId, Utxo>, ids: seq<UtxoId>)
    requires Coherent(l)
    ensures Coherent(DeleteAll(l, ids)) && Over(base, DeleteAll(l, ids)) == Over(base, l) - Spent(ids)
    decreases |ids|
  {
    if ids != [] {
      var n := |ids| - 1;
      DeleteAllOver(base, l, ids[..n]);
      DeleteOver(base, DeleteAll(l, ids[..n]), ids[n]);
      assert Spent(ids) == Spent(ids[..n]) + {ids[n]};
    }
  }

  lemma {:induction false} PutOutputsOver(c: Codec, base: map<UtxoId, Utxo>, l: Layer<UtxoId, Utxo>, tx: Transaction,
                                          n: nat)
    requires Coherent(l) && n <= |tx.outputs|
    ensures Coherent(PutOutputs(c, l, tx, n))
    ensures Over(base, PutOutputs(c, l, tx, n)) == Over(base, l) + Created(c, tx, n)
    decreases n
  {
    if n > 0 {
      PutOutputsOver(c, base, l, tx, n - 1);
      var id, utxo := UtxoId(c.txHash(tx), n - 1), OutputUtxo(c, tx.outputs[n - 1]);
      PutOver(base, PutOutputs(c, l, tx, n - 1), id, utxo);
      UpdateOfUnion(Over(base, l), Created(c, tx, n - 1), id, utxo);
    }
  }

  lemma {:induction false} UpdateOfUnion<K, V>(a: map<K, V>, b: map<K, V>, k: K, v: V)
    ensures (a + b)[k := v] == a + b[k := v]
  {
  }

  lemma {:induction false} WriteUtxosOver(c: Codec, base: map<UtxoId, Utxo>, l: Layer<UtxoId, Utxo>, tx: Transaction)
    requires Coherent(l)
    ensures Coherent(WriteUtxos(c, l, tx)) && Over(base, WriteUtxos(c, l, tx)) == UtxosAfter(c, Over(base, l), tx)
  {
    DeleteAllOver(base, l, tx.inputs);
    PutOutputsOver(c, base, DeleteAll(l, tx.inputs), tx, |tx.outputs|);
  }

  lemma {:induction false} WriteAccountsOver(c: Codec, base: map<Address, Account>, l: Layer<Address, Account>,
                                             tx: Transaction)
    requires Coherent(l) && l.deletes == {} && AccountsValid(c, Over(base, l), tx)
    ensures var seen := Over(base, l);
            var l' := WriteAccounts(l, tx.sender, SenderAfter(c, seen, tx), RecipientOf(c, tx),
                                    RecipientAfter(c, seen, tx));
            && Coherent(l') && l'.deletes == {}
            && l'.writes == l.writes + AccountWrites(c, seen, tx)
            && Over(base, l') == seen + AccountWrites(c, seen, tx)
  {
    var seen := Over(base, l);
    WritePairOver(base, l, tx.sender, SenderAfter(c, seen, tx), RecipientOf(c, tx), RecipientAfter(c, seen, tx));
  }

  lemma {:induction false} WritePairOver(base: map<Address, Account>, l: Layer<Address, Account>,
                                         a: Address, s: Account, b: Address, r: Option<Account>)
    requires Coherent(l) && l.deletes == {}
    ensures var l', w := WriteAccounts(l, a, s, b, r), if r.None? then map[a := s] else map[a := s][b := r.value];
            && Coherent(l') && l'.deletes == {}
            && l'.writes == l.writes + w && Over(base, l') == Over(base, l) + w
  {
    PutOver(base, l, a, s);
    var x := if r.None? then s else r.value;
    PutOver(base, Put(l, a, s), b, x);
    UpdateIsUnion(Over(base, l), a, s, b, x);
    UpdateIsUnion(l.writes, a, s, b, x);
  }

  /** One speculative step shows exactly what one direct step does. */
  lemma {:induction false} SpeculateRefines(c: Codec, b: Base, s: Speculation, tx: Transaction)
    requires Tracked(c, b, s)
    ensures Tracked(c, b, Speculate(c, b, s, tx))
    ensures Seen(b, Speculate(c, b, s, tx)) == Apply(c, Seen(b, s), tx)
  {
    if Valid(c, Seen(b, s), tx) {
      WriteAccountsOver(c, b.accounts, s.overlay.accounts, tx);
      WriteUtxosOver(c, b.utxos, s.overlay.utxos, tx);
      WrittenIsTracked(c, b, s, tx);
    }
  }

  lemma {:induction false} WrittenIsTracked(c: Codec, b: Base, s: Speculation, tx: Transaction)
    requires Tracked(c, b, s) && AccountsValid(c, Seen(b, s).accounts, tx)
    ensures Tracked(c, b, Written(c, Seen(b, s).accounts, s, tx))
  {
    var seen := Seen(b, s).accounts;
    var writes := AccountWrites(c, seen, tx);
    WriteAccountsOver(c, b.accounts, s.overlay.accounts, tx);
    WriteUtxosOver(c, b.utxos, s.overlay.utxos, tx);
    TouchedAreWritten(c, seen, tx);
    AddressesJoin(s.overlay.changed, Touched(c, tx), s.overlay.accounts.writes, writes);
    HashedUnion(c, s.overlay.accounts.writes, writes);
    UnionAssociates(b.leaves, Hashed(c, s.overlay.accounts.writes), Hashed(c, writes));
  }

  lemma {:induction false} UnionAssociates<K, V>(a: map<K, V>, b: map<K, V>, c: map<K, V>)
    ensures a + b + c == a + (b + c)
  {
  }

  lemma {:induction false} UpdateIsUnion<K, V>(m: map<K, V>, a: K, x: V, b: K, y: V)
    ensures m[a := x] == m + map[a := x]
    ensures m[a := x][b := y] == m + map[a := x][b := y]
  {
  }

  lemma {:induction false} AddressesJoin(x: seq<Address>, y: seq<Address>, m: map<Address, Account>,
                                         n: map<Address, Account>)
    requires forall a :: a in x <==> a in m
    requires forall a :: a in y <==> a in n
    ensures forall a :: a in x + y <==> a in m + n
  {
  }

  lemma {:induction false} TouchedAreWritten(c: Codec, seen: map<Address, Account>, tx: Transaction)
    requires AccountsValid(c, seen, tx)
    ensures forall a :: a in Touched(c, tx) <==> a in AccountWrites(c, seen, tx)
  {
  }

  lemma {:induction false} HashedUnion(c: Codec, a: map<Address, Account>, b: map<Address, Account>)
    ensures Hashed(c, a + b) == Hashed(c, a) + Hashed(c, b)
  {
  }

  // ---------------------------------------------------------------- blocks

  /** With an expected chain id, transactions for other chains fail. */
  predicate OnChain(chain: Option<u64>, tx: Transaction) {
    chain == None || tx.chainId == chain.value
  }

  ghost predicate Succeeds(c: Codec, b: Base, s: Speculation, chain: Option<u64>, tx: Transaction) {
    OnChain(chain, tx) && Valid(c, Seen(b, s), tx)
  }

  ghost function SpeculateOn(c: Codec, b: Base, s: Speculation, chain: Option<u64>, tx: Transaction): Speculation {
    if Succeeds(c, b, s, chain, tx) then Written(c, Seen(b, s).accounts, s, tx) else s
  }

  ghost function SpeculateAll(c: Codec, b: Base, chain: Option<u64>, txs: seq<Transaction>): Speculation {
    if txs == [] then Start(b)
    else
      SpeculateOn(c, b, SpeculateAll(c, b, chain, txs[..|txs| - 1]), chain, txs[|txs| - 1])
  }

  ghost function SpeculativeReceipts(c: Codec, b: Base, chain: Option<u64>, txs: seq<Transaction>): seq<Receipt> {
    if txs == [] then []
    else
      var n := |txs| - 1;
      SpeculativeReceipts(c, b, chain, txs[..n])
      + [Receipt(c.txHash(txs[n]), Succeeds(c, b, SpeculateAll(c, b, chain, txs[..n]), chain, txs[n]),
                 c.root(SpeculateAll(c, b, chain, txs).leaves))]
  }

  ghost function BaseView(b: Base): View {
    View(b.accounts, b.utxos, b.leaves)
  }

  /** The transactions of the expected chain. */
  ghost function Ours(chain: Option<u64>, txs: seq<Transaction>): seq<Transaction> {
    if txs == [] then []
    else
      var n := |txs| - 1;
      if OnChain(chain, txs[n]) then Ours(chain, txs[..n]) + [txs[n]] else Ours(chain, txs[..n])
  }

  /** Speculating a block and reading the overlay is applying the block directly, without the
      transactions of other chains. */
  lemma {:induction false} SpeculationRefines(c: Codec, b: Base, chain: Option<u64>, txs: seq<Transaction>)
    ensures Tracked(c, b, SpeculateAll(c, b, chain, txs))
    ensures Seen(b, SpeculateAll(c, b, chain, txs)) == ApplyAll(c, BaseView(b), Ours(chain, txs))
    decreases |txs|
  {
    if txs == [] {
      assert Hashed(c, map[]) == map[];
    } else {
      var n := |txs| - 1;
      var s := SpeculateAll(c, b, chain, txs[..n]);
      SpeculationRefines(c, b, chain, txs[..n]);
      if OnChain(chain, txs[n]) {
        SpeculateRefines(c, b, s, txs[n]);
        var ours := Ours(chain, txs[..n]);
        assert (ours + [txs[n]])[..|ours|] == ours;
      }
    }
  }

  /** One more transaction of a block. */
  lemma {:induction false} SpeculateAllSnoc(c: Codec, b: Base, chain: Option<u64>, txs: seq<Transaction>, i: nat)
    requires i < |txs|
    ensures var s := SpeculateAll(c, b, chain, txs[..i]);
            && Tracked(c, b, s)
            && SpeculateAll(c, b, chain, txs[..i + 1]) == SpeculateOn(c, b, s, chain, txs[i])
            && SpeculativeReceipts(c, b, chain, txs[..i + 1])
               == SpeculativeReceipts(c, b, chain, txs[..i])
                  + [Receipt(c.txHash(txs[i]), Succeeds(c, b, s, chain, txs[i]),
                             c.root(SpeculateOn(c, b, s, chain, txs[i]).leaves))]
  {
    assert txs[..i + 1][..i] == txs[..i];
    SpeculationRefines(c, b, chain, txs[..i]);
  }

  lemma {:induction false} OursIsAll(txs: seq<Transaction>)
    ensures Ours(None, txs) == txs
    decreases |txs|
  {
    if txs != [] {
      OursIsAll(txs[..|txs| - 1]);
    }
  }

  /** Without an expected chain id the receipts agree too: same successes, same roots. */
  lemma {:induction false} ReceiptsAgree(c: Codec, b: Base, txs: seq<Transaction>)
    ensures SpeculativeReceipts(c, b, None, txs) == Receipts(c, BaseView(b), txs)
    decreases |txs|
  {
    if txs != [] {
      var n := |txs| - 1;
      ReceiptsAgree(c, b, txs[..n]);
      SpeculationRefines(c, b, None, txs[..n]);
      SpeculationRefines(c, b, None, txs);
      OursIsAll(txs[..n]);
      OursIsAll(txs);
    }
  }

  // ---------------------------------------------------------------- failure isolation

  /** The transactions of a block that succeed. */
  ghost function Survivors(c: Codec, b: Base, chain: Option<u64>, txs: seq<Transaction>): seq<Transaction> {
    if txs == [] then []
    else
      var n := |txs| - 1;
      var before := Survivors(c, b, chain, txs[..n]);
      if Succeeds(c, b, SpeculateAll(c, b, chain, txs[..n]), chain, txs[n]) then before + [txs[n]] else before
  }

  /** The receipts of the successes, in order. */
  ghost function Successes(receipts: seq<Receipt>): seq<Receipt> {
    if receipts == [] then []
    else
      var n := |receipts| - 1;
      if receipts[n].success then Successes(receipts[..n]) + [receipts[n]] else Successes(receipts[..n])
  }

  /** ISOLATION. Removing every failed transaction from a block changes neither the overlay, with its
      writes, deletes and changed accounts, nor the tree, nor the receipts of the others. */
  lemma {:induction false} FailuresLeaveNoTrace(c: Codec, b: Base, chain: Option<u64>, txs: seq<Transaction>)
    ensures SpeculateAll(c, b, chain, Survivors(c, b, chain, txs)) == SpeculateAll(c, b, chain, txs)
    ensures SpeculativeReceipts(c, b, chain, Survivors(c, b, chain, txs))
            == Successes(SpeculativeReceipts(c, b, chain, txs))
    decreases |txs|
  {
    if txs != [] {
      var n := |txs| - 1;
      FailuresLeaveNoTrace(c, b, chain, txs[..n]);
      var before, receipts := Survivors(c, b, chain, txs[..n]), SpeculativeReceipts(c, b, chain, txs[..n]);
      assert (before + [txs[n]])[..|before|] == before;
      assert SpeculativeReceipts(c, b, chain, txs)[..|receipts|] == receipts;
    }
  }
}
