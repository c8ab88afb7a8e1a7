/** The stored state and the batches of operations written to it. */
module LedgerStore {
  import opened Types
  import opened LedgerModel
  import opened LedgerOverlay

  /** The column families the ledger uses. */
  datatype Store = Store(
    accounts: map<Address, Account>,
    utxos: map<UtxoId, Utxo>,
    stateRoot: Option<H256>,
    burned: u128,
    treasury: u128)

  datatype Op =
    | PutAccount(key: Address, account: Account)
    | DeleteAccount(key: Address)
    | PutUtxo(id: UtxoId, utxo: Utxo)
    | DeleteUtxo(id: UtxoId)
    | PutRoot(root: H256)
    | PutBurned(total: u128)
    | PutTreasury(total: u128)

  function WriteOp(s: Store, op: Op): Store {
    match op
    case PutAccount(k, a) => s.(accounts := s.accounts[k := a])
    case DeleteAccount(k) => s.(accounts := s.accounts - {k})
    case PutUtxo(id, u) => s.(utxos := s.utxos[id := u])
    case DeleteUtxo(id) => s.(utxos := s.utxos - {id})
    case PutRoot(r) => s.(stateRoot := Some(r))
    case PutBurned(n) => s.(burned := n)
    case PutTreasury(n) => s.(treasury := n)
  }

  /** A batch takes effect in order. */
  ghost function WriteAll(s: Store, ops: seq<Op>): Store {
    if ops == [] then s else WriteOp(WriteAll(s, ops[..|ops| - 1]), ops[|ops| - 1])
  }

  lemma {:induction false} WriteSnoc(s: Store, ops: seq<Op>, op: Op)
    ensures WriteAll(s, ops + [op]) == WriteOp(WriteAll(s, ops), op)
  {
    assert (ops + [op])[..|ops|] == ops;
  }

  /** The store after an overlay is committed with tree `leaves`. */
  ghost function Committed(c: Codec, s: Store, o: Overlay, leaves: map<Address, H256>): Store {
    s.(accounts := Over(s.accounts, o.accounts), utxos := Over(s.utxos, o.utxos), stateRoot := Some(c.root(leaves)))
  }

  /** The part of the state that is stored and in memory and must agree: the tree is the tree of the
      stored accounts and the stored root, if any, is its root. */
  ghost predicate Consistent(c: Codec, s: Store, leaves: map<Address, H256>) {
    && WellKeyed(s.accounts)
    && leaves == Hashed(c, s.accounts)
    && (s.stateRoot.Some? ==> s.stateRoot.value == c.root(leaves))
    && (s.accounts != map[] ==> s.stateRoot.Some?)
  }

  /** Committing a tracked overlay keeps the agreement, and the committed root is the speculative one. */
  lemma {:induction false} CommitKeepsConsistent(c: Codec, s: Store, leaves: map<Address, H256>, spec: Speculation)
    requires Consistent(c, s, leaves)
    requires Tracked(c, Base(s.accounts, s.utxos, leaves), spec) && WellKeyed(spec.overlay.accounts.writes)
    ensures Consistent(c, Committed(c, s, spec.overlay, spec.leaves), spec.leaves)
  {
    var o := spec.overlay;
    assert s.accounts - o.accounts.deletes == s.accounts;
    HashedUnion(c, s.accounts, o.accounts.writes);
  }

  // ---------------------------------------------------------------- fee distribution

  /** How a block's fees are split. */
  datatype Fees = Fees(reward: u128, burned: u128, treasury: u128)

  /** None of the three credits overflows. */
  predicate RewardFits(s: Store, proposer: Address, fees: Fees) {
    fees.reward == 0 || AccountAt(s.accounts, proposer).balance + fees.reward <= U128_MAX
  }

  predicate FeesFit(s: Store, proposer: Address, fees: Fees) {
    && RewardFits(s, proposer, fees)
    && s.burned + fees.burned <= U128_MAX
    && s.treasury + fees.treasury <= U128_MAX
  }

  function Rewarded(s: Store, proposer: Address, fees: Fees): Account
    requires RewardFits(s, proposer, fees)
  {
    var a := AccountAt(s.accounts, proposer);
    a.(balance := a.balance + fees.reward)
  }

  /** The tree after the proposer is paid. */
  function RewardedLeaves(c: Codec, s: Store, leaves: map<Address, H256>, proposer: Address,
                          fees: Fees): map<Address, H256>
    requires RewardFits(s, proposer, fees)
  {
    if fees.reward == 0 then leaves else leaves[proposer := c.accountHash(Rewarded(s, proposer, fees))]
  }

  /** The store after the proposer is paid. */
  function Paid(c: Codec, s: Store, leaves: map<Address, H256>, proposer: Address, fees: Fees): Store
    requires RewardFits(s, proposer, fees)
  {
    if fees.reward == 0 then s
    else
      s.(accounts := s.accounts[proposer := Rewarded(s, proposer, fees)],
         stateRoot := Some(c.root(RewardedLeaves(c, s, leaves, proposer, fees))))
  }

  /** The store after the fees are distributed. */
  function Distributed(c: Codec, s: Store, leaves: map<Address, H256>, proposer: Address, fees: Fees): Store
    requires FeesFit(s, proposer, fees)
  {
    Paid(c, s, leaves, proposer, fees).(burned := s.burned + fees.burned, treasury := s.treasury + fees.treasury)
  }

  lemma {:induction false} DistributionKeepsConsistent(c: Codec, s: Store, leaves: map<Address, H256>,
                                                       proposer: Address, fees: Fees)
    requires Consistent(c, s, leaves) && FeesFit(s, proposer, fees)
    ensures Consistent(c, Distributed(c, s, leaves, proposer, fees), RewardedLeaves(c, s, leaves, proposer, fees))
  {
    var a := Rewarded(s, proposer, fees);
    assert Hashed(c, s.accounts[proposer := a]) == Hashed(c, s.accounts)[proposer := c.accountHash(a)];
  }

  /** One account written with its leaf and the new root. */
  ghost function WithAccount(c: Codec, s: Store, leaves: map<Address, H256>, a: Account): Store {
    s.(accounts := s.accounts[a.address := a], stateRoot := Some(c.root(leaves[a.address := c.accountHash(a)])))
  }

  lemma {:induction false} AccountKeepsConsistent(c: Codec, s: Store, leaves: map<Address, H256>, a: Account)
    requires Consistent(c, s, leaves)
    ensures Consistent(c, WithAccount(c, s, leaves, a), leaves[a.address := c.accountHash(a)])
  {
    assert Hashed(c, s.accounts[a.address := a]) == Hashed(c, s.accounts)[a.address := c.accountHash(a)];
  }
}
