/** The node's block commit from end to end: execute speculatively, add up fees and gas, let the fee market
    split them, and write overlay and fees in one batch. */
module BlockCommit {
  import opened Types
  import opened LedgerModel
  import opened LedgerOverlay
  import opened LedgerStore
  import opened LedgerEngine
  import opened LedgerSupply
  import opened FeeMarketEngine
  import opened LedgerChain

  /** Fees and gas of a block, saturating. */
  method AddUp(txs: seq<Transaction>) returns (collected: u128, gas: u64)
    ensures collected == Collected(txs) && gas == Min(SumGas(txs), U64_MAX)
  {
    collected, gas := 0, 0;
    for i := 0 to |txs|
      invariant collected == Collected(txs[..i]) && gas == Min(SumGas(txs[..i]), U64_MAX)
    {
      assert txs[..i + 1][..i] == txs[..i];
      collected, gas := SaturatingAdd(collected, txs[i].fee), SaturatingAdd64(gas, txs[i].gasLimit);
    }
    assert txs[..|txs|] == txs;
  }

  ghost function BlockFees(baseFee: u128, txs: seq<Transaction>): Fees {
    Split(baseFee, Min(SumGas(txs), U64_MAX), Collected(txs))
  }

  ghost function StateOf(ledger: Ledger): Chainstate
    reads ledger
  {
    Chainstate(ledger.store, ledger.leaves)
  }

  /** A block is committed exactly when every signature holds and no credit overflows, and the ledger is then
      what a commit of the chain makes it. What the store accounts for changes by what was handed out less
      what was paid and lost. A block with a bad signature changes nothing; one whose fees overflow leaves the
      store alone, but has already moved the base fee and the running totals. */
  method CommitProducedBlock(ledger: Ledger, market: FeeMarket, txs: seq<Transaction>, chain: Option<u64>,
                             proposer: Address)
    returns (ok: bool)
    requires market.Valid() && WellKeyed(ledger.store.accounts)
    modifies ledger, market
    ensures var b := Committable(chain, txs, proposer, BlockFees(old(market.baseFee), txs));
            && (ok <==> AllAuthentic(ledger.codec, txs) && Fits(ledger.codec, old(StateOf(ledger)), b))
            && StateOf(ledger) == if AllAuthentic(ledger.codec, txs)
               then Commit(ledger.codec, old(StateOf(ledger)), b) else old(StateOf(ledger))
    ensures ok ==> var v, ours := old(ledger.CurrentView()), Ours(chain, txs);
                   Wealth(ledger.store) + PaidFees(ledger.codec, v, ours) + TotalLost(ledger.codec, v, ours)
                   == Wealth(old(ledger.store)) + Max(Collected(txs), BlockFees(old(market.baseFee), txs).burned)
    ensures ok && old(Sound(ledger.codec, StateOf(ledger))) ==> Sound(ledger.codec, StateOf(ledger))
    ensures !ok ==> ledger.store == old(ledger.store)
    ensures market.Valid() && market.targetGas == old(market.targetGas) && market.minBaseFee == old(market.minBaseFee)
    ensures market.baseFee == if AllAuthentic(ledger.codec, txs)
                              then NextBaseFee(old(market.baseFee), market.targetGas, market.minBaseFee,
                                               Min(SumGas(txs), U64_MAX))
                              else old(market.baseFee)
    ensures var fees := if AllAuthentic(ledger.codec, txs) then BlockFees(old(market.baseFee), txs) else Fees(0, 0, 0);
            && market.totalBurned == SaturatingAdd(old(market.totalBurned), fees.burned)
            && market.totalPriorityFees == SaturatingAdd(old(market.totalPriorityFees), fees.reward)
            && market.totalTreasuryFees == SaturatingAdd(old(market.totalTreasuryFees), fees.treasury)
            && market.maxGas == old(market.maxGas)
  {
    ghost var c, s, l := ledger.codec, ledger.store, ledger.leaves;
    var receipts, overlay := ledger.ApplyBlockSpeculatively(txs, chain);
    if receipts.None? {
      return false;
    }
    ghost var base := market.baseFee;
    var collected, gas := AddUp(txs);
    var fees, _ := market.ProcessBlock(gas, collected);
    ghost var spec := SpeculateAll(c, Base(s.accounts, s.utxos, l), chain, txs);
    SpeculationRefines(c, Base(s.accounts, s.utxos, l), chain, txs);
    ok := ledger.CommitBlock(overlay, spec.leaves, proposer, fees);
    if ok {
      CommitConserves(c, s, l, chain, txs, proposer, base, gas, collected);
    }
  }
}
