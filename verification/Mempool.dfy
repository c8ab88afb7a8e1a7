/** The mempool: one set of transactions held in a heap, two indexes and per-sender queues. */
module MempoolEngine {
  import opened Types
  import opened LedgerModel
  import opened MempoolModel

  class Mempool {
    const rules: Rules
    const chainId: u64
    var pending: seq<Entry>
    var byHash: map<H256, Transaction>
    var bySender: map<Address, set<H256>>
    var nextNonce: map<Address, u64>
    var queued: map<Address, Queue>
    var time: u64
    var slot: u64

    /** The indexes agree, hold one transaction per sender and nonce, and the queues are filed. */
    ghost predicate Valid()
      reads this
    {
      HashBinds(rules) && Indexed(rules, byHash, bySender) && Filed(queued)
    }

    ghost function CurrentLanes(): Lanes
      reads this
    {
      Lanes(pending, queued, nextNonce)
    }

    constructor (r: Rules, chain: u64)
      requires HashBinds(r)
      ensures Valid() && rules == r && chainId == chain
      ensures byHash == map[] && pending == [] && queued == map[] && nextNonce == map[] && slot == 0
    {
      rules, chainId := r, chain;
      pending, byHash, bySender, nextNonce, queued, time, slot := [], map[], map[], map[], map[], 0, 0;
      new;
      forall a, h ensures AgreeOn(byHash, bySender, a, h) {
      }
    }

    // -------------------------------------------------------------- promotion

    method AddToPending(tx: Transaction)
      modifies this`pending, this`nextNonce, this`time
      ensures CurrentLanes() == Pushed(old(CurrentLanes()), EntryFor(rules, tx, old(time), slot))
      ensures forall a :: OfSender(pending, a)
                          == if a == tx.sender then OfSender(old(pending), a) + [tx] else OfSender(old(pending), a)
    {
      var entry := EntryFor(rules, tx, time, slot);
      nextNonce := Advanced(nextNonce, tx);
      forall a ensures OfSender(pending + [entry], a) == if a == tx.sender then OfSender(pending, a) + [tx]
          else OfSender(pending, a) {
        OfSenderSnoc(pending, entry, a);
      }
      pending := pending + [entry];
      time := SaturatingAdd64(time, 1);
    }

    /** Take one waiting transaction out; an emptied queue disappears. */
    method TakeWaiting(a: Address, n: u64) returns (w: Waiting)
      requires n in QueueOf(queued, a) && Filed(queued)
      modifies this`queued
      ensures w == QueueOf(old(queued), a)[n] && Filed(queued)
      ensures QueueOf(queued, a) == QueueOf(old(queued), a) - {n}
      ensures forall b :: b != a ==> QueueOf(queued, b) == QueueOf(old(queued), b)
      ensures queued.Keys <= old(queued).Keys
    {
      w := queued[a][n];
      var rest := queued[a] - {n};
      queued := if rest == map[] then queued - {a} else queued[a := rest];
    }

    /** Make the sender's next waiting transaction ready. */
    method PromoteOne(a: Address)
      requires Filed(queued) && Expected(nextNonce, a) in QueueOf(queued, a)
      modifies this`pending, this`nextNonce, this`queued, this`time
      ensures Filed(queued) && PromotedOne(old(CurrentLanes()), CurrentLanes(), a)
      ensures forall b :: b != a ==> Untouched(old(CurrentLanes()), CurrentLanes(), b)
    {
      var w := TakeWaiting(a, Expected(nextNonce, a));
      AddToPending(w.tx);
    }

    method PromoteSender(a: Address)
      requires Filed(queued)
      modifies this`pending, this`nextNonce, this`queued, this`time
      ensures Filed(queued) && Promoted(old(CurrentLanes()), CurrentLanes(), a)
      ensures forall b :: b != a ==> Untouched(old(CurrentLanes()), CurrentLanes(), b)
    {
      ghost var before := CurrentLanes();
      ghost var cur: nat := Expected(nextNonce, a);
      PromotionStarts(before, a);
      while Expected(nextNonce, a) in QueueOf(queued, a)
        invariant Filed(queued) && PromotedTo(before, CurrentLanes(), a, cur)
        invariant forall b :: b != a ==> Untouched(before, CurrentLanes(), b)
        decreases |QueueOf(queued, a)|
      {
        ghost var middle := CurrentLanes();
        PromoteOne(a);
        PromotionContinues(before, middle, CurrentLanes(), a, cur);
        forall b | b != a ensures Untouched(before, CurrentLanes(), b) {
          assert Untouched(before, middle, b) && Untouched(middle, CurrentLanes(), b);
        }
        cur := cur + 1;
      }
      PromotionEnds(before, CurrentLanes(), a, cur);
    }

    /** Promotion ends and does, for every sender, exactly what `Promoted` says. */
    method PromoteQueued()
      requires Filed(queued)
      modifies this`pending, this`nextNonce, this`queued, this`time
      ensures Filed(queued) && AllPromoted(old(CurrentLanes()), CurrentLanes())
    {
      ghost var before := CurrentLanes();
      var rest := queued.Keys;
      forall a | a !in rest ensures Promoted(before, before, a) {
        NothingToPromote(before, before, a);
      }
      while rest != {}
        invariant Filed(queued)
        invariant forall a :: a in rest ==> Untouched(before, CurrentLanes(), a)
        invariant forall a :: a !in rest ==> Promoted(before, CurrentLanes(), a)
        decreases |rest|
      {
        var a :| a in rest;
        ghost var middle := CurrentLanes();
        PromoteSender(a);
        ghost var after := CurrentLanes();
        forall b | b in rest && b != a ensures Untouched(before, after, b) {
          assert Untouched(before, middle, b) && Untouched(middle, after, b);
        }
        forall b | b !in rest - {a} ensures Promoted(before, after, b) {
          assert b == a ==> Untouched(before, middle, b) && Promoted(middle, after, b);
          assert b != a ==> Promoted(before, middle, b) && Untouched(middle, after, b);
        }
        rest := rest - {a};
      }
    }

    // -------------------------------------------------------------- forgetting

    method RemoveTransactions(hashes: seq<H256>)
      requires Valid()
      modifies this`byHash, this`bySender, this`pending
      ensures Valid() && byHash == old(byHash) - Elements(hashes)
      ensures pending == Live(rules, byHash, old(pending))
    {
      for i := 0 to |hashes|
        invariant Indexed(rules, byHash, bySender) && byHash == old(byHash) - Elements(hashes[..i])
        invariant pending == old(pending)
      {
        ElementsSnoc(hashes, i);
        Forget(hashes[i]);
      }
      assert hashes[..|hashes|] == hashes;
      RebuildHeap();
    }

    method Forget(h: H256)
      requires Indexed(rules, byHash, bySender)
      modifies this`byHash, this`bySender
      ensures Indexed(rules, byHash, bySender) && byHash == old(byHash) - {h}
    {
      if h in byHash {
        var a := byHash[h].sender;
        ForgetKeeps(rules, byHash, bySender, h, a);
        byHash := byHash - {h};
        if a in bySender {
          bySender := bySender[a := bySender[a] - {h}];
        }
      }
    }

    /** Forget a hash under a given sender, dropping the sender's set when `tidy` and it is empty. */
    method ForgetOf(h: H256, a: Address, tidy: bool)
      requires Indexed(rules, byHash, bySender) && (h in byHash ==> byHash[h].sender == a)
      modifies this`byHash, this`bySender
      ensures Indexed(rules, byHash, bySender) && byHash == old(byHash) - {h}
    {
      ForgetKeeps(rules, byHash, bySender, h, a);
      byHash := byHash - {h};
      if a in bySender {
        var rest := bySender[a] - {h};
        bySender := if tidy && rest == {} then bySender - {a} else bySender[a := rest];
      }
    }

    method RebuildHeap()
      modifies this`pending
      ensures pending == Live(rules, byHash, old(pending))
    {
      var heap := [];
      for i := 0 to |pending|
        invariant pending == old(pending) && heap == Live(rules, byHash, pending[..i])
      {
        assert pending[..i + 1][..i] == pending[..i];
        if rules.hash(pending[i].tx) in byHash {
          heap := heap + [pending[i]];
        }
      }
      assert pending[..|pending|] == pending;
      pending := heap;
    }

    // -------------------------------------------------------------- replacement

    method FindConflict(tx: Transaction) returns (found: Option<H256>)
      requires Valid()
      ensures Conflicts(byHash, tx) == if found.None? then {} else {found.value}
    {
      var rest := HashesOf(bySender, tx.sender);
      while rest != {}
        invariant rest <= HashesOf(bySender, tx.sender)
        invariant forall h :: h in HashesOf(bySender, tx.sender) - rest ==> h !in Conflicts(byHash, tx)
        decreases |rest|
      {
        var h :| h in rest;
        assert AgreeOn(byHash, bySender, tx.sender, h);
        if byHash[h].nonce == tx.nonce {
          return Some(h);
        }
        rest := rest - {h};
      }
      forall h ensures h !in Conflicts(byHash, tx) {
        assert AgreeOn(byHash, bySender, tx.sender, h);
      }
      return None;
    }

    /** A transaction with a taken nonce replaces the other one if it pays enough more; if that one was ready,
        the expected nonce goes back to it. */
    method ReplaceByFee(tx: Transaction) returns (ok: bool)
      requires Valid()
      modifies this`byHash, this`bySender, this`nextNonce
      ensures Valid() && (ok <==> OutBidsAll(old(byHash), tx))
      ensures ok ==> byHash == old(byHash) - Conflicts(old(byHash), tx) && Conflicts(byHash, tx) == {}
      ensures ok ==> nextNonce == RolledBack(old(byHash), old(nextNonce), tx)
      ensures !ok ==> byHash == old(byHash) && bySender == old(bySender) && nextNonce == old(nextNonce)
    {
      var found := FindConflict(tx);
      if found.None? {
        assert byHash - {} == byHash;
        return true;
      }
      var h := found.value;
      assert h in Conflicts(byHash, tx);
      var other := byHash[h];
      if tx.fee <= SaturatingAdd(other.fee, other.fee / 10) {
        return false;
      }
      ForgetOf(h, tx.sender, false);
      if other.nonce < Expected(nextNonce, tx.sender) {
        nextNonce := nextNonce[tx.sender := other.nonce];
      }
      return true;
    }

    // -------------------------------------------------------------- eviction

    /** Scan all queues for a lowest fee. */
    method FindCheapestWaiting() returns (found: Option<(Address, u64)>)
      ensures found.None? <==> NothingWaits(queued)
      ensures found.Some? ==> CheapestWaiting(queued, found.value.0, found.value.1)
    {
      found := None;
      var rest := queued.Keys;
      while rest != {}
        invariant rest <= queued.Keys
        invariant found.None? ==> forall b :: b !in rest ==> QueueOf(queued, b) == map[]
        invariant found.Some? ==> found.value.1 in QueueOf(queued, found.value.0)
        invariant found.Some? ==> CheapestOutside(queued, rest, found.value.0, found.value.1)
        decreases |rest|
      {
        var a :| a in rest;
        found := CheaperIn(a, found, rest);
        rest := rest - {a};
      }
    }

    method CheaperIn(a: Address, start: Option<(Address, u64)>, ghost rest: set<Address>)
      returns (found: Option<(Address, u64)>)
      requires a in rest
      requires start.None? ==> forall b :: b !in rest ==> QueueOf(queued, b) == map[]
      requires start.Some? ==> CheapestOutside(queued, rest, start.value.0, start.value.1)
      ensures found.None? ==> forall b :: b !in rest - {a} ==> QueueOf(queued, b) == map[]
      ensures found.Some? ==> CheapestOutside(queued, rest - {a}, found.value.0, found.value.1)
    {
      found := start;
      var q := QueueOf(queued, a);
      var nonces := q.Keys;
      while nonces != {}
        invariant nonces <= q.Keys
        invariant found.None? ==> start.None? && nonces == q.Keys
        invariant found.Some? ==> CheapestOutside(queued, rest, found.value.0, found.value.1)
        invariant found.Some? ==> forall m :: m in q && m !in nonces ==>
                    QueueOf(queued, found.value.0)[found.value.1].tx.fee <= q[m].tx.fee
        decreases |nonces|
      {
        var n :| n in nonces;
        if found.None? || q[n].tx.fee < QueueOf(queued, found.value.0)[found.value.1].tx.fee {
          found := Some((a, n));
        }
        nonces := nonces - {n};
      }
    }

    method FindLowestReady() returns (i: nat)
      requires pending != []
      ensures LowestReady(pending, i)
    {
      i := 0;
      for k := 1 to |pending|
        invariant i < |pending| && forall j :: 0 <= j < k ==> !Lower(pending[j], pending[i])
      {
        if Lower(pending[k], pending[i]) {
          i := k;
        }
      }
    }

    /** Evict the cheapest waiting transaction, or if none waits, a ready one of lowest priority. */
    method EvictLowestFee() returns (ghost victim: Option<Transaction>)
      requires Valid()
      modifies this`byHash, this`bySender, this`queued, this`pending
      ensures Valid() && byHash == old(byHash) - VictimHash(rules, victim)
      ensures victim.None? <==> old(NothingWaits(queued) && pending == [])
      ensures victim.None? ==> CurrentLanes() == old(CurrentLanes())
      ensures victim.Some? ==> if old(NothingWaits(queued))
              then EvictedReady(old(CurrentLanes()), CurrentLanes(), victim.value)
                               else EvictedWaiting(old(CurrentLanes()), CurrentLanes(), victim.value)
    {
      victim := None;
      var cheapest := FindCheapestWaiting();
      if cheapest.Some? {
        var (a, n) := cheapest.value;
        var w := TakeWaiting(a, n);
        victim := Some(w.tx);
        ForgetOf(rules.hash(w.tx), a, false);
      } else if pending != [] {
        var i := FindLowestReady();
        var lowest := pending[i].tx;
        victim := Some(lowest);
        ForgetOf(rules.hash(lowest), lowest.sender, false);
        pending := pending[..i] + pending[i + 1..];
      }
    }

    // -------------------------------------------------------------- admission

    /** Index a transaction whose nonce is free. */
    method Track(tx: Transaction)
      requires Valid() && Conflicts(byHash, tx) == {}
      modifies this`byHash, this`bySender
      ensures Valid() && byHash == old(byHash)[rules.hash(tx) := tx] && rules.hash(tx) !in old(byHash)
    {
      forall h | h in byHash && byHash[h].sender == tx.sender ensures byHash[h].nonce != tx.nonce {
        assert h !in Conflicts(byHash, tx);
      }
      TrackKeeps(rules, byHash, bySender, tx);
      byHash := byHash[rules.hash(tx) := tx];
      bySender := bySender[tx.sender := HashesOf(bySender, tx.sender) + {rules.hash(tx)}];
    }

    /** File an indexed transaction by its nonce: ready, with the waiting run behind it, or waiting. */
    method Enqueue(tx: Transaction) returns (ok: bool)
      requires Filed(queued) && tx.nonce >= Expected(nextNonce, tx.sender)
      modifies this`pending, this`nextNonce, this`queued, this`time
      ensures Filed(queued)
      ensures ok <==> Routable(tx, Expected(old(nextNonce), tx.sender), |QueueOf(old(queued), tx.sender)|)
      ensures if ok then Routed(old(CurrentLanes()), CurrentLanes(), EntryFor(rules, tx, old(time), slot))
              else CurrentLanes() == old(CurrentLanes()) && time == old(time)
    {
      var expected := Expected(nextNonce, tx.sender);
      if tx.nonce == expected {
        AddToPending(tx);
        PromoteQueued();
        return true;
      }
      ok := tx.nonce - expected <= MAX_NONCE_GAP && |QueueOf(queued, tx.sender)| < MAX_QUEUED_PER_SENDER;
      if ok {
        queued := queued[tx.sender := QueueOf(queued, tx.sender)[tx.nonce := Waiting(tx, slot)]];
      }
    }

    /** Index and file a transaction, or refuse it and leave everything as it was. */
    method Route(tx: Transaction) returns (ok: bool)
      requires Valid() && Conflicts(byHash, tx) == {}
      modifies this`pending, this`byHash, this`bySender, this`nextNonce, this`queued, this`time
      ensures Valid()
      ensures ok <==> Routable(tx, Expected(old(nextNonce), tx.sender), |QueueOf(old(queued), tx.sender)|)
      ensures byHash == if ok then old(byHash)[rules.hash(tx) := tx] else old(byHash)
      ensures if ok then Routed(old(CurrentLanes()), CurrentLanes(), EntryFor(rules, tx, old(time), slot))
              else CurrentLanes() == old(CurrentLanes()) && time == old(time)
    {
      if tx.nonce < Expected(nextNonce, tx.sender) {
        return false;
      }
      Track(tx);
      ok := Enqueue(tx);
      if !ok {
        ForgetOf(rules.hash(tx), tx.sender, true);
        assert byHash == old(byHash);
      }
    }

    /** The checks that come before anything changes; `limited` is the rate limiter's answer. */
    predicate Acceptable(tx: Transaction)
      reads this
    {
      && (chainId == 0 || tx.chainId == chainId)
      && rules.admissible(tx)
      && tx.fee >= MIN_FEE
    }

    predicate Admits(tx: Transaction, limited: bool)
      reads this
    {
      Acceptable(tx) && !limited && rules.hash(tx) !in byHash
    }

    /** Evict if the pool is full. */
    method MakeRoom() returns (ghost victim: Option<Transaction>)
      requires Valid()
      modifies this`byHash, this`bySender, this`queued, this`pending
      ensures Valid() && byHash == old(byHash) - VictimHash(rules, victim)
      ensures Roomed(old(byHash), old(CurrentLanes()), CurrentLanes(), victim)
    {
      victim := None;
      if |byHash| >= MAX_MEMPOOL_SIZE {
        victim := EvictLowestFee();
      }
    }

    /** Make room and route. */
    method Insert(tx: Transaction, ghost was: map<H256, Transaction>, ghost lanes: Lanes)
      returns (ok: bool, ghost victim: Option<Transaction>, ghost middle: Lanes)
      requires Valid() && Conflicts(byHash, tx) == {} && byHash == was && CurrentLanes() == lanes
      modifies this`pending, this`byHash, this`bySender, this`nextNonce, this`queued, this`time
      ensures Valid()
      ensures Inserted(rules, was, lanes, middle, byHash, CurrentLanes(), EntryFor(rules, tx, old(time), slot), ok,
                       victim)
    {
      victim := MakeRoom();
      assert Conflicts(byHash, tx) == {} by {
        assert Conflicts(byHash, tx) <= Conflicts(was, tx);
      }
      middle := CurrentLanes();
      ok := Route(tx);
    }

    /** Add a transaction. What is not admitted, or does not outbid the one it would replace, changes nothing.
        Otherwise the replaced one is forgotten, and one more is evicted if the pool is still full, even if the
        newcomer is then refused for its nonce. */
    method AddTransaction(tx: Transaction, limited: bool)
      returns (ok: bool, ghost victim: Option<Transaction>, ghost middle: Lanes)
      requires Valid()
      modifies this`pending, this`byHash, this`bySender, this`nextNonce, this`queued, this`time
      ensures Valid()
      ensures !old(Admits(tx, limited) && OutBidsAll(byHash, tx)) ==>
                !ok && byHash == old(byHash) && bySender == old(bySender) && CurrentLanes() == old(CurrentLanes())
                    && time == old(time)
      ensures old(Admits(tx, limited) && OutBidsAll(byHash, tx)) ==>
                Inserted(rules, old(byHash) - Conflicts(old(byHash), tx),
                         Lanes(old(pending), old(queued), RolledBack(old(byHash), old(nextNonce), tx)), middle,
                         byHash, CurrentLanes(), EntryFor(rules, tx, old(time), slot), ok, victim)
    {
      if !Admits(tx, limited) {
        return false, None, CurrentLanes();
      }
      ok := ReplaceByFee(tx);
      if !ok {
        return false, None, CurrentLanes();
      }
      ok, victim, middle := Insert(tx, old(byHash) - Conflicts(old(byHash), tx),
                                   Lanes(old(pending), old(queued), RolledBack(old(byHash), old(nextNonce), tx)));
    }

    // -------------------------------------------------------------- expiry

    method CollectStaleReady() returns (hashes: seq<H256>)
      ensures Elements(hashes) == StaleReady(rules, pending, slot)
    {
      hashes := [];
      for i := 0 to |pending|
        invariant Elements(hashes) == StaleReady(rules, pending[..i], slot)
      {
        StaleReadySnoc(rules, pending, slot, i);
        if SaturatingSub(slot, pending[i].submittedSlot) > MAX_TX_AGE_SLOTS {
          ElementsPush(hashes, rules.hash(pending[i].tx));
          hashes := hashes + [rules.hash(pending[i].tx)];
        }
      }
      assert pending[..|pending|] == pending;
    }

    /** Take the stale transactions out of one queue. */
    method ExpireQueue(a: Address) returns (hashes: seq<H256>)
      requires Filed(queued)
      modifies this`queued
      ensures Filed(queued) && QueueOf(queued, a) == FreshOf(QueueOf(old(queued), a), slot)
      ensures forall b :: b != a ==> QueueOf(queued, b) == QueueOf(old(queued), b)
      ensures Elements(hashes) == StaleIn(rules, QueueOf(old(queued), a), slot)
    {
      hashes := [];
      ghost var q := QueueOf(queued, a);
      var stale := set n | n in QueueOf(queued, a)
          && SaturatingSub(slot, QueueOf(queued, a)[n].slot) > MAX_TX_AGE_SLOTS;
      ghost var all := stale;
      while stale != {}
        invariant stale <= all && Filed(queued) && QueueOf(queued, a) == q - (all - stale)
        invariant forall b :: b != a ==> QueueOf(queued, b) == QueueOf(old(queued), b)
        invariant Elements(hashes) == HashesAt(rules, q, all - stale)
        decreases |stale|
      {
        var n :| n in stale;
        var w := TakeWaiting(a, n);
        ElementsPush(hashes, rules.hash(w.tx));
        HashesAtGrows(rules, q, all - stale, n);
        assert all - (stale - {n}) == (all - stale) + {n};
        hashes := hashes + [rules.hash(w.tx)];
        stale := stale - {n};
      }
      assert q - all == FreshOf(q, slot);
    }

    method ExpireQueues() returns (hashes: seq<H256>)
      requires Filed(queued)
      modifies this`queued
      ensures Filed(queued) && forall a :: QueueOf(queued, a) == FreshOf(QueueOf(old(queued), a), slot)
      ensures Elements(hashes) == StaleWaiting(rules, old(queued), old(queued).Keys, slot)
    {
      hashes := [];
      var rest := queued.Keys;
      ghost var all := rest;
      while rest != {}
        invariant rest <= all && Filed(queued)
        invariant forall a :: a in rest ==> QueueOf(queued, a) == QueueOf(old(queued), a)
        invariant forall a :: a !in rest ==> QueueOf(queued, a) == FreshOf(QueueOf(old(queued), a), slot)
        invariant Elements(hashes) == StaleWaiting(rules, old(queued), all - rest, slot)
        decreases |rest|
      {
        var a :| a in rest;
        var more := ExpireQueue(a);
        StaleWaitingGrows(rules, old(queued), all - rest, a, slot);
        assert all - (rest - {a}) == (all - rest) + {a};
        ElementsJoin(hashes, more);
        hashes, rest := hashes + more, rest - {a};
      }
    }

    /** Everything older than the limit goes, from heap, queues and indexes, and nothing else leaves the indexes. */
    method ExpireOldTransactions()
      requires Valid()
      modifies this`pending, this`byHash, this`bySender, this`queued
      ensures Valid()
      ensures byHash == old(byHash) - (StaleReady(rules, old(pending), slot)
                                       + StaleWaiting(rules, old(queued), old(queued).Keys, slot))
      ensures forall a :: QueueOf(queued, a) == FreshOf(QueueOf(old(queued), a), slot)
      ensures forall e :: e in pending ==> e in old(pending) && !Stale(slot, e.submittedSlot)
      ensures forall e :: e in old(pending) && rules.hash(e.tx) in byHash ==> e in pending
    {
      var ready := CollectStaleReady();
      var waiting := ExpireQueues();
      ElementsJoin(ready, waiting);
      if ready + waiting != [] {
        RemoveTransactions(ready + waiting);
        forall e ensures e in pending <==> e in old(pending) && rules.hash(e.tx) in byHash {
          LiveIsIndexed(rules, byHash, old(pending), e);
        }
        NotStale(rules, old(byHash), old(pending), slot);
      } else {
        NoneStale(rules, pending, slot);
      }
    }

    method SetCurrentSlot(now: u64)
      requires Valid()
      modifies this`slot, this`pending, this`byHash, this`bySender, this`queued
      ensures Valid() && slot == now
      ensures byHash == old(byHash) - (StaleReady(rules, old(pending), now)
                                       + StaleWaiting(rules, old(queued), old(queued).Keys, now))
      ensures forall e :: e in pending ==> !Stale(now, e.submittedSlot)
      ensures forall a :: QueueOf(queued, a) == FreshOf(QueueOf(old(queued), a), now)
    {
      slot := now;
      ExpireOldTransactions();
    }

    // -------------------------------------------------------------- chain updates

    method SetSenderNonce(a: Address, nonce: u64)
      requires Valid()
      modifies this`nextNonce
      ensures Valid() && nextNonce == old(nextNonce)[a := nonce]
    {
      nextNonce := nextNonce[a := nonce];
    }

    method AdvanceSenderNonce(a: Address, least: u64)
      requires Valid()
      modifies this`nextNonce
      ensures Valid() && Expected(nextNonce, a) == Max(Expected(old(nextNonce), a), least)
      ensures forall b :: b != a ==> Expected(nextNonce, b) == Expected(old(nextNonce), b)
    {
      if least > Expected(nextNonce, a) {
        nextNonce := nextNonce[a := least];
      }
    }

    method CollectBelow(tips: map<Address, u64>) returns (hashes: seq<H256>)
      ensures Elements(hashes) == Below(byHash, tips, byHash.Keys)
    {
      hashes := [];
      var rest := byHash.Keys;
      while rest != {}
        invariant rest <= byHash.Keys
        invariant Elements(hashes) == Below(byHash, tips, byHash.Keys - rest)
        decreases |rest|
      {
        var h :| h in rest;
        BelowGrows(byHash, tips, rest, h);
        if byHash[h].nonce < Expected(tips, byHash[h].sender) {
          ElementsPush(hashes, h);
          hashes := hashes + [h];
        }
        rest := rest - {h};
      }
    }

    /** Put a reverted transaction back, if it can be; nothing falls below the tip. If it and the ones after it can
        return, it does, and they still can. */
    method ReAdd(tx: Transaction, limited: bool, ghost tips: map<Address, u64>, ghost rest: seq<Transaction>)
      requires Valid() && AboveFloor(byHash, nextNonce, tips)
      modifies this`pending, this`byHash, this`bySender, this`nextNonce, this`queued, this`time
      ensures Valid() && AboveFloor(byHash, nextNonce, tips) && NothingElse(byHash, old(byHash), [tx])
      ensures !limited && Acceptable(tx) && CanReturn(old(byHash), old(queued), old(nextNonce), [tx] + rest) ==>
                && rules.hash(tx) !in old(byHash) && byHash == old(byHash)[rules.hash(tx) := tx]
                && CanReturn(byHash, queued, nextNonce, rest)
    {
      ghost var e, before, was := EntryFor(rules, tx, time, slot), CurrentLanes(), byHash;
      ghost var inserts := Admits(tx, limited) && OutBidsAll(byHash, tx);
      ghost var back := !limited && Acceptable(tx) && CanReturn(was, queued, nextNonce, [tx] + rest);
      if back {
        FreeIsNew(rules, was, queued, nextNonce, tx, rest);
      }
      var ok, victim, middle := AddTransaction(tx, limited);
      if inserts {
        AddedAboveFloor(rules, was, before, middle, byHash, CurrentLanes(), e, ok, victim, tips);
        if back {
          AddedReturns(rules, was, before, middle, byHash, CurrentLanes(), e, ok, victim, rest);
        }
      }
    }

    method ReAddAll(reverted: seq<Transaction>, limited: seq<bool>, ghost tips: map<Address, u64>)
      requires Valid() && |limited| == |reverted| && AboveFloor(byHash, nextNonce, tips)
      modifies this`pending, this`byHash, this`bySender, this`nextNonce, this`queued, this`time
      ensures Valid() && AboveFloor(byHash, nextNonce, tips) && NothingElse(byHash, old(byHash), reverted)
      ensures AllAcceptable(reverted, limited) && CanReturn(old(byHash), old(queued), old(nextNonce), reverted) ==>
                Holds(rules, byHash, old(byHash), reverted)
    {
      ghost var kept := byHash;
      ghost var all := AllAcceptable(reverted, limited) && CanReturn(byHash, queued, nextNonce, reverted);
      assert reverted[0..] == reverted;
      for i := 0 to |reverted|
        invariant Valid() && AboveFloor(byHash, nextNonce, tips) && NothingElse(byHash, kept, reverted)
        invariant all ==> CanReturn(byHash, queued, nextNonce, reverted[i..])
        invariant all ==> Holds(rules, byHash, kept, reverted[..i])
      {
        assert reverted[i..] == [reverted[i]] + reverted[i + 1..];
        ghost var before := byHash;
        ReAdd(reverted[i], limited[i], tips, reverted[i + 1..]);
        if all {
          HoldsOneMore(rules, before, kept, reverted, i);
        }
      }
      assert reverted[..|reverted|] == reverted;
    }

    predicate AllAcceptable(txs: seq<Transaction>, limited: seq<bool>)
      reads this
    {
      |limited| == |txs| && forall i :: 0 <= i < |txs| ==> Acceptable(txs[i]) && !limited[i]
    }

    /** The expected nonces move to the new tip, and exactly what is below it is forgotten. */
    method MoveToTip(tips: map<Address, u64>)
      requires Valid()
      modifies this`pending, this`byHash, this`bySender, this`nextNonce
      ensures Valid() && nextNonce == old(nextNonce) + tips && AboveFloor(byHash, nextNonce, tips)
      ensures byHash == old(byHash) - Below(old(byHash), tips, old(byHash).Keys)
    {
      nextNonce := nextNonce + tips;
      var below := CollectBelow(tips);
      RemoveTransactions(below);
    }

    /** After a reorg no indexed transaction and no expected nonce is below the new tip, and whatever is indexed
        was indexed before or was reverted. If the reverted transactions are acceptable and can return, the index
        afterwards holds all of them and everything that was not below the tip. */
    method Reorg(reverted: seq<Transaction>, tips: map<Address, u64>, limited: seq<bool>)
      requires Valid() && |limited| == |reverted|
      modifies this`pending, this`byHash, this`bySender, this`nextNonce, this`queued, this`time
      ensures Valid() && AboveFloor(byHash, nextNonce, tips) && NothingElse(byHash, old(byHash), reverted)
      ensures var kept := old(byHash) - Below(old(byHash), tips, old(byHash).Keys);
              AllAcceptable(reverted, limited) && CanReturn(kept, old(queued), old(nextNonce) + tips, reverted) ==>
                Holds(rules, byHash, kept, reverted)
    {
      MoveToTip(tips);
      ReAddAll(reverted, limited, tips);
    }
  }

  // ---------------------------------------------------------------- a replacement that loses both

  /** The next of a sender's waiting transactions goes to its queue. */
  method FileNext(pool: Mempool, cheap: u64 -> Transaction, n: u64)
    requires pool.Valid() && pool.chainId == 0 && FillsQueue(pool.rules, cheap)
    requires 1 <= n <= MAX_QUEUED_PER_SENDER && Filling(pool.rules, pool.byHash, pool.CurrentLanes(), cheap, n)
    modifies pool`pending, pool`byHash, pool`bySender, pool`nextNonce, pool`queued, pool`time
    ensures pool.Valid() && Filling(pool.rules, pool.byHash, pool.CurrentLanes(), cheap, n + 1)
  {
    ghost var byHash, lanes, e := pool.byHash, pool.CurrentLanes(),
        EntryFor(pool.rules, cheap(n), pool.time, pool.slot);
    NextIsNew(pool.rules, byHash, lanes, cheap, n);
    var ok, victim, middle := pool.AddTransaction(cheap(n), false);
    FillingGrows(pool.rules, byHash, lanes, middle, pool.byHash, pool.CurrentLanes(), e, ok, victim, cheap, n);
  }

  method FillQueue(r: Rules, cheap: u64 -> Transaction) returns (pool: Mempool)
    requires HashBinds(r) && FillsQueue(r, cheap)
    ensures fresh(pool) && pool.Valid() && pool.rules == r && pool.chainId == 0
    ensures Filling(r, pool.byHash, pool.CurrentLanes(), cheap, MAX_QUEUED_PER_SENDER + 1)
  {
    pool := new Mempool(r, 0);
    for n := 1 to MAX_QUEUED_PER_SENDER + 1
      invariant fresh(pool) && pool.Valid() && pool.rules == r && pool.chainId == 0
      invariant Filling(r, pool.byHash, pool.CurrentLanes(), cheap, n)
    {
      FileNext(pool, cheap, n);
    }
  }

  /** Sixty-four waiting transactions of one sender fill its queue. A better paying replacement of the first is
      refused because the queue is full, and the first is forgotten all the same. */
  method FullQueueLosesBoth(r: Rules, cheap: u64 -> Transaction, dear: Transaction) returns (pool: Mempool, ok: bool)
    requires HashBinds(r) && FillsQueue(r, cheap)
    requires dear.sender == cheap(1).sender && dear.nonce == 1 && r.admissible(dear) && OutBids(dear, cheap(1))
    requires r.hash(dear) != r.hash(cheap(1))
    ensures fresh(pool) && pool.Valid() && !ok
    ensures Conflicts(pool.byHash, dear) == {} && |QueueOf(pool.queued, dear.sender)| == MAX_QUEUED_PER_SENDER
  {
    pool := FillQueue(r, cheap);
    ghost var byHash, lanes, e := pool.byHash, pool.CurrentLanes(), EntryFor(r, dear, pool.time, pool.slot);
    DearConflicts(r, byHash, lanes, cheap, dear);
    var accepted, victim, middle := pool.AddTransaction(dear, false);
    FullQueueRefuses(r, byHash, lanes, middle, pool.byHash, pool.CurrentLanes(), e, accepted, victim, cheap);
    ok := accepted;
  }
}
