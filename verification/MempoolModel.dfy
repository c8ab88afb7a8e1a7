/** The mempool's indexes as values: what it means for them to agree, and which queued transactions are ready. */
module MempoolModel {
  import opened Types
  import opened LedgerModel

  /** A ready transaction in the priority heap. */
  datatype Entry = Entry(tx: Transaction, feeRate: u128, timestamp: u64, submittedSlot: u64)

  /** A transaction waiting for the nonces before it. */
  datatype Waiting = Waiting(tx: Transaction, slot: u64)

  type Queue = map<u64, Waiting>

  /** Hashing, admission (signature and fee schedule) and encoded size. */
  datatype Rules = Rules(hash: Transaction -> H256, admissible: Transaction -> bool, size: Transaction -> nat)

  /** Equal hashes mean equal sender and nonce. */
  ghost predicate HashBinds(r: Rules) {
    forall t, u :: r.hash(t) == r.hash(u) ==> t.sender == u.sender && t.nonce == u.nonce
  }

  // ---------------------------------------------------------------- lookups with defaults

  function QueueOf(queued: map<Address, Queue>, a: Address): Queue {
    if a in queued then queued[a] else map[]
  }

  function HashesOf(bySender: map<Address, set<H256>>, a: Address): set<H256> {
    if a in bySender then bySender[a] else {}
  }

  function Expected(nextNonce: map<Address, u64>, a: Address): u64 {
    if a in nextNonce then nextNonce[a] else 0
  }

  // ---------------------------------------------------------------- the two indexes

  ghost predicate AgreeOn(byHash: map<H256, Transaction>, bySender: map<Address, set<H256>>, a: Address, h: H256) {
    h in HashesOf(bySender, a) <==> h in byHash && byHash[h].sender == a
  }

  /** Both indexes describe the same transactions. */
  ghost predicate SameSet(byHash: map<H256, Transaction>, bySender: map<Address, set<H256>>) {
    forall a, h :: AgreeOn(byHash, bySender, a, h)
  }

  ghost predicate Keyed(r: Rules, byHash: map<H256, Transaction>) {
    forall h :: h in byHash ==> r.hash(byHash[h]) == h
  }

  /** No sender has two transactions with one nonce. */
  ghost predicate OnePerNonce(byHash: map<H256, Transaction>) {
    forall g, h :: g in byHash && h in byHash ==>
      (byHash[g].sender == byHash[h].sender && byHash[g].nonce == byHash[h].nonce ==> g == h)
  }

  ghost predicate Indexed(r: Rules, byHash: map<H256, Transaction>, bySender: map<Address, set<H256>>) {
    Keyed(r, byHash) && SameSet(byHash, bySender) && OnePerNonce(byHash)
  }

  /** Waiting transactions are filed under their own sender and nonce. */
  ghost predicate Filed(queued: map<Address, Queue>) {
    forall a, n :: a in queued && n in queued[a] ==> queued[a][n].tx.sender == a && queued[a][n].tx.nonce == n
  }

  /** Forgetting one hash in both indexes, under its sender. */
  lemma {:induction false} ForgetKeeps(r: Rules, byHash: map<H256, Transaction>, bySender: map<Address, set<H256>>,
                                       h: H256, a: Address)
    requires Indexed(r, byHash, bySender) && (h in byHash ==> byHash[h].sender == a)
    ensures Indexed(r, byHash - {h}, bySender[a := HashesOf(bySender, a) - {h}])
    ensures a !in bySender ==> Indexed(r, byHash - {h}, bySender)
    ensures HashesOf(bySender, a) - {h} == {} ==> Indexed(r, byHash - {h}, bySender - {a})
  {
    var shorter := bySender[a := HashesOf(bySender, a) - {h}];
    forall b, g ensures AgreeOn(byHash - {h}, shorter, b, g) {
      assert AgreeOn(byHash, bySender, b, g);
    }
    if a !in bySender {
      forall b, g ensures AgreeOn(byHash - {h}, bySender, b, g) {
        assert AgreeOn(byHash, bySender, b, g);
      }
    }
    if HashesOf(bySender, a) - {h} == {} {
      forall b, g ensures AgreeOn(byHash - {h}, bySender - {a}, b, g) {
        assert AgreeOn(byHash - {h}, shorter, b, g);
      }
    }
  }

  /** Tracking a transaction whose sender has no other with its nonce. */
  lemma {:induction false} TrackKeeps(r: Rules, byHash: map<H256, Transaction>, bySender: map<Address, set<H256>>,
                                      tx: Transaction)
    requires Indexed(r, byHash, bySender) && HashBinds(r)
    requires forall h :: h in byHash && byHash[h].sender == tx.sender ==> byHash[h].nonce != tx.nonce
    ensures r.hash(tx) !in byHash
    ensures Indexed(r, byHash[r.hash(tx) := tx], bySender[tx.sender := HashesOf(bySender, tx.sender) + {r.hash(tx)}])
  {
    var more, longer := byHash[r.hash(tx) := tx], bySender[tx.sender := HashesOf(bySender, tx.sender) + {r.hash(tx)}];
    forall b, g ensures AgreeOn(more, longer, b, g) {
      assert AgreeOn(byHash, bySender, b, g);
    }
  }

  function Elements(hashes: seq<H256>): set<H256> {
    set h | h in hashes
  }

  lemma {:induction false} ElementsSnoc(hashes: seq<H256>, i: nat)
    requires i < |hashes|
    ensures Elements(hashes[..i + 1]) == Elements(hashes[..i]) + {hashes[i]}
  {
    assert hashes[..i + 1] == hashes[..i] + [hashes[i]];
  }

  // ---------------------------------------------------------------- ready runs

  /** The first nonce from `n` on that is not waiting. */
  ghost function FirstGap(q: Queue, n: nat): (g: nat)
    ensures n <= g && g !in q && forall k :: n <= k < g ==> k in q
    decreases |q|
  {
    if n in q then
      var g := FirstGap(q - {n}, n + 1);
      assert forall k :: n < k < g ==> k in q by {
        forall k | n < k < g ensures k in q {
          assert k in q - {n};
        }
      }
      g
    else n
  }

  lemma {:induction false} GapIsUnique(q: Queue, n: nat, g: nat)
    requires n <= g && g !in q && forall k :: n <= k < g ==> k in q
    ensures FirstGap(q, n) == g
  {
    var f := FirstGap(q, n);
    assert f < g ==> f in q;
    assert g < f ==> g in q;
  }

  /** The queue without a stretch of nonces. */
  ghost function Without(q: Queue, lo: nat, hi: nat): Queue {
    map k | k in q && !(lo <= k < hi) :: q[k]
  }

  /** The waiting transactions of a stretch, in nonce order. */
  ghost function Stretch(q: Queue, lo: nat, hi: nat): seq<Transaction>
    requires lo <= hi && forall k :: lo <= k < hi ==> k in q
  {
    seq(hi - lo, i requires 0 <= i < hi - lo => q[lo + i].tx)
  }

  /** A sender's ready transactions, oldest push first. */
  ghost function OfSender(pending: seq<Entry>, a: Address): seq<Transaction> {
    if pending == [] then []
    else
      var n := |pending| - 1;
      if pending[n].tx.sender == a then OfSender(pending[..n], a) + [pending[n].tx] else OfSender(pending[..n], a)
  }

  lemma {:induction false} OfSenderSnoc(pending: seq<Entry>, e: Entry, a: Address)
    ensures OfSender(pending + [e], a) == if e.tx.sender == a then OfSender(pending, a) + [e.tx]
            else OfSender(pending, a)
  {
    assert (pending + [e])[..|pending|] == pending;
  }

  /** The part of the mempool that promotion moves things in. */
  datatype Lanes = Lanes(pending: seq<Entry>, queued: map<Address, Queue>, nextNonce: map<Address, u64>)

  /** What promotion does for one sender: the longest run of waiting transactions from the expected nonce on
      becomes ready in nonce order, nothing else moves, and the expected nonce is then the first gap. */
  ghost predicate Promoted(before: Lanes, after: Lanes, a: Address) {
    var q, lo := QueueOf(before.queued, a), Expected(before.nextNonce, a);
    var hi := FirstGap(q, lo);
    && QueueOf(after.queued, a) == Without(q, lo, hi)
    && Expected(after.nextNonce, a) == Min(hi, U64_MAX)
    && OfSender(after.pending, a) == OfSender(before.pending, a) + Stretch(q, lo, hi)
  }

  ghost predicate AllPromoted(before: Lanes, after: Lanes) {
    forall a :: Promoted(before, after, a)
  }

  ghost predicate Untouched(before: Lanes, after: Lanes, a: Address) {
    && QueueOf(after.queued, a) == QueueOf(before.queued, a)
    && Expected(after.nextNonce, a) == Expected(before.nextNonce, a)
    && OfSender(after.pending, a) == OfSender(before.pending, a)
  }

  /** One promotion. */
  ghost predicate PromotedOne(before: Lanes, after: Lanes, a: Address) {
    var q, n := QueueOf(before.queued, a), Expected(before.nextNonce, a);
    && n in q
    && QueueOf(after.queued, a) == q - {n}
    && Expected(after.nextNonce, a) == Min(n + 1, U64_MAX)
    && OfSender(after.pending, a) == OfSender(before.pending, a) + [q[n].tx]
  }

  /** Promotion that has got as far as `cur`. */
  ghost predicate PromotedTo(before: Lanes, after: Lanes, a: Address, cur: nat) {
    var q, lo := QueueOf(before.queued, a), Expected(before.nextNonce, a);
    && lo <= cur && (forall k :: lo <= k < cur ==> k in q)
    && QueueOf(after.queued, a) == Without(q, lo, cur)
    && Expected(after.nextNonce, a) == Min(cur, U64_MAX)
    && OfSender(after.pending, a) == OfSender(before.pending, a) + Stretch(q, lo, cur)
  }

  lemma {:induction false} PromotionStarts(before: Lanes, a: Address)
    ensures PromotedTo(before, before, a, Expected(before.nextNonce, a))
  {
    var q, lo := QueueOf(before.queued, a), Expected(before.nextNonce, a);
    assert Without(q, lo, lo) == q;
    assert OfSender(before.pending, a) + Stretch(q, lo, lo) == OfSender(before.pending, a);
  }

  lemma {:induction false} PromotionContinues(before: Lanes, middle: Lanes, after: Lanes, a: Address, cur: nat)
    requires PromotedTo(before, middle, a, cur) && PromotedOne(middle, after, a)
    ensures PromotedTo(before, after, a, cur + 1)
  {
    var q, lo := QueueOf(before.queued, a), Expected(before.nextNonce, a);
    assert Expected(middle.nextNonce, a) == cur;
    assert cur in q && !(cur < lo);
    WithoutGrows(q, lo, cur);
    StretchGrows(q, lo, cur);
  }

  lemma {:induction false} WithoutGrows(q: Queue, lo: nat, cur: nat)
    requires lo <= cur && cur in q
    ensures Without(q, lo, cur) - {cur} == Without(q, lo, cur + 1)
  {
  }

  lemma {:induction false} StretchGrows(q: Queue, lo: nat, cur: nat)
    requires lo <= cur && forall k :: lo <= k < cur + 1 ==> k in q
    ensures Stretch(q, lo, cur + 1) == Stretch(q, lo, cur) + [q[cur].tx]
  {
  }

  lemma {:induction false} PromotionEnds(before: Lanes, after: Lanes, a: Address, cur: nat)
    requires PromotedTo(before, after, a, cur) && Expected(after.nextNonce, a) !in QueueOf(after.queued, a)
    ensures Promoted(before, after, a)
  {
    GapIsUnique(QueueOf(before.queued, a), Expected(before.nextNonce, a), cur);
  }

  lemma {:induction false} NothingToPromote(before: Lanes, after: Lanes, a: Address)
    requires Untouched(before, after, a) && Expected(before.nextNonce, a) !in QueueOf(before.queued, a)
    ensures Promoted(before, after, a)
  {
    var q, lo := QueueOf(before.queued, a), Expected(before.nextNonce, a);
    assert Without(q, lo, lo) == q;
    assert OfSender(before.pending, a) + Stretch(q, lo, lo) == OfSender(before.pending, a);
  }

  /** Promotion leaves the sender nothing ready to promote. */
  lemma {:induction false} PromotionIsComplete(before: Lanes, after: Lanes, a: Address)
    requires Promoted(before, after, a)
    ensures Expected(after.nextNonce, a) !in QueueOf(after.queued, a)
  {
  }

  // ---------------------------------------------------------------- priority

  /** Lower fee rate first, then the younger. */
  predicate Lower(e: Entry, f: Entry) {
    e.feeRate < f.feeRate || (e.feeRate == f.feeRate && e.timestamp > f.timestamp)
  }

  /** The entries whose transaction is still indexed. */
  ghost function Live(r: Rules, byHash: map<H256, Transaction>, pending: seq<Entry>): seq<Entry> {
    if pending == [] then []
    else
      var n := |pending| - 1;
      if r.hash(pending[n].tx) in byHash then Live(r, byHash, pending[..n]) + [pending[n]]
          else Live(r, byHash, pending[..n])
  }

  lemma {:induction false} LiveIsIndexed(r: Rules, byHash: map<H256, Transaction>, pending: seq<Entry>, e: Entry)
    ensures e in Live(r, byHash, pending) <==> e in pending && r.hash(e.tx) in byHash
    decreases |pending|
  {
    if pending != [] {
      var n := |pending| - 1;
      LiveIsIndexed(r, byHash, pending[..n], e);
      assert pending == pending[..n] + [pending[n]];
    }
  }

  // ---------------------------------------------------------------- replacement and routing

  const MAX_MEMPOOL_SIZE: nat := 50_000
  const MIN_FEE: nat := 1000
  const MAX_QUEUED_PER_SENDER: nat := 64
  const MAX_NONCE_GAP: nat := 256
  const MAX_TX_AGE_SLOTS: nat := 1800

  /** The indexed transactions that `tx` would replace. */
  ghost function Conflicts(byHash: map<H256, Transaction>, tx: Transaction): set<H256> {
    set h | h in byHash && byHash[h].sender == tx.sender && byHash[h].nonce == tx.nonce
  }

  /** A replacement must pay more than a tenth above. */
  predicate OutBids(tx: Transaction, other: Transaction) {
    tx.fee > SaturatingAdd(other.fee, other.fee / 10)
  }

  ghost predicate OutBidsAll(byHash: map<H256, Transaction>, tx: Transaction) {
    forall h :: h in Conflicts(byHash, tx) ==> OutBids(tx, byHash[h])
  }

  /** The expected nonces after `tx` replaced something: rolled back to it if that was already ready. */
  ghost function RolledBack(byHash: map<H256, Transaction>, nextNonce: map<Address, u64>,
                            tx: Transaction): map<Address, u64> {
    if Conflicts(byHash, tx) != {} && tx.nonce < Expected(nextNonce, tx.sender) then nextNonce[tx.sender := tx.nonce]
        else nextNonce
  }

  /** Ready now, or near enough with room left to wait. */
  predicate Routable(tx: Transaction, expected: u64, waiting: nat) {
    || tx.nonce == expected
    || (expected < tx.nonce <= expected + MAX_NONCE_GAP && waiting < MAX_QUEUED_PER_SENDER)
  }

  function EntryFor(r: Rules, tx: Transaction, time: u64, slot: u64): Entry {
    var size := r.size(tx);
    Entry(tx, if size > 0 then tx.fee / size else tx.fee, time, slot)
  }

  /** The expected nonces after a transaction became ready. */
  function Advanced(nextNonce: map<Address, u64>, tx: Transaction): map<Address, u64> {
    var next := SaturatingAdd64(tx.nonce, 1);
    if next > Expected(nextNonce, tx.sender) then nextNonce[tx.sender := next] else nextNonce
  }

  ghost function Pushed(l: Lanes, e: Entry): Lanes {
    Lanes(l.pending + [e], l.queued, Advanced(l.nextNonce, e.tx))
  }

  /** A routed transaction is ready and pulls along the waiting run behind it, or waits itself. */
  ghost predicate Routed(before: Lanes, after: Lanes, e: Entry) {
    if e.tx.nonce == Expected(before.nextNonce, e.tx.sender) then AllPromoted(Pushed(before, e), after)
    else
      var longer := QueueOf(before.queued, e.tx.sender)[e.tx.nonce := Waiting(e.tx, e.submittedSlot)];
      after == before.(queued := before.queued[e.tx.sender := longer])
  }

  /** Routing never lowers an expected nonce. */
  lemma {:induction false} RoutingRaises(before: Lanes, after: Lanes, e: Entry, a: Address)
    requires Routed(before, after, e)
    ensures Expected(after.nextNonce, a) >= Expected(before.nextNonce, a)
  {
    if e.tx.nonce == Expected(before.nextNonce, e.tx.sender) {
      assert Promoted(Pushed(before, e), after, a);
    }
  }

  /** No indexed transaction and no expected nonce is below the given nonces. */
  ghost predicate AboveFloor(byHash: map<H256, Transaction>, nextNonce: map<Address, u64>, floor: map<Address, u64>) {
    && (forall h :: h in byHash ==> byHash[h].nonce >= Expected(floor, byHash[h].sender))
    && (forall a :: Expected(nextNonce, a) >= Expected(floor, a))
  }

  lemma {:induction false} RollbackKeepsFloor(byHash: map<H256, Transaction>, nextNonce: map<Address, u64>,
                                              floor: map<Address, u64>, tx: Transaction)
    requires AboveFloor(byHash, nextNonce, floor)
    ensures AboveFloor(byHash - Conflicts(byHash, tx), RolledBack(byHash, nextNonce, tx), floor)
  {
    if Conflicts(byHash, tx) != {} {
      var h :| h in Conflicts(byHash, tx);
      assert byHash[h].nonce >= Expected(floor, byHash[h].sender);
    }
  }

  lemma {:induction false} RoutedKeepsFloor(r: Rules, byHash: map<H256, Transaction>, before: Lanes, after: Lanes,
                                            e: Entry,
                                            floor: map<Address, u64>)
    requires AboveFloor(byHash, before.nextNonce, floor) && Routed(before, after, e)
    requires e.tx.nonce >= Expected(before.nextNonce, e.tx.sender)
    ensures AboveFloor(byHash[r.hash(e.tx) := e.tx], after.nextNonce, floor)
  {
    forall a ensures Expected(after.nextNonce, a) >= Expected(floor, a) {
      RoutingRaises(before, after, e, a);
    }
  }

  /** Nothing waits. */
  ghost predicate NothingWaits(queued: map<Address, Queue>) {
    forall a :: QueueOf(queued, a) == map[]
  }

  /** A waiting transaction with the lowest fee of all that wait. */
  ghost predicate CheapestWaiting(queued: map<Address, Queue>, a: Address, n: u64) {
    n in QueueOf(queued, a)
    && forall b, m :: m in QueueOf(queued, b) ==> QueueOf(queued, a)[n].tx.fee <= QueueOf(queued, b)[m].tx.fee
  }

  /** Cheapest of the queues of senders not in `rest`. */
  ghost predicate CheapestOutside(queued: map<Address, Queue>, rest: set<Address>, a: Address, n: u64) {
    n in QueueOf(queued, a)
    && forall b, m :: b !in rest && m in QueueOf(queued, b) ==>
         QueueOf(queued, a)[n].tx.fee <= QueueOf(queued, b)[m].tx.fee
  }

  /** An entry with no lower one in the heap. */
  ghost predicate LowestReady(pending: seq<Entry>, i: nat) {
    i < |pending| && forall j :: 0 <= j < |pending| ==> !Lower(pending[j], pending[i])
  }

  /** A cheapest waiting transaction is gone from its queue. */
  ghost predicate EvictedWaiting(before: Lanes, after: Lanes, victim: Transaction) {
    && after.pending == before.pending
    && exists a, n :: CheapestWaiting(before.queued, a, n) && victim == QueueOf(before.queued, a)[n].tx
                      && QueueOf(after.queued, a) == QueueOf(before.queued, a) - {n}
                      && forall b :: b != a ==> QueueOf(after.queued, b) == QueueOf(before.queued, b)
  }

  /** A lowest entry is gone from the heap. */
  ghost predicate EvictedReady(before: Lanes, after: Lanes, victim: Transaction) {
    && after.queued == before.queued
    && exists i: nat :: LowestReady(before.pending, i) && victim == before.pending[i].tx
                        && after.pending == before.pending[..i] + before.pending[i + 1..]
  }

  ghost function VictimHash(r: Rules, victim: Option<Transaction>): set<H256> {
    if victim.None? then {} else {r.hash(victim.value)}
  }

  /** Making room: a full pool loses its cheapest waiting transaction, or if none waits a lowest ready one. */
  ghost predicate Roomed(byHash: map<H256, Transaction>, before: Lanes, middle: Lanes, victim: Option<Transaction>) {
    && middle.nextNonce == before.nextNonce
    && (victim.None? <==> |byHash| < MAX_MEMPOOL_SIZE || (NothingWaits(before.queued) && before.pending == []))
    && (victim.None? ==> middle == before)
    && (victim.Some? && NothingWaits(before.queued) ==> EvictedReady(before, middle, victim.value))
    && (victim.Some? && !NothingWaits(before.queued) ==> EvictedWaiting(before, middle, victim.value))
  }

  /** An insertion: room is made, and the newcomer is then indexed and routed exactly if its nonce allows it. */
  ghost predicate Inserted(r: Rules, byHash: map<H256, Transaction>, before: Lanes, middle: Lanes,
                           byHash': map<H256, Transaction>, after: Lanes, e: Entry, ok: bool,
                               victim: Option<Transaction>) {
    var kept := byHash - VictimHash(r, victim);
    && Roomed(byHash, before, middle, victim)
    && byHash' == (if ok then kept[r.hash(e.tx) := e.tx] else kept)
    && (ok <==> Routable(e.tx, Expected(middle.nextNonce, e.tx.sender), |QueueOf(middle.queued, e.tx.sender)|))
    && (if ok then Routed(middle, after, e) else after == middle)
  }

  lemma {:induction false} InsertedKeepsFloor(r: Rules, byHash: map<H256, Transaction>, before: Lanes, middle: Lanes,
                                              byHash': map<H256, Transaction>, after: Lanes, e: Entry, ok: bool,
                                              victim: Option<Transaction>, floor: map<Address, u64>)
    requires AboveFloor(byHash, before.nextNonce, floor)
    requires Inserted(r, byHash, before, middle, byHash', after, e, ok, victim)
    ensures AboveFloor(byHash', after.nextNonce, floor)
    ensures forall h :: h in byHash' ==> (h in byHash && byHash'[h] == byHash[h]) || byHash'[h] == e.tx
  {
    if ok {
      RoutedKeepsFloor(r, byHash - VictimHash(r, victim), middle, after, e, floor);
    }
  }

  /** How many transactions of a sender wait once room is made. */
  ghost function WaitingAfter(before: Lanes, victim: Option<Transaction>, a: Address): int {
    |QueueOf(before.queued, a)|
    - if victim.Some? && !NothingWaits(before.queued) && victim.value.sender == a then 1 else 0
  }

  lemma {:induction false} RoomInQueue(byHash: map<H256, Transaction>, before: Lanes, middle: Lanes,
                                       victim: Option<Transaction>, a: Address)
    requires Filed(before.queued) && Roomed(byHash, before, middle, victim)
    ensures |QueueOf(middle.queued, a)| == WaitingAfter(before, victim, a)
  {
    if victim.Some? && !NothingWaits(before.queued) {
      var b, n :| CheapestWaiting(before.queued, b, n) && victim.value == QueueOf(before.queued, b)[n].tx
                  && QueueOf(middle.queued, b) == QueueOf(before.queued, b) - {n}
                  && forall d :: d != b ==> QueueOf(middle.queued, d) == QueueOf(before.queued, d);
      FiledUnder(before.queued, b, n);
      OneFewer(QueueOf(before.queued, b), n);
    }
  }

  lemma {:induction false} FiledUnder(queued: map<Address, Queue>, a: Address, n: u64)
    requires Filed(queued) && n in QueueOf(queued, a)
    ensures QueueOf(queued, a)[n].tx.sender == a
  {
  }

  lemma {:induction false} OneFewer(q: Queue, n: u64)
    requires n in q
    ensures |q - {n}| == |q| - 1
  {
    assert (q - {n}).Keys == q.Keys - {n};
  }

  /** A replacement that pays enough can still be refused for its nonce, after the transaction it replaces has
      been forgotten. The sender's nonce is held by some transaction afterwards exactly if the newcomer was ready
      or replaced a ready one, or is near enough and its queue, after any eviction, has room. */
  lemma {:induction false} ReplacementHeldIff(r: Rules, byHash: map<H256, Transaction>, before: Lanes, middle: Lanes,
                                              byHash': map<H256, Transaction>, after: Lanes, e: Entry, ok: bool,
                                              victim: Option<Transaction>)
    requires Conflicts(byHash, e.tx) != {} && Filed(before.queued)
    ensures Inserted(r, byHash - Conflicts(byHash, e.tx),
                     before.(nextNonce := RolledBack(byHash, before.nextNonce, e.tx)),
                     middle, byHash', after, e, ok, victim) ==>
              (Conflicts(byHash', e.tx) != {}
               <==> e.tx.nonce <= Expected(before.nextNonce, e.tx.sender)
                    || (e.tx.nonce <= Expected(before.nextNonce, e.tx.sender) + MAX_NONCE_GAP
                        && WaitingAfter(before, victim, e.tx.sender) < MAX_QUEUED_PER_SENDER))
  {
    var rest, rolled := byHash - Conflicts(byHash, e.tx),
        before.(nextNonce := RolledBack(byHash, before.nextNonce, e.tx));
    if Inserted(r, rest, rolled, middle, byHash', after, e, ok, victim) {
      RoomInQueue(rest, rolled, middle, victim, e.tx.sender);
      if ok {
        assert r.hash(e.tx) in Conflicts(byHash', e.tx);
      } else {
        assert Conflicts(byHash', e.tx) == {};
      }
    }
  }

  // ---------------------------------------------------------------- a full queue

  /** Admissible transactions of one sender for the nonces that fill its queue. */
  ghost predicate FillsQueue(r: Rules, cheap: u64 -> Transaction) {
    forall n: u64 :: 1 <= n <= MAX_QUEUED_PER_SENDER ==>
      cheap(n).nonce == n && cheap(n).sender == cheap(1).sender && cheap(n).fee >= MIN_FEE && r.admissible(cheap(n))
  }

  /** Nonces one to `n - 1` of a sender wait, and nothing else is indexed. */
  ghost predicate Filling(r: Rules, byHash: map<H256, Transaction>, lanes: Lanes, cheap: u64 -> Transaction, n: nat) {
    && 1 <= n <= MAX_QUEUED_PER_SENDER + 1 && lanes.nextNonce == map[] && |byHash| == n - 1
    && (forall h :: h in byHash ==> byHash[h].sender == cheap(1).sender && 1 <= byHash[h].nonce < n)
    && (n > 1 ==> r.hash(cheap(1)) in byHash && byHash[r.hash(cheap(1))] == cheap(1))
    && (forall k :: k in QueueOf(lanes.queued, cheap(1).sender) ==> k < n)
    && |QueueOf(lanes.queued, cheap(1).sender)| == n - 1
  }

  lemma {:induction false} NextIsNew(r: Rules, byHash: map<H256, Transaction>, lanes: Lanes,
                                     cheap: u64 -> Transaction, n: u64)
    requires HashBinds(r) && Keyed(r, byHash) && Filling(r, byHash, lanes, cheap, n)
    requires FillsQueue(r, cheap) && n <= MAX_QUEUED_PER_SENDER
    ensures r.hash(cheap(n)) !in byHash && Conflicts(byHash, cheap(n)) == {}
  {
    assert cheap(n).nonce == n;
  }

  lemma {:induction false} FillingGrows(r: Rules, byHash: map<H256, Transaction>, before: Lanes, middle: Lanes,
                                        byHash': map<H256, Transaction>, after: Lanes, e: Entry, ok: bool,
                                        victim: Option<Transaction>, cheap: u64 -> Transaction, n: u64)
    requires Filling(r, byHash, before, cheap, n) && n <= MAX_QUEUED_PER_SENDER && e.tx == cheap(n)
             && FillsQueue(r, cheap)
    requires Conflicts(byHash, e.tx) == {} && r.hash(e.tx) !in byHash
    requires Inserted(r, byHash - Conflicts(byHash, e.tx),
                      before.(nextNonce := RolledBack(byHash, before.nextNonce, e.tx)),
                      middle, byHash', after, e, ok, victim)
    ensures Filling(r, byHash', after, cheap, n + 1)
  {
    assert byHash - {} == byHash && before.(nextNonce := before.nextNonce) == before;
    assert victim == None && middle == before && ok;
    assert byHash' == byHash[r.hash(e.tx) := e.tx];
    OneMore(byHash, r.hash(e.tx), e.tx);
    OneMore(QueueOf(before.queued, cheap(1).sender), n, Waiting(e.tx, e.submittedSlot));
  }

  lemma {:induction false} OneMore<K, V>(m: map<K, V>, k: K, v: V)
    ensures k !in m ==> |m[k := v]| == |m| + 1
  {
    assert m[k := v].Keys == m.Keys + {k};
  }

  lemma {:induction false} DearConflicts(r: Rules, byHash: map<H256, Transaction>, lanes: Lanes,
                                         cheap: u64 -> Transaction, dear: Transaction)
    requires FillsQueue(r, cheap)
    requires HashBinds(r) && Keyed(r, byHash) && OnePerNonce(byHash)
             && Filling(r, byHash, lanes, cheap, MAX_QUEUED_PER_SENDER + 1)
    requires dear.sender == cheap(1).sender && dear.nonce == 1 && r.hash(dear) != r.hash(cheap(1))
    ensures r.hash(dear) !in byHash && Conflicts(byHash, dear) == {r.hash(cheap(1))}
  {
    assert cheap(1).nonce == 1;
  }

  lemma {:induction false} FullQueueRefuses(r: Rules, byHash: map<H256, Transaction>, before: Lanes, middle: Lanes,
                                            byHash': map<H256, Transaction>, after: Lanes, e: Entry, ok: bool,
                                            victim: Option<Transaction>, cheap: u64 -> Transaction)
    requires Filling(r, byHash, before, cheap, MAX_QUEUED_PER_SENDER + 1) && e.tx.sender == cheap(1).sender
             && e.tx.nonce == 1
    requires Inserted(r, byHash - Conflicts(byHash, e.tx),
                      before.(nextNonce := RolledBack(byHash, before.nextNonce, e.tx)),
                      middle, byHash', after, e, ok, victim)
    ensures !ok && Conflicts(byHash', e.tx) == {}
            && QueueOf(after.queued, e.tx.sender) == QueueOf(before.queued, e.tx.sender)
  {
    var rest := byHash - Conflicts(byHash, e.tx);
    assert rest.Keys <= byHash.Keys && |rest.Keys| <= |byHash.Keys| by {
      assert byHash.Keys == rest.Keys + (byHash.Keys - rest.Keys);
    }
    assert victim == None && middle.queued == before.queued && !ok;
  }

  // ---------------------------------------------------------------- age

  predicate Stale(now: u64, since: u64) {
    now - since > MAX_TX_AGE_SLOTS
  }

  ghost function StaleReady(r: Rules, pending: seq<Entry>, now: u64): set<H256> {
    set e | e in pending && Stale(now, e.submittedSlot) :: r.hash(e.tx)
  }

  ghost function StaleIn(r: Rules, q: Queue, now: u64): set<H256> {
    set n | n in q && Stale(now, q[n].slot) :: r.hash(q[n].tx)
  }

  /** Hashes of the stale waiting transactions of some senders. */
  ghost function StaleWaiting(r: Rules, queued: map<Address, Queue>, senders: set<Address>, now: u64): set<H256> {
    set a, n | a in senders && n in QueueOf(queued, a)
        && Stale(now, QueueOf(queued, a)[n].slot) :: r.hash(QueueOf(queued, a)[n].tx)
  }

  ghost function FreshOf(q: Queue, now: u64): Queue {
    map n | n in q && !Stale(now, q[n].slot) :: q[n]
  }

  lemma {:induction false} StaleReadySnoc(r: Rules, pending: seq<Entry>, now: u64, i: nat)
    requires i < |pending|
    ensures StaleReady(r, pending[..i + 1], now)
            == StaleReady(r, pending[..i], now) + if Stale(now, pending[i].submittedSlot)
                then {r.hash(pending[i].tx)} else {}
  {
    assert pending[..i + 1] == pending[..i] + [pending[i]];
    var e := pending[i];
    assert e in pending[..i + 1];
    forall h | h in StaleReady(r, pending[..i], now) ensures h in StaleReady(r, pending[..i + 1], now) {
      var f :| f in pending[..i] && Stale(now, f.submittedSlot) && r.hash(f.tx) == h;
      assert f in pending[..i + 1];
    }
  }

  lemma {:induction false} StaleWaitingGrows(r: Rules, queued: map<Address, Queue>, senders: set<Address>, a: Address,
                                             now: u64)
    ensures StaleWaiting(r, queued, senders + {a}, now)
            == StaleWaiting(r, queued, senders, now) + StaleIn(r, QueueOf(queued, a), now)
  {
  }

  lemma {:induction false} ElementsPush(hashes: seq<H256>, h: H256)
    ensures Elements(hashes + [h]) == Elements(hashes) + {h}
  {
  }

  /** Hashes of the waiting transactions at some nonces. */
  ghost function HashesAt(r: Rules, q: Queue, nonces: set<u64>): set<H256> {
    set n | n in nonces && n in q :: r.hash(q[n].tx)
  }

  lemma {:induction false} HashesAtGrows(r: Rules, q: Queue, nonces: set<u64>, n: u64)
    requires n in q
    ensures HashesAt(r, q, nonces + {n}) == HashesAt(r, q, nonces) + {r.hash(q[n].tx)}
  {
  }

  /** Those of the given hashes whose transaction is below the new tip. */
  ghost function Below(byHash: map<H256, Transaction>, tips: map<Address, u64>, hashes: set<H256>): set<H256> {
    set h | h in hashes && h in byHash && byHash[h].nonce < Expected(tips, byHash[h].sender)
  }

  lemma {:induction false} BelowGrows(byHash: map<H256, Transaction>, tips: map<Address, u64>, rest: set<H256>, h: H256)
    requires h in rest && h in byHash
    ensures byHash[h].nonce < Expected(tips, byHash[h].sender) ==>
              Below(byHash, tips, byHash.Keys - (rest - {h})) == Below(byHash, tips, byHash.Keys - rest) + {h}
    ensures byHash[h].nonce >= Expected(tips, byHash[h].sender) ==>
              Below(byHash, tips, byHash.Keys - (rest - {h})) == Below(byHash, tips, byHash.Keys - rest)
  {
  }

  // ---------------------------------------------------------------- reverted transactions

  /** How many of the transactions are the sender's. */
  ghost function CountOf(a: Address, txs: seq<Transaction>): nat {
    if txs == [] then 0 else (if txs[0].sender == a then 1 else 0) + CountOf(a, txs[1..])
  }

  /** Reverted transactions that can all come back: there is room, nothing is indexed or waits in their place, and
      each sender's start at the expected nonce and follow one another. */
  ghost predicate CanReturn(byHash: map<H256, Transaction>, queued: map<Address, Queue>, nextNonce: map<Address, u64>,
                            txs: seq<Transaction>) {
    && |byHash| + |txs| <= MAX_MEMPOOL_SIZE
    && forall i :: 0 <= i < |txs| ==> FreePlace(byHash, queued, txs[i]) && InTurn(nextNonce, txs, i)
  }

  ghost predicate FreePlace(byHash: map<H256, Transaction>, queued: map<Address, Queue>, tx: Transaction) {
    Conflicts(byHash, tx) == {} && tx.nonce !in QueueOf(queued, tx.sender)
  }

  ghost predicate InTurn(nextNonce: map<Address, u64>, txs: seq<Transaction>, i: nat)
    requires i < |txs|
  {
    txs[i].nonce == Expected(nextNonce, txs[i].sender) + CountOf(txs[i].sender, txs[..i])
  }

  /** Every one of the transactions is indexed, and so is everything kept. */
  ghost predicate Holds(r: Rules, byHash: map<H256, Transaction>, kept: map<H256, Transaction>, txs: seq<Transaction>) {
    && (forall tx :: tx in txs ==> r.hash(tx) in byHash && byHash[r.hash(tx)] == tx)
    && (forall h :: h in kept ==> h in byHash && byHash[h] == kept[h])
  }

  lemma {:induction false} HoldsOneMore(r: Rules, byHash: map<H256, Transaction>, kept: map<H256, Transaction>,
                                        txs: seq<Transaction>, i: nat)
    requires i < |txs| && Holds(r, byHash, kept, txs[..i]) && r.hash(txs[i]) !in byHash
    ensures Holds(r, byHash[r.hash(txs[i]) := txs[i]], kept, txs[..i + 1])
  {
    assert txs[..i + 1] == txs[..i] + [txs[i]];
  }

  lemma {:induction false} CountOfRest(a: Address, txs: seq<Transaction>, i: nat)
    requires 0 < i <= |txs|
    ensures CountOf(a, txs[..i]) == (if txs[0].sender == a then 1 else 0) + CountOf(a, txs[1..][..i - 1])
  {
    assert txs[..i][1..] == txs[1..][..i - 1];
  }

  /** A sender that occurs has a first transaction. */
  lemma {:induction false} FirstOf(a: Address, txs: seq<Transaction>, i: nat) returns (j: nat)
    requires i < |txs| && txs[i].sender == a
    ensures j < |txs| && txs[j].sender == a && CountOf(a, txs[..j]) == 0
    decreases |txs|
  {
    if txs[0].sender == a {
      j := 0;
    } else {
      j := FirstOf(a, txs[1..], i - 1);
      j := j + 1;
      CountOfRest(a, txs, j);
    }
  }

  /** The first of them becomes ready at once, and the others can still return. */
  lemma {:induction false} OneReturns(r: Rules, byHash: map<H256, Transaction>, before: Lanes, middle: Lanes,
                                      byHash': map<H256, Transaction>, after: Lanes, e: Entry, ok: bool,
                                      victim: Option<Transaction>, txs: seq<Transaction>)
    requires txs != [] && e.tx == txs[0] && r.hash(e.tx) !in byHash
    requires CanReturn(byHash, before.queued, before.nextNonce, txs)
    requires Inserted(r, byHash, before, middle, byHash', after, e, ok, victim)
    ensures ok && byHash' == byHash[r.hash(e.tx) := e.tx]
    ensures CanReturn(byHash', after.queued, after.nextNonce, txs[1..])
  {
    assert FreePlace(byHash, before.queued, txs[0]) && InTurn(before.nextNonce, txs, 0);
    assert victim == None && middle == before && ok;
    assert byHash - {} == byHash;
    OneMore(byHash, r.hash(e.tx), e.tx);
    var rest := txs[1..];
    forall i | 0 <= i < |rest|
      ensures FreePlace(byHash', after.queued, rest[i]) && InTurn(after.nextNonce, rest, i)
    {
      OtherStaysInTurn(byHash, before, after, e, txs, i);
      assert Conflicts(byHash', rest[i]) == {} by {
        assert FreePlace(byHash, before.queued, txs[i + 1]) && InTurn(before.nextNonce, txs, i + 1);
        CountOfRest(rest[i].sender, txs, i + 1);
        assert Conflicts(byHash, txs[i + 1]) == {};
      }
    }
  }

  lemma {:induction false} OtherStaysInTurn(byHash: map<H256, Transaction>, before: Lanes, after: Lanes, e: Entry,
                                            txs: seq<Transaction>, i: nat)
    requires i + 1 < |txs| && e.tx == txs[0] && CanReturn(byHash, before.queued, before.nextNonce, txs)
    requires e.tx.nonce == Expected(before.nextNonce, e.tx.sender) && Routed(before, after, e)
    ensures txs[1..][i].nonce !in QueueOf(after.queued, txs[1..][i].sender) && InTurn(after.nextNonce, txs[1..], i)
  {
    var rest := txs[1..];
    var a := rest[i].sender;
    var j := FirstOf(a, rest, i);
    assert FreePlace(byHash, before.queued, txs[i + 1]) && FreePlace(byHash, before.queued, txs[j + 1]);
    AfterFirst(before.nextNonce, txs, i);
    AfterFirst(before.nextNonce, txs, j);
    NotPromoted(before, after, e, a);
  }

  /** Once the first transaction is ready, the others are counted from the advanced nonce. */
  lemma {:induction false} AfterFirst(nextNonce: map<Address, u64>, txs: seq<Transaction>, i: nat)
    requires i + 1 < |txs| && InTurn(nextNonce, txs, 0) && InTurn(nextNonce, txs, i + 1)
    ensures InTurn(Advanced(nextNonce, txs[0]), txs[1..], i)
  {
    CountOfRest(txs[i + 1].sender, txs, i + 1);
  }

  /** A sender with nothing waiting at its expected nonce stays as it is. */
  lemma {:induction false} NotPromoted(before: Lanes, after: Lanes, e: Entry, a: Address)
    requires e.tx.nonce == Expected(before.nextNonce, e.tx.sender) && Routed(before, after, e)
    requires Expected(Advanced(before.nextNonce, e.tx), a) !in QueueOf(before.queued, a)
    ensures Expected(after.nextNonce, a) == Expected(Advanced(before.nextNonce, e.tx), a)
    ensures QueueOf(after.queued, a) == QueueOf(before.queued, a)
  {
    var q, n := QueueOf(before.queued, a), Expected(Advanced(before.nextNonce, e.tx), a);
    assert Promoted(Pushed(before, e), after, a);
    assert FirstGap(q, n) == n && Without(q, n, n) == q;
  }

  /** Every indexed transaction was kept or is one of those given. */
  ghost predicate NothingElse(byHash: map<H256, Transaction>, kept: map<H256, Transaction>, txs: seq<Transaction>) {
    forall h :: h in byHash ==> (h in kept && byHash[h] == kept[h]) || byHash[h] in txs
  }

  /** Putting a transaction into a pool with nothing below the tip leaves nothing below it. */
  lemma {:induction false} AddedAboveFloor(r: Rules, byHash: map<H256, Transaction>, before: Lanes, middle: Lanes,
                                           byHash': map<H256, Transaction>, after: Lanes, e: Entry, ok: bool,
                                           victim: Option<Transaction>, tips: map<Address, u64>)
    requires AboveFloor(byHash, before.nextNonce, tips)
    requires Inserted(r, byHash - Conflicts(byHash, e.tx),
                      before.(nextNonce := RolledBack(byHash, before.nextNonce, e.tx)),
                      middle, byHash', after, e, ok, victim)
    ensures AboveFloor(byHash', after.nextNonce, tips) && NothingElse(byHash', byHash, [e.tx])
  {
    var kept, lanes := byHash - Conflicts(byHash, e.tx),
        before.(nextNonce := RolledBack(byHash, before.nextNonce, e.tx));
    assert AboveFloor(kept, lanes.nextNonce, tips) by {
      RollbackKeepsFloor(byHash, before.nextNonce, tips, e.tx);
    }
    assert AboveFloor(byHash', after.nextNonce, tips) && NothingElse(byHash', kept, [e.tx]) by {
      InsertedKeepsFloor(r, kept, lanes, middle, byHash', after, e, ok, victim, tips);
    }
  }

  /** What has a free place is not indexed and replaces nothing. */
  lemma {:induction false} FreeIsNew(r: Rules, byHash: map<H256, Transaction>, queued: map<Address, Queue>,
                                     nextNonce: map<Address, u64>, tx: Transaction, rest: seq<Transaction>)
    requires HashBinds(r) && Keyed(r, byHash) && CanReturn(byHash, queued, nextNonce, [tx] + rest)
    ensures r.hash(tx) !in byHash && Conflicts(byHash, tx) == {}
  {
    assert FreePlace(byHash, queued, ([tx] + rest)[0]);
    assert r.hash(tx) in byHash ==> r.hash(tx) in Conflicts(byHash, tx);
  }

  /** The first of the transactions that can return is indexed, and the others still can. */
  lemma {:induction false} AddedReturns(r: Rules, byHash: map<H256, Transaction>, before: Lanes, middle: Lanes,
                                        byHash': map<H256, Transaction>, after: Lanes, e: Entry, ok: bool,
                                        victim: Option<Transaction>, rest: seq<Transaction>)
    requires CanReturn(byHash, before.queued, before.nextNonce, [e.tx] + rest)
    requires r.hash(e.tx) !in byHash && Conflicts(byHash, e.tx) == {}
    requires Inserted(r, byHash - Conflicts(byHash, e.tx),
                      before.(nextNonce := RolledBack(byHash, before.nextNonce, e.tx)),
                      middle, byHash', after, e, ok, victim)
    ensures byHash' == byHash[r.hash(e.tx) := e.tx] && CanReturn(byHash', after.queued, after.nextNonce, rest)
  {
    assert byHash - {} == byHash && before.(nextNonce := before.nextNonce) == before;
    assert ([e.tx] + rest)[1..] == rest;
    OneReturns(r, byHash, before, middle, byHash', after, e, ok, victim, [e.tx] + rest);
  }

  lemma {:induction false} ElementsJoin(x: seq<H256>, y: seq<H256>)
    ensures Elements(x + y) == Elements(x) + Elements(y)
  {
  }

  lemma {:induction false} NotStale(r: Rules, byHash: map<H256, Transaction>, pending: seq<Entry>, now: u64)
    ensures forall e :: e in pending && r.hash(e.tx) in byHash - StaleReady(r, pending, now) ==>
              !Stale(now, e.submittedSlot)
  {
  }

  lemma {:induction false} NoneStale(r: Rules, pending: seq<Entry>, now: u64)
    requires StaleReady(r, pending, now) == {}
    ensures forall e :: e in pending ==> !Stale(now, e.submittedSlot)
  {
    forall e | e in pending ensures !Stale(now, e.submittedSlot) {
      assert r.hash(e.tx) !in StaleReady(r, pending, now);
    }
  }
}
