/** Catching up with the network: blocks arrive in any order, are buffered, and leave the buffer as one
    contiguous chain. */
module BlockSync {
  import opened Types

  datatype Block = Block(slot: u64, parent: H256, hash: H256)

  const MAX_SYNC_BUFFER: nat := 1024

  /** `b` may follow a block with hash `expected`. */
  predicate Links(b: Block, expected: Option<H256>) {
    expected == None || b.parent == expected.value || b.parent == ZERO_HASH
  }

  // ---------------------------------------------------------------- what a drain should deliver

  /** The blocks of one slot, in arrival order. */
  ghost function AtSlot(list: seq<Block>, slot: nat): seq<Block> {
    if list == [] then []
    else
      var n := |list| - 1;
      if list[n].slot == slot then AtSlot(list[..n], slot) + [list[n]] else AtSlot(list[..n], slot)
  }

  /** The first block that links, or the length of the list. */
  ghost function FirstLink(list: seq<Block>, expected: Option<H256>): (i: nat)
    ensures i <= |list|
    ensures forall j :: 0 <= j < i ==> !Links(list[j], expected)
    ensures i < |list| ==> Links(list[i], expected)
  {
    if list == [] then 0
    else
      var n := |list| - 1;
      var i := FirstLink(list[..n], expected);
      if i < n then i else if Links(list[n], expected) then n else n + 1
  }

  /** Slot by slot from `next` on, the first block to arrive that links to its predecessor. */
  ghost function Greedy(list: seq<Block>, next: nat, expected: Option<H256>): seq<Block>
    decreases TWO64 - next
  {
    if next >= TWO64 then []
    else
      var here := AtSlot(list, next);
      var i := FirstLink(here, expected);
      if i == |here| then [] else [here[i]] + Greedy(list, next + 1, Some(here[i].hash))
  }

  /** The hash the block after `chain` must link to. */
  ghost function Tip(chain: seq<Block>, expected: Option<H256>): Option<H256> {
    if chain == [] then expected else Some(chain[|chain| - 1].hash)
  }

  /** Consecutive slots from `next`, every block linked to the one before it. */
  ghost predicate IsChain(chain: seq<Block>, next: nat, expected: Option<H256>) {
    forall i :: 0 <= i < |chain| ==> chain[i].slot == next + i && Links(chain[i], Tip(chain[..i], expected))
  }

  ghost predicate SortedBySlot(list: seq<Block>) {
    forall i, j :: 0 <= i < j < |list| ==> list[i].slot <= list[j].slot
  }

  // ---------------------------------------------------------------- stable sorting

  /** Insert after every block of the same or an earlier slot. */
  function Insert(list: seq<Block>, b: Block): seq<Block> {
    if list == [] || list[|list| - 1].slot <= b.slot then list + [b]
    else Insert(list[..|list| - 1], b) + [list[|list| - 1]]
  }

  /** `sort_by_key(slot)`. */
  function SortBySlot(list: seq<Block>): seq<Block> {
    if list == [] then [] else Insert(SortBySlot(list[..|list| - 1]), list[|list| - 1])
  }

  lemma {:induction false} AtSlotAppend(list: seq<Block>, b: Block, slot: nat)
    ensures AtSlot(list + [b], slot) == if b.slot == slot then AtSlot(list, slot) + [b] else AtSlot(list, slot)
  {
    assert (list + [b])[..|list|] == list;
  }

  lemma {:induction false} InsertHolds(list: seq<Block>, b: Block)
    ensures multiset(Insert(list, b)) == multiset(list) + multiset{b}
    decreases |list|
  {
    if list != [] && list[|list| - 1].slot > b.slot {
      var n := |list| - 1;
      InsertHolds(list[..n], b);
      assert list == list[..n] + [list[n]];
    }
  }

  lemma {:induction false} InsertSorts(list: seq<Block>, b: Block)
    requires SortedBySlot(list)
    ensures SortedBySlot(Insert(list, b))
    decreases |list|
  {
    if list != [] && list[|list| - 1].slot > b.slot {
      var n := |list| - 1;
      var init := Insert(list[..n], b);
      InsertSorts(list[..n], b);
      InsertHolds(list[..n], b);
      forall i | 0 <= i < |init|
        ensures init[i].slot <= list[n].slot
      {
        assert init[i] in multiset(init);
        assert init[i] == b || init[i] in list[..n];
      }
    }
  }

  lemma {:induction false} InsertAtSlot(list: seq<Block>, b: Block, slot: nat)
    requires SortedBySlot(list)
    ensures AtSlot(Insert(list, b), slot) == if b.slot == slot then AtSlot(list, slot) + [b] else AtSlot(list, slot)
    decreases |list|
  {
    if list == [] || list[|list| - 1].slot <= b.slot {
      AtSlotAppend(list, b, slot);
    } else {
      var n := |list| - 1;
      InsertAtSlot(list[..n], b, slot);
      AtSlotAppend(Insert(list[..n], b), list[n], slot);
    }
  }

  /** Sorting orders the slots and loses nothing. */
  lemma {:induction false} SortOrders(list: seq<Block>)
    ensures SortedBySlot(SortBySlot(list)) && multiset(SortBySlot(list)) == multiset(list)
    decreases |list|
  {
    if list != [] {
      var n := |list| - 1;
      SortOrders(list[..n]);
      InsertSorts(SortBySlot(list[..n]), list[n]);
      InsertHolds(SortBySlot(list[..n]), list[n]);
      assert list == list[..n] + [list[n]];
    }
  }

  /** It is stable: within each slot the arrival order stays. */
  lemma {:induction false} SortIsStable(list: seq<Block>, slot: nat)
    ensures AtSlot(SortBySlot(list), slot) == AtSlot(list, slot)
    decreases |list|
  {
    if list != [] {
      var n := |list| - 1;
      SortIsStable(list[..n], slot);
      SortOrders(list[..n]);
      InsertAtSlot(SortBySlot(list[..n]), list[n], slot);
    }
  }

  lemma {:induction false} SortedStays(list: seq<Block>)
    requires SortedBySlot(list)
    ensures SortBySlot(list) == list
    decreases |list|
  {
    if list != [] {
      var n := |list| - 1;
      SortedStays(list[..n]);
      assert list == list[..n] + [list[n]];
    }
  }

  // ---------------------------------------------------------------- properties of the greedy chain

  lemma {:induction false} GreedyIsChain(list: seq<Block>, next: nat, expected: Option<H256>)
    ensures IsChain(Greedy(list, next, expected), next, expected)
    decreases TWO64 - next
  {
    var chain := Greedy(list, next, expected);
    if chain != [] {
      AtSlotHolds(list, next);
      var rest := Greedy(list, next + 1, Some(chain[0].hash));
      assert chain == [chain[0]] + rest;
      GreedyIsChain(list, next + 1, Some(chain[0].hash));
      forall i | 0 <= i < |chain|
        ensures chain[i].slot == next + i && Links(chain[i], Tip(chain[..i], expected))
      {
        if i > 0 {
          assert chain[i] == rest[i - 1];
          assert rest[i - 1].slot == next + 1 + (i - 1) && Links(rest[i - 1], Tip(rest[..i - 1], Some(chain[0].hash)));
          assert Tip(chain[..i], expected) == Tip(rest[..i - 1], Some(chain[0].hash)) by {
            if i > 1 {
              assert chain[..i][i - 1] == rest[..i - 1][i - 2];
            }
          }
        }
      }
    }
  }

  lemma {:induction false} AtSlotHolds(list: seq<Block>, slot: nat)
    ensures forall b :: b in AtSlot(list, slot) <==> b in list && b.slot == slot
    decreases |list|
  {
    if list != [] {
      var n := |list| - 1;
      AtSlotHolds(list[..n], slot);
      assert list == list[..n] + [list[n]];
    }
  }

  /** The first block of a greedy chain and what follows it. */
  lemma {:induction false} GreedyUnfolds(list: seq<Block>, next: nat, expected: Option<H256>)
    returns (first: Block, rest: seq<Block>)
    requires Greedy(list, next, expected) != []
    ensures next < TWO64 && FirstLink(AtSlot(list, next), expected) < |AtSlot(list, next)|
    ensures first == AtSlot(list, next)[FirstLink(AtSlot(list, next), expected)]
    ensures rest == Greedy(list, next + 1, Some(first.hash))
    ensures Greedy(list, next, expected) == [first] + rest
    ensures Tip([first] + rest, expected) == Tip(rest, Some(first.hash))
  {
    first := AtSlot(list, next)[FirstLink(AtSlot(list, next), expected)];
    rest := Greedy(list, next + 1, Some(first.hash));
  }

  /** Maximal: nothing in the buffer continues the greedy chain. */
  lemma {:induction false} GreedyIsMaximal(list: seq<Block>, next: nat, expected: Option<H256>)
    ensures NoneLinks(AtSlot(list, next + |Greedy(list, next, expected)|), Tip(Greedy(list, next, expected), expected))
    decreases TWO64 - next
  {
    if Greedy(list, next, expected) == [] {
      GreedyEmptyIff(list, next, expected);
    } else {
      var first, rest := GreedyUnfolds(list, next, expected);
      GreedyIsMaximal(list, next + 1, Some(first.hash));
      assert next + |[first] + rest| == next + 1 + |rest|;
    }
  }

  ghost predicate NoneLinks(list: seq<Block>, expected: Option<H256>) {
    forall b :: b in list ==> !Links(b, expected)
  }

  /** Nothing to pick at `next` means an empty chain. */
  lemma {:induction false} GreedyEmptyIff(list: seq<Block>, next: nat, expected: Option<H256>)
    ensures Greedy(list, next, expected) == [] <==> NoneLinks(AtSlot(list, next), expected)
  {
    AtSlotHolds(list, next);
    var here := AtSlot(list, next);
    assert FirstLink(here, expected) < |here| ==> here[FirstLink(here, expected)] in here;
  }

  // ---------------------------------------------------------------- one pass over the sorted buffer

  /** `b` continues `chain`. */
  ghost predicate Fits(chain: seq<Block>, b: Block, next: nat, expected: Option<H256>) {
    b.slot == next + |chain| && Links(b, Tip(chain, expected))
  }

  /** A block from the last slot so far extends the chain exactly when it fits its end. */
  lemma {:induction false} GreedyAppend(list: seq<Block>, b: Block, next: nat, expected: Option<H256>)
    requires forall x :: x in list ==> x.slot <= b.slot
    ensures var chain := Greedy(list, next, expected);
            Greedy(list + [b], next, expected) == if Fits(chain, b, next, expected) then chain + [b] else chain
    decreases TWO64 - next
  {
    if Greedy(list, next, expected) == [] {
      GreedyStarts(list, b, next, expected);
    } else {
      var first, rest := GreedyUnfolds(list, next, expected);
      GreedyAppend(list, b, next + 1, Some(first.hash));
      GreedyFirst(list, b, next, expected);
      assert Fits([first] + rest, b, next, expected) == Fits(rest, b, next + 1, Some(first.hash));
      assert [first] + (rest + [b]) == [first] + rest + [b];
    }
  }

  /** A later arrival does not change which block starts the chain. */
  lemma {:induction false} GreedyFirst(list: seq<Block>, b: Block, next: nat, expected: Option<H256>)
    requires Greedy(list, next, expected) != []
    ensures var first := Greedy(list, next, expected)[0];
            Greedy(list + [b], next, expected) == [first] + Greedy(list + [b], next + 1, Some(first.hash))
  {
    AtSlotAppend(list, b, next);
    FirstLinkAppend(AtSlot(list, next), b, expected);
  }

  lemma {:induction false} GreedyStarts(list: seq<Block>, b: Block, next: nat, expected: Option<H256>)
    requires forall x :: x in list ==> x.slot <= b.slot
    requires Greedy(list, next, expected) == []
    ensures Greedy(list + [b], next, expected) == if b.slot == next && Links(b, expected) then [b] else []
  {
    AtSlotAppend(list, b, next);
    GreedyEmptyIff(list, next, expected);
    if b.slot == next && Links(b, expected) {
      StartsWithLink(list, b, expected);
    } else {
      GreedyEmptyIff(list + [b], next, expected);
    }
  }

  lemma {:induction false} StartsWithLink(list: seq<Block>, b: Block, expected: Option<H256>)
    requires forall x :: x in list ==> x.slot <= b.slot
    requires NoneLinks(AtSlot(list, b.slot), expected) && Links(b, expected)
    ensures Greedy(list + [b], b.slot, expected) == [b]
  {
    assert Greedy(list + [b], b.slot + 1, Some(b.hash)) == [] by {
      NothingAfter(list + [b], b.slot + 1, Some(b.hash));
    }
    assert AtSlot(list + [b], b.slot) == AtSlot(list, b.slot) + [b] by {
      AtSlotAppend(list, b, b.slot);
    }
    LinkAtEnd(AtSlot(list, b.slot), b, expected);
  }

  lemma {:induction false} FirstLinkAppend(list: seq<Block>, b: Block, expected: Option<H256>)
    ensures FirstLink(list, expected) < |list| ==> FirstLink(list + [b], expected) == FirstLink(list, expected)
    ensures FirstLink(list, expected) == |list| ==>
              FirstLink(list + [b], expected) == if Links(b, expected) then |list| else |list| + 1
  {
    assert (list + [b])[..|list|] == list;
  }

  lemma {:induction false} NothingAfter(list: seq<Block>, next: nat, expected: Option<H256>)
    requires forall x :: x in list ==> x.slot < next
    ensures Greedy(list, next, expected) == []
  {
    AtSlotHolds(list, next);
    GreedyEmptyIff(list, next, expected);
  }

  /** Blocks that stay in the buffer after one pass: those ahead of the chain as far as it has come,
      and those at its end that do not fit. */
  ghost function Kept(list: seq<Block>, next: nat, expected: Option<H256>): seq<Block> {
    if list == [] then []
    else
      var n := |list| - 1;
      if Stays(list[..n], list[n], next, expected)
      then Kept(list[..n], next, expected) + [list[n]]
      else Kept(list[..n], next, expected)
  }

  /** What stays, slot by slot: nothing from before the chain, along the chain only what arrived before
      the chosen block, and everything from its end on. */
  ghost function KeptAt(list: seq<Block>, next: nat, expected: Option<H256>, slot: nat): seq<Block> {
    KeptOf(Greedy(list, next, expected), AtSlot(list, slot), next, expected, slot)
  }

  ghost function KeptOf(chain: seq<Block>, here: seq<Block>, next: nat, expected: Option<H256>,
                        slot: nat): seq<Block> {
    if slot < next then []
    else if slot < next + |chain| then here[..FirstLink(here, Tip(chain[..slot - next], expected))]
    else here
  }

  /** `b` stays behind when it arrives after the pass over `list`. */
  ghost predicate Stays(list: seq<Block>, b: Block, next: nat, expected: Option<H256>) {
    var chain := Greedy(list, next, expected);
    b.slot > next + |chain| || (b.slot == next + |chain| && !Links(b, Tip(chain, expected)))
  }

  /** Growing the chain at its end leaves its earlier links alone. */
  lemma {:induction false} KeptAtAppend(list: seq<Block>, b: Block, next: nat, expected: Option<H256>, slot: nat)
    requires forall x :: x in list ==> x.slot <= b.slot
    ensures KeptAt(list + [b], next, expected, slot)
            == if Stays(list, b, next, expected) && b.slot == slot
               then KeptAt(list, next, expected, slot) + [b] else KeptAt(list, next, expected, slot)
  {
    var end := next + |Greedy(list, next, expected)|;
    if next <= slot < end {
      KeptAtLink(list, b, next, expected, slot);
    } else if slot == end {
      KeptAtEnd(list, b, next, expected);
    } else if slot > end {
      KeptBeyond(list, b, next, expected, slot);
    }
  }

  lemma {:induction false} KeptBeyond(list: seq<Block>, b: Block, next: nat, expected: Option<H256>, slot: nat)
    requires forall x :: x in list ==> x.slot <= b.slot
    requires slot > next + |Greedy(list, next, expected)|
    ensures KeptAt(list, next, expected, slot) == AtSlot(list, slot)
    ensures KeptAt(list + [b], next, expected, slot)
            == if b.slot == slot then AtSlot(list, slot) + [b] else AtSlot(list, slot)
  {
    GreedyAppend(list, b, next, expected);
    AtSlotAppend(list, b, slot);
  }

  lemma {:induction false} KeptAtLink(list: seq<Block>, b: Block, next: nat, expected: Option<H256>, slot: nat)
    requires forall x :: x in list ==> x.slot <= b.slot
    requires next <= slot < next + |Greedy(list, next, expected)|
    ensures KeptAt(list + [b], next, expected, slot) == KeptAt(list, next, expected, slot)
  {
    var chain, here := Greedy(list, next, expected), AtSlot(list, slot);
    var more, extra := if Fits(chain, b, next, expected) then [b] else [], if b.slot == slot then [b] else [];
    assert Greedy(list + [b], next, expected) == chain + more by {
      GreedyAppend(list, b, next, expected);
    }
    assert AtSlot(list + [b], slot) == here + extra by {
      AtSlotAppend(list, b, slot);
    }
    ChosenExists(list, next, expected, slot);
    KeptOfLink(chain, more, here, extra, next, expected, slot);
  }

  lemma {:induction false} KeptOfLink(chain: seq<Block>, more: seq<Block>, here: seq<Block>, extra: seq<Block>,
                                      next: nat, expected: Option<H256>, slot: nat)
    requires next <= slot < next + |chain| && |extra| <= 1
    requires FirstLink(here, Tip(chain[..slot - next], expected)) < |here|
    ensures KeptOf(chain + more, here + extra, next, expected, slot) == KeptOf(chain, here, next, expected, slot)
  {
    assert (chain + more)[..slot - next] == chain[..slot - next];
    var i := FirstLink(here, Tip(chain[..slot - next], expected));
    if extra == [] {
      assert here + extra == here;
    } else {
      assert extra == [extra[0]];
      FirstLinkAppend(here, extra[0], Tip(chain[..slot - next], expected));
      assert (here + extra)[..i] == here[..i];
    }
  }

  lemma {:induction false} KeptAtEnd(list: seq<Block>, b: Block, next: nat, expected: Option<H256>)
    requires forall x :: x in list ==> x.slot <= b.slot
    ensures var slot := next + |Greedy(list, next, expected)|;
            KeptAt(list + [b], next, expected, slot)
            == if Stays(list, b, next, expected) && b.slot == slot then AtSlot(list, slot) + [b] else AtSlot(list, slot)
  {
    var chain := Greedy(list, next, expected);
    if Fits(chain, b, next, expected) {
      KeptAtNewLink(list, b, next, expected);
    } else {
      assert Greedy(list + [b], next, expected) == chain by {
        GreedyAppend(list, b, next, expected);
      }
      AtSlotAppend(list, b, next + |chain|);
    }
  }

  /** The slot that a fitting block fills keeps what was there before. */
  lemma {:induction false} KeptAtNewLink(list: seq<Block>, b: Block, next: nat, expected: Option<H256>)
    requires forall x :: x in list ==> x.slot <= b.slot
    requires Fits(Greedy(list, next, expected), b, next, expected)
    ensures KeptAt(list + [b], next, expected, b.slot) == AtSlot(list, b.slot)
  {
    var chain, here := Greedy(list, next, expected), AtSlot(list, b.slot);
    GreedyAppend(list, b, next, expected);
    AtSlotAppend(list, b, b.slot);
    assert (chain + [b])[..b.slot - next] == chain;
    GreedyIsMaximal(list, next, expected);
    LinkAtEnd(here, b, Tip(chain, expected));
  }

  lemma {:induction false} LinkAtEnd(list: seq<Block>, b: Block, expected: Option<H256>)
    requires NoneLinks(list, expected) && Links(b, expected)
    ensures FirstLink(list + [b], expected) == |list| && (list + [b])[..|list|] == list
  {
    NoLink(list, expected);
    FirstLinkAppend(list, b, expected);
  }

  lemma {:induction false} NoLink(list: seq<Block>, expected: Option<H256>)
    requires NoneLinks(list, expected)
    ensures FirstLink(list, expected) == |list|
    decreases |list|
  {
    if list != [] {
      NoLink(list[..|list| - 1], expected);
    }
  }

  /** Along the chain some block of each slot was chosen. */
  lemma {:induction false} ChosenExists(list: seq<Block>, next: nat, expected: Option<H256>, slot: nat)
    requires next <= slot < next + |Greedy(list, next, expected)|
    ensures var here := AtSlot(list, slot);
            FirstLink(here, Tip(Greedy(list, next, expected)[..slot - next], expected)) < |here|
    decreases TWO64 - next
  {
    var first, rest := GreedyUnfolds(list, next, expected);
    var chain := [first] + rest;
    if slot > next {
      ChosenExists(list, next + 1, Some(first.hash), slot);
      assert chain[..slot - next] == [first] + rest[..slot - (next + 1)];
      assert Tip(chain[..slot - next], expected) == Tip(rest[..slot - (next + 1)], Some(first.hash));
    } else {
      assert chain[..slot - next] == [];
    }
  }

  lemma {:induction false} KeptBySlot(list: seq<Block>, next: nat, expected: Option<H256>, slot: nat)
    requires SortedBySlot(list)
    ensures AtSlot(Kept(list, next, expected), slot) == KeptAt(list, next, expected, slot)
    decreases |list|
  {
    if list == [] {
      NothingAfter(list, next, expected);
    } else {
      var n := |list| - 1;
      assert list == list[..n] + [list[n]];
      KeptBySlot(list[..n], next, expected, slot);
      KeptAtAppend(list[..n], list[n], next, expected, slot);
      AtSlotAppend(Kept(list[..n], next, expected), list[n], slot);
    }
  }

  lemma {:induction false} KeptIsSorted(list: seq<Block>, next: nat, expected: Option<H256>)
    requires SortedBySlot(list)
    ensures SortedBySlot(Kept(list, next, expected))
    ensures forall x :: x in Kept(list, next, expected) ==> x in list
    decreases |list|
  {
    if list != [] {
      var n := |list| - 1;
      var before := Kept(list[..n], next, expected);
      KeptIsSorted(list[..n], next, expected);
      forall i | 0 <= i < |before|
        ensures before[i].slot <= list[n].slot
      {
        assert before[i] in list[..n];
      }
    }
  }

  // ---------------------------------------------------------------- the second pass

  /** What the loop over the remaining blocks takes off their front. */
  ghost function Leading(list: seq<Block>, next: nat, expected: Option<H256>): seq<Block> {
    if list == [] || list[0].slot != next || !Links(list[0], expected) then []
    else [list[0]] + Leading(list[1..], next + 1, Some(list[0].hash))
  }

  lemma {:induction false} LeadingStep(taken: seq<Block>, list: seq<Block>, next: nat, expected: Option<H256>)
    requires list != [] && list[0].slot == next && Links(list[0], expected)
    ensures taken + Leading(list, next, expected)
            == (taken + [list[0]]) + Leading(list[1..], next + 1, Some(list[0].hash))
    ensures taken + list == (taken + [list[0]]) + list[1..]
  {
  }

  /** It never takes any: whatever lies at the end of the chain was already found not to link. */
  lemma {:induction false} SecondPassTakesNothing(list: seq<Block>, next: nat, expected: Option<H256>)
    requires SortedBySlot(list)
    ensures var chain := Greedy(list, next, expected);
            Leading(Kept(list, next, expected), next + |chain|, Tip(chain, expected)) == []
  {
    var chain, kept := Greedy(list, next, expected), Kept(list, next, expected);
    KeptBySlot(list, next, expected, next + |chain|);
    GreedyIsMaximal(list, next, expected);
    AtSlotHolds(kept, next + |chain|);
    assert kept != [] && kept[0].slot == next + |chain| ==> kept[0] in AtSlot(kept, next + |chain|);
  }

  /** The second pass leaves what the first one kept as it is. */
  lemma {:induction false} KeptFits(list: seq<Block>, next: nat, expected: Option<H256>)
    requires SortedBySlot(list)
    ensures var chain, kept := Greedy(list, next, expected), Kept(list, next, expected);
            SortBySlot(kept) == kept && Leading(kept, next + |chain|, Tip(chain, expected)) == []
  {
    KeptIsSorted(list, next, expected);
    SortedStays(Kept(list, next, expected));
    SecondPassTakesNothing(list, next, expected);
  }

  // ---------------------------------------------------------------- whole drains

  datatype Buffered = Buffered(buffer: seq<Block>, next: nat, expected: Option<H256>)

  /** What a drain leaves behind. */
  ghost function AfterDrain(s: Buffered): Buffered {
    var chain := Greedy(s.buffer, s.next, s.expected);
    Buffered(Kept(SortBySlot(s.buffer), s.next, s.expected), s.next + |chain|, Tip(chain, s.expected))
  }

  ghost function Drained(s: Buffered): seq<Block> {
    Greedy(s.buffer, s.next, s.expected)
  }

  /** Arrival order matters only within a slot, so sorting first changes nothing. */
  lemma {:induction false} GreedyOfSorted(list: seq<Block>, next: nat, expected: Option<H256>)
    ensures Greedy(SortBySlot(list), next, expected) == Greedy(list, next, expected)
    decreases TWO64 - next
  {
    SortIsStable(list, next);
    if Greedy(list, next, expected) != [] {
      var first, rest := GreedyUnfolds(list, next, expected);
      GreedyOfSorted(list, next + 1, Some(first.hash));
    }
  }

  /** What a drain leaves at each slot: nothing from before the chain, along the chain only what arrived
      before the chosen block and did not link, everything from its end on. So only blocks below the new
      expected slot are dropped. */
  lemma {:induction false} DrainKeeps(s: Buffered, slot: nat)
    ensures AtSlot(AfterDrain(s).buffer, slot) == KeptAt(s.buffer, s.next, s.expected, slot)
    ensures slot >= AfterDrain(s).next ==> AtSlot(AfterDrain(s).buffer, slot) == AtSlot(s.buffer, slot)
  {
    var sorted := SortBySlot(s.buffer);
    SortOrders(s.buffer);
    KeptBySlot(sorted, s.next, s.expected, slot);
    GreedyOfSorted(s.buffer, s.next, s.expected);
    SortIsStable(s.buffer, slot);
  }

  /** A drain is maximal: nothing in the buffer continues what it delivered, and draining again at once
      delivers nothing. */
  lemma {:induction false} DrainIsMaximal(s: Buffered)
    ensures NoneLinks(AtSlot(s.buffer, AfterDrain(s).next), AfterDrain(s).expected)
    ensures Drained(AfterDrain(s)) == []
  {
    var t := AfterDrain(s);
    assert NoneLinks(AtSlot(s.buffer, t.next), t.expected) by {
      GreedyIsMaximal(s.buffer, s.next, s.expected);
    }
    assert AtSlot(t.buffer, t.next) == AtSlot(s.buffer, t.next) by {
      DrainKeeps(s, t.next);
    }
    GreedyEmptyIff(t.buffer, t.next, t.expected);
  }

  // ---------------------------------------------------------------- runs

  datatype Step = Arrive(block: Block) | Drain

  ghost function Apply(s: Buffered, step: Step): Buffered {
    match step
    case Arrive(b) => if |s.buffer| >= MAX_SYNC_BUFFER then s else s.(buffer := s.buffer + [b])
    case Drain => AfterDrain(s)
  }

  ghost function Run(s: Buffered, steps: seq<Step>): Buffered {
    if steps == [] then s else Apply(Run(s, steps[..|steps| - 1]), steps[|steps| - 1])
  }

  /** Everything delivered so far, in order of delivery. */
  ghost function Delivered(s: Buffered, steps: seq<Step>): seq<Block> {
    if steps == [] then []
    else
      var n := |steps| - 1;
      var before := Delivered(s, steps[..n]);
      if steps[n].Drain? then before + Drained(Run(s, steps[..n])) else before
  }

  lemma {:induction false} ChainsJoin(a: seq<Block>, b: seq<Block>, next: nat, expected: Option<H256>)
    requires IsChain(a, next, expected) && IsChain(b, next + |a|, Tip(a, expected))
    ensures IsChain(a + b, next, expected) && Tip(a + b, expected) == Tip(b, Tip(a, expected))
  {
    forall i | 0 <= i < |a + b|
      ensures (a + b)[i].slot == next + i && Links((a + b)[i], Tip((a + b)[..i], expected))
    {
      if i < |a| {
        assert (a + b)[..i] == a[..i];
      } else {
        LinkJoins(a, b, i - |a|, expected);
      }
    }
    TipJoins(a, b, expected);
  }

  lemma {:induction false} TipJoins(a: seq<Block>, b: seq<Block>, expected: Option<H256>)
    ensures Tip(a + b, expected) == Tip(b, Tip(a, expected))
  {
    assert b == [] ==> a + b == a;
  }

  /** However blocks arrive and whenever the buffer is drained, everything ever delivered is one chain of
      consecutive slots, each block linked to the one before. */
  lemma {:induction false} DeliveriesFormOneChain(s: Buffered, steps: seq<Step>)
    ensures IsChain(Delivered(s, steps), s.next, s.expected)
    ensures Run(s, steps).next == s.next + |Delivered(s, steps)|
    ensures Run(s, steps).expected == Tip(Delivered(s, steps), s.expected)
    decreases |steps|
  {
    if steps != [] {
      var n := |steps| - 1;
      DeliveriesFormOneChain(s, steps[..n]);
      if steps[n].Drain? {
        var before := Run(s, steps[..n]);
        GreedyIsChain(before.buffer, before.next, before.expected);
        ChainsJoin(Delivered(s, steps[..n]), Drained(before), s.next, s.expected);
      }
    }
  }

  lemma {:induction false} SameBlocks(a: seq<Block>, b: seq<Block>)
    requires multiset(a) == multiset(b)
    ensures forall x :: x in a ==> x in b
  {
    forall x | x in a
      ensures x in b
    {
      assert x in multiset(a);
    }
  }

  ghost predicate AllFrom(list: seq<Block>, source: seq<Block>) {
    forall x :: x in list ==> x in source
  }

  lemma {:induction false} FromOneMore(list: seq<Block>, b: Block, source: seq<Block>)
    requires AllFrom(list, source) && b in source
    ensures AllFrom(list + [b], source)
  {
  }

  lemma {:induction false} StillFrom(a: seq<Block>, b: seq<Block>, c: seq<Block>, d: seq<Block>, source: seq<Block>)
    requires AllFrom(a, source) && AllFrom(b, source) && SortBySlot(b) == c + d
    ensures AllFrom(a + c, source) && AllFrom(d, source)
  {
    SortOrders(b);
    SameBlocks(c + d, b);
    assert forall x :: x in c || x in d ==> x in c + d;
  }

  // ---------------------------------------------------------------- the last slot

  /** Linked blocks of consecutive slots, the last slot number repeating once it is reached; and where they lead. */
  ghost predicate Continues(chain: seq<Block>, next: u64, expected: Option<H256>, next': u64, expected': Option<H256>) {
    && (forall i :: 0 <= i < |chain| ==>
          chain[i].slot == Min(next + i, U64_MAX) && Links(chain[i], Tip(chain[..i], expected)))
    && next' == Min(next + |chain|, U64_MAX) && expected' == Tip(chain, expected)
  }

  lemma {:induction false} ContinuesWith(chain: seq<Block>, b: Block, next: u64, expected: Option<H256>, next': u64,
                                         expected': Option<H256>)
    requires Continues(chain, next, expected, next', expected') && b.slot == next' && Links(b, expected')
    ensures Continues(chain + [b], next, expected, SaturatingAdd64(next', 1), Some(b.hash))
  {
    forall i | 0 <= i < |chain + [b]|
      ensures (chain + [b])[i].slot == Min(next + i, U64_MAX)
      ensures Links((chain + [b])[i], Tip((chain + [b])[..i], expected))
    {
      assert (chain + [b])[..i] == chain[..i];
    }
  }

  lemma {:induction false} ContinuesBy(a: seq<Block>, b: seq<Block>, next: u64, expected: Option<H256>, next': u64,
                                       expected': Option<H256>, next'': u64, expected'': Option<H256>)
    requires Continues(a, next, expected, next', expected') && Continues(b, next', expected', next'', expected'')
    ensures Continues(a + b, next, expected, next'', expected'')
  {
    forall i | 0 <= i < |a + b|
      ensures (a + b)[i].slot == Min(next + i, U64_MAX) && Links((a + b)[i], Tip((a + b)[..i], expected))
    {
      if i < |a| {
        assert (a + b)[..i] == a[..i];
      } else {
        var j: nat := i - |a|;
        assert b[j].slot == Min(next' + j, U64_MAX) && Links(b[j], Tip(b[..j], expected'));
        LinkJoins(a, b, j, expected);
      }
    }
    TipJoins(a, b, expected);
  }

  lemma {:induction false} LinkJoins(a: seq<Block>, b: seq<Block>, j: nat, expected: Option<H256>)
    requires j < |b|
    ensures (a + b)[|a| + j] == b[j] && Tip((a + b)[..|a| + j], expected) == Tip(b[..j], Tip(a, expected))
  {
    assert (a + b)[..|a| + j] == a + b[..j];
    TipJoins(a, b[..j], expected);
  }

  /** The pass has got through `prefix`, unless it delivered a block of the last slot. */
  ghost predicate Passed(prefix: seq<Block>, next: u64, expected: Option<H256>, ready: seq<Block>,
                         remaining: seq<Block>) {
    next + |Greedy(prefix, next, expected)| <= U64_MAX ==>
      ready == Greedy(prefix, next, expected) && remaining == Kept(prefix, next, expected)
  }

  lemma {:induction false} PassOneMore(prefix: seq<Block>, b: Block, next: u64, expected: Option<H256>,
                                       ready: seq<Block>, remaining: seq<Block>, next': u64, expected': Option<H256>)
    requires forall x :: x in prefix ==> x.slot <= b.slot
    requires Passed(prefix, next, expected, ready, remaining) && Continues(ready, next, expected, next', expected')
    ensures if b.slot == next' && Links(b, expected') then Passed(prefix + [b], next, expected, ready + [b], remaining)
            else if b.slot >= next' then Passed(prefix + [b], next, expected, ready, remaining + [b])
            else Passed(prefix + [b], next, expected, ready, remaining)
  {
    GreedyAppend(prefix, b, next, expected);
    assert (prefix + [b])[..|prefix|] == prefix;
  }

  ghost predicate Led(list: seq<Block>, next: u64, expected: Option<H256>, taken: seq<Block>) {
    next + |Leading(list, next, expected)| <= U64_MAX ==> taken == Leading(list, next, expected)
  }

  /** What the loop has taken and what it has still to take. */
  ghost predicate LedSoFar(list: seq<Block>, next: u64, expected: Option<H256>, taken: seq<Block>,
                           remaining: seq<Block>, next': u64, expected': Option<H256>) {
    next + |Leading(list, next, expected)| <= U64_MAX ==>
      Leading(list, next, expected) == taken + Leading(remaining, next', expected')
  }

  lemma {:induction false} LedOneMore(list: seq<Block>, next: u64, expected: Option<H256>, taken: seq<Block>,
                                      remaining: seq<Block>, next': u64, expected': Option<H256>)
    requires LedSoFar(list, next, expected, taken, remaining, next', expected')
    requires Continues(taken, next, expected, next', expected')
    requires remaining != [] && remaining[0].slot == next' && Links(remaining[0], expected')
    ensures LedSoFar(list, next, expected, taken + [remaining[0]], remaining[1..], SaturatingAdd64(next', 1),
                     Some(remaining[0].hash))
    ensures taken + remaining == taken + [remaining[0]] + remaining[1..]
  {
    LeadingStep(taken, remaining, next', expected');
  }

  lemma {:induction false} LedToTheEnd(list: seq<Block>, next: u64, expected: Option<H256>, taken: seq<Block>,
                                       remaining: seq<Block>, next': u64, expected': Option<H256>)
    requires LedSoFar(list, next, expected, taken, remaining, next', expected')
    requires remaining == [] || remaining[0].slot != next' || !Links(remaining[0], expected')
    ensures Led(list, next, expected, taken)
  {
    assert taken + [] == taken;
  }

  lemma {:induction false} SecondPassIdles(list: seq<Block>, next: u64, expected: Option<H256>, more: seq<Block>,
                                           rest: seq<Block>)
    requires SortedBySlot(list) && next + |Greedy(list, next, expected)| <= U64_MAX
    requires var chain, kept := Greedy(list, next, expected), Kept(list, next, expected);
             Led(SortBySlot(kept), next + |chain|, Tip(chain, expected), more) && SortBySlot(kept) == more + rest
    ensures more == [] && rest == Kept(list, next, expected)
  {
    KeptFits(list, next, expected);
    assert [] + rest == rest;
  }

  /** Both passes together. */
  lemma {:induction false} SecondPassAdds(sorted: seq<Block>, next: u64, expected: Option<H256>, first: seq<Block>,
                                          remaining: seq<Block>, more: seq<Block>, rest: seq<Block>)
    requires SortedBySlot(sorted) && Passed(sorted, next, expected, first, remaining)
    requires Led(SortBySlot(remaining), Min(next + |first|, U64_MAX), Tip(first, expected), more)
    requires SortBySlot(remaining) == more + rest
    ensures Passed(sorted, next, expected, first + more, rest)
  {
    if next + |Greedy(sorted, next, expected)| <= U64_MAX {
      SecondPassIdles(sorted, next, expected, more, rest);
      assert first + more == first;
    }
  }

  /** The expected slot can go past every delivered block. */
  ghost predicate HasNext(s: Buffered) {
    s.next + |Drained(s)| <= U64_MAX
  }

  /** It cannot exactly when a block of the last slot is delivered. */
  lemma {:induction false} HasNextIff(s: Buffered)
    requires s.next <= U64_MAX
    ensures HasNext(s) <==> forall b :: b in Drained(s) ==> b.slot < U64_MAX
  {
    var chain := Drained(s);
    GreedyIsChain(s.buffer, s.next, s.expected);
    if chain != [] {
      assert chain[|chain| - 1] in chain && chain[|chain| - 1].slot == s.next + |chain| - 1;
    }
  }

  // ---------------------------------------------------------------- the manager

  class SyncManager {
    var syncBuffer: seq<Block>
    var nextExpectedSlot: u64
    var expectedParentHash: Option<H256>

    constructor ()
      ensures Model() == Buffered([], 0, None)
    {
      syncBuffer, nextExpectedSlot, expectedParentHash := [], 0, None;
    }

    ghost function Model(): Buffered
      reads this
    {
      Buffered(syncBuffer, nextExpectedSlot, expectedParentHash)
    }

    method BufferBlock(block: Block) returns (ok: bool)
      modifies this`syncBuffer
      ensures Model() == Apply(old(Model()), Arrive(block))
      ensures ok <==> old(|syncBuffer|) < MAX_SYNC_BUFFER
    {
      if |syncBuffer| >= MAX_SYNC_BUFFER {
        return false;
      }
      syncBuffer := syncBuffer + [block];
      return true;
    }

    /** Deliver the blocks that continue the chain. What is delivered is always linked, and it and what stays were
        buffered. The drain is the one described above if and only if no block of the last slot is delivered. */
    method DrainReady() returns (ready: seq<Block>)
      modifies this
      ensures Model() == AfterDrain(old(Model())) <==> HasNext(old(Model()))
      ensures HasNext(old(Model())) ==> ready == Drained(old(Model()))
      ensures Continues(ready, old(nextExpectedSlot), old(expectedParentHash), nextExpectedSlot, expectedParentHash)
      ensures AllFrom(ready, old(syncBuffer)) && AllFrom(syncBuffer, old(syncBuffer))
    {
      if syncBuffer == [] {
        NothingAfter([], nextExpectedSlot, expectedParentHash);
        return [];
      }
      SortOrders(syncBuffer);
      SameBlocks(SortBySlot(syncBuffer), syncBuffer);
      GreedyOfSorted(syncBuffer, nextExpectedSlot, expectedParentHash);
      ready := DrainSorted(SortBySlot(syncBuffer));
    }

    method DrainSorted(sorted: seq<Block>) returns (ready: seq<Block>)
      modifies this
      requires SortedBySlot(sorted)
      ensures Passed(sorted, old(nextExpectedSlot), old(expectedParentHash), ready, syncBuffer)
      ensures Continues(ready, old(nextExpectedSlot), old(expectedParentHash), nextExpectedSlot, expectedParentHash)
      ensures AllFrom(ready, sorted) && AllFrom(syncBuffer, sorted)
    {
      ghost var next, expected := nextExpectedSlot, expectedParentHash;
      var first, remaining := FirstPass(sorted);
      ghost var next', expected' := nextExpectedSlot, expectedParentHash;
      var resorted := SortBySlot(remaining);
      var more, rest := SecondPass(resorted);
      SecondPassAdds(sorted, next, expected, first, remaining, more, rest);
      ContinuesBy(first, more, next, expected, next', expected', nextExpectedSlot, expectedParentHash);
      StillFrom(first, remaining, more, rest, sorted);
      ready := first + more;
      syncBuffer := rest;
    }

    /** The pass over the sorted buffer. */
    method FirstPass(sorted: seq<Block>) returns (ready: seq<Block>, remaining: seq<Block>)
      modifies this`nextExpectedSlot, this`expectedParentHash
      requires SortedBySlot(sorted)
      ensures Passed(sorted, old(nextExpectedSlot), old(expectedParentHash), ready, remaining)
      ensures Continues(ready, old(nextExpectedSlot), old(expectedParentHash), nextExpectedSlot, expectedParentHash)
      ensures AllFrom(ready, sorted) && AllFrom(remaining, sorted)
    {
      ghost var next, expected := nextExpectedSlot, expectedParentHash;
      ready, remaining := [], [];
      NothingAfter([], next, expected);
      for i := 0 to |sorted|
        invariant Passed(sorted[..i], next, expected, ready, remaining)
        invariant Continues(ready, next, expected, nextExpectedSlot, expectedParentHash)
        invariant AllFrom(ready, sorted) && AllFrom(remaining, sorted)
      {
        var block := sorted[i];
        assert sorted[..i + 1] == sorted[..i] + [block];
        PassOneMore(sorted[..i], block, next, expected, ready, remaining, nextExpectedSlot, expectedParentHash);
        FromOneMore(ready, block, sorted);
        FromOneMore(remaining, block, sorted);
        if block.slot == nextExpectedSlot {
          if expectedParentHash.Some? && block.parent != expectedParentHash.value && block.parent != ZERO_HASH {
            remaining := remaining + [block];
          } else {
            ContinuesWith(ready, block, next, expected, nextExpectedSlot, expectedParentHash);
            expectedParentHash := Some(block.hash);
            nextExpectedSlot := SaturatingAdd64(nextExpectedSlot, 1);
            ready := ready + [block];
          }
        } else if block.slot > nextExpectedSlot {
          remaining := remaining + [block];
        }
      }
      assert sorted[..|sorted|] == sorted;
    }

    /** The loop that continues with the remaining blocks. */
    method SecondPass(list: seq<Block>) returns (taken: seq<Block>, remaining: seq<Block>)
      modifies this`nextExpectedSlot, this`expectedParentHash
      ensures Led(list, old(nextExpectedSlot), old(expectedParentHash), taken)
      ensures Continues(taken, old(nextExpectedSlot), old(expectedParentHash), nextExpectedSlot, expectedParentHash)
      ensures list == taken + remaining
    {
      ghost var next, expected := nextExpectedSlot, expectedParentHash;
      taken, remaining := [], list;
      while remaining != [] && remaining[0].slot == nextExpectedSlot
        invariant list == taken + remaining
        invariant LedSoFar(list, next, expected, taken, remaining, nextExpectedSlot, expectedParentHash)
        invariant Continues(taken, next, expected, nextExpectedSlot, expectedParentHash)
        decreases |remaining|
      {
        var block := remaining[0];
        if expectedParentHash.Some? && block.parent != expectedParentHash.value && block.parent != ZERO_HASH {
          break;
        }
        LedOneMore(list, next, expected, taken, remaining, nextExpectedSlot, expectedParentHash);
        ContinuesWith(taken, block, next, expected, nextExpectedSlot, expectedParentHash);
        expectedParentHash := Some(block.hash);
        nextExpectedSlot := SaturatingAdd64(nextExpectedSlot, 1);
        taken, remaining := taken + [block], remaining[1..];
      }
      LedToTheEnd(list, next, expected, taken, remaining, nextExpectedSlot, expectedParentHash);
    }
  }
}
