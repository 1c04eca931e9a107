/** Moving a book from one compression map to another, on values. */
module MoveFacts {
  import opened Types
  import opened Compression
  import opened Arena
  import opened PriceTime
  import opened Levels
  import opened Arrangement
  import opened BookFacts

  /** `whole` is divided between the active levels and the old ones. */
  ghost predicate Divided(whole: Book, live: Book, left: Book) {
    && (forall h :: h in whole <==> h in live || h in left)
    && (forall h | h in live :: h !in left && live[h] == whole[h])
    && (forall h | h in left :: left[h] == whole[h])
  }

  /** Old slots have been moved whole: none holds both moved and unmoved orders. */
  ghost predicate Apart(whole: Book, live: Book, left: Book, was: CompressionMap) {
    forall g, h | g in live && h in left && g in whole && h in whole ::
      SlotOf(was, whole[g].price) != SlotOf(was, whole[h].price)
  }

  /** The orders of `left` outside one old slot. */
  ghost function Outside(left: Book, was: CompressionMap, idx: int): Book {
    map h | h in left && SlotOf(was, left[h].price) != idx :: left[h]
  }

  /**
   * Old slot `idx` is being emptied: `p` is still to move, `rest` stays behind in the other old
   * slots, everything else has moved.
   */
  ghost predicate Emptying(
    slots: seq<OrderSlot>, whole: Book, live: Book, left: Book, rest: Book, p: seq<nat>,
    was: CompressionMap, idx: int, levels: seq<PriceLevel>, queues: seq<seq<nat>>)
  {
    && Divided(whole, live, left)
    && Divided(left, rest, Chosen(left, p)) && Resting(left, p)
    && Arranged(slots, rest, was, levels, queues)
    && Walkable(slots, left, p) && Distinct(p)
    && (forall h | h in rest :: SlotOf(was, rest[h].price) != idx)
    && (forall h | h in p && h in left :: SlotOf(was, left[h].price) == idx)
    && Apart(whole, live, rest, was)
    && InArrival(whole, live, p)
  }

  ghost function Chosen(left: Book, p: seq<nat>): Book {
    map h | h in left && h in p :: left[h]
  }

  /** At one price, moved orders are older than those still to move, which are in arrival order. */
  ghost predicate InArrival(whole: Book, live: Book, p: seq<nat>) {
    && Resting(whole, p) && Fifo(whole, p)
    && forall g, h | g in live && h in p && g in whole && whole[g].side == whole[h].side && whole[g].price == whole[h].price ::
         whole[g].stamp < whole[h].stamp
  }

  // ---------------------------------------------------------------------
  // Starting and finishing one old slot.

  lemma OutsideArranged(
    slots: seq<OrderSlot>, left: Book, was: CompressionMap, levels: seq<PriceLevel>, queues: seq<seq<nat>>, idx: nat)
    requires Arranged(slots, left, was, levels, queues) && idx < |queues| == |levels|
    ensures Arranged(slots, Outside(left, was, idx), was, levels[idx := DEFAULT_LEVEL], queues[idx := []])
    ensures forall h :: h in queues[idx] <==> h in left && h !in Outside(left, was, idx)
  {
    hide Arranged, PriceToIndex, LevelOk;
    ArrangedShaped(slots, left, was, levels, queues);
    ArrangedLevel(slots, left, was, levels, queues, idx);
    forall h | h in left ensures h in queues[idx] <==> SlotOf(was, left[h].price) == idx {
      ArrangedOrder(slots, left, was, levels, queues, h);
    }
    EmptyLevelOk(slots, Outside(left, was, idx), was, idx);
    ArrangedUpdate(slots, left, slots, Outside(left, was, idx), was, levels, queues, idx, DEFAULT_LEVEL, []);
  }

  lemma EmptyingStarts(
    slots: seq<OrderSlot>, whole: Book, live: Book, left: Book, was: CompressionMap, idx: nat,
    levels: seq<PriceLevel>, queues: seq<seq<nat>>)
    requires Divided(whole, live, left) && Apart(whole, live, left, was)
    requires Arranged(slots, left, was, levels, queues) && idx < |queues| == |levels| && |slots| <= NONE
    ensures Emptying(slots, whole, live, left, Outside(left, was, idx), queues[idx], was, idx,
                     levels[idx := DEFAULT_LEVEL], queues[idx := []])
    ensures levels[idx].head == HeadOf(queues[idx])
  {
    hide Arranged, PriceToIndex, Walkable, Stores;
    OutsideArranged(slots, left, was, levels, queues, idx);
    LevelWalk(slots, left, was, levels, queues, idx);
    StartsInArrival(slots, whole, live, left, was, idx, levels, queues);
  }

  lemma StartsInArrival(
    slots: seq<OrderSlot>, whole: Book, live: Book, left: Book, was: CompressionMap, idx: nat,
    levels: seq<PriceLevel>, queues: seq<seq<nat>>)
    requires Divided(whole, live, left) && Apart(whole, live, left, was)
    requires Arranged(slots, left, was, levels, queues) && idx < |queues| == |levels|
    ensures InArrival(whole, live, queues[idx])
  {
    hide Arranged, PriceToIndex, Stores, Linked, Counts;
    ArrangedLevel(slots, left, was, levels, queues, idx);
  }

  lemma EmptyingEnds(
    slots: seq<OrderSlot>, whole: Book, live: Book, left: Book, rest: Book,
    was: CompressionMap, idx: int, levels: seq<PriceLevel>, queues: seq<seq<nat>>)
    requires Emptying(slots, whole, live, left, rest, [], was, idx, levels, queues)
    ensures left == rest && Divided(whole, live, left) && Apart(whole, live, left, was)
    ensures Arranged(slots, left, was, levels, queues)
  {
    hide Arranged, SlotOf, Walkable, Apart;
    assert Chosen(left, []) == map[];
    assert left == rest;
  }

  // ---------------------------------------------------------------------
  // Moving one order.

  /** Writing the new slot index into an unmoved order disturbs nothing and makes it linkable. */
  lemma RetickFacts(
    slots: seq<OrderSlot>, freeHead: nat, bumpNext: nat, free: seq<nat>, whole: Book, live: Book, left: Book,
    comp: CompressionMap, levels: seq<PriceLevel>, queues: seq<seq<nat>>, sequence: nat, p: seq<nat>, h: nat)
    requires Shaped(comp) && Arranged(slots, live, comp, levels, queues) && SlabOk(slots, freeHead, bumpNext, free)
    requires Recorded(whole, comp.tick, sequence) && Divided(whole, live, left)
    requires Owned(slots, bumpNext, free, live, left) && InArrival(whole, live, p) && h in p && h in left
    requires h < |slots| && Stores(slots[h], left[h], slots[h].tick) && PriceToIndex(comp, left[h].price) >= 0
    ensures var slot := slots[h].(tick := PriceToIndex(comp, left[h].price));
            && Arranged(slots[h := slot], live, comp, levels, queues)
            && SlabOk(slots[h := slot], freeHead, bumpNext, free)
            && Linkable(slots[h := slot], free, live, comp, sequence, h, left[h])
  {
    hide Arranged, PriceToIndex, SlabOk;
    var slot := slots[h].(tick := PriceToIndex(comp, left[h].price));
    ArrangedFrame(slots, slots[h := slot], live, comp, levels, queues);
    SlabFrame(slots, slots[h := slot], freeHead, bumpNext, free);
  }

  lemma OwnedMove(
    slots: seq<OrderSlot>, bumpNext: nat, free: seq<nat>, live: Book, left: Book, slots': seq<OrderSlot>, h: nat)
    requires Owned(slots, bumpNext, free, live, left) && h in left && |slots| == |slots'|
    requires forall g {:trigger slots'[g]} | 0 <= g < |slots| && g !in live && g != h :: slots'[g] == slots[g]
    ensures Owned(slots', bumpNext, free, live[h := left[h]], left - {h})
  {
  }

  /** Only the moved order and orders already moved changed their slots. */
  ghost predicate OthersKept(slots: seq<OrderSlot>, slots': seq<OrderSlot>, live: Book, h: nat) {
    && |slots| == |slots'|
    && forall g {:trigger slots'[g]} | 0 <= g < |slots| && g !in live && g != h :: slots'[g] == slots[g]
  }

  lemma MoveKept(slots: seq<OrderSlot>, slots1: seq<OrderSlot>, slots2: seq<OrderSlot>, live: Book, h: nat)
    requires |slots| == |slots1| && forall g | 0 <= g < |slots| && g != h :: slots1[g] == slots[g]
    requires LinksOnly(slots1, slots2, live, h)
    ensures OthersKept(slots, slots2, live, h)
  {
  }

  lemma DividedMove(whole: Book, live: Book, left: Book, h: nat)
    requires Divided(whole, live, left) && h in left
    ensures Divided(whole, live[h := left[h]], left - {h}) && h in whole && left[h] == whole[h]
  {
  }

  lemma ArrivalMove(whole: Book, live: Book, p: seq<nat>)
    requires InArrival(whole, live, p) && p != [] && Distinct(p)
    ensures InArrival(whole, live[p[0] := whole[p[0]]], p[1..])
  {
    var q: seq<nat> := p[1..];
    forall i, j | 0 <= i < j < |q| && whole[q[i]].side == whole[q[j]].side && whole[q[i]].price == whole[q[j]].price
      ensures whole[q[i]].stamp < whole[q[j]].stamp
    {
      assert q[i] == p[i + 1] && q[j] == p[j + 1];
    }
    forall g, h | g in live[p[0] := whole[p[0]]] && h in q && g in whole && whole[g].side == whole[h].side
                  && whole[g].price == whole[h].price
      ensures whole[g].stamp < whole[h].stamp
    {
      if g == p[0] {
        var j :| 0 <= j < |q| && q[j] == h;
        assert p[j + 1] == h;
      }
    }
  }

  lemma WalkableTail(slots: seq<OrderSlot>, slots': seq<OrderSlot>, live: Book, left: Book, p: seq<nat>)
    requires Walkable(slots, left, p) && p != [] && Distinct(p) && OthersKept(slots, slots', live, p[0])
    requires forall h | h in p :: h !in live
    ensures Walkable(slots', left - {p[0]}, p[1..])
  {
    hide Stores;
    var q: seq<nat> := p[1..];
    forall i {:trigger q[i]} | 0 <= i < |q|
      ensures && q[i] < |slots'| && q[i] in left - {p[0]} && slots'[q[i]].next == NextOf(q, i)
              && Stores(slots'[q[i]], left[q[i]], slots'[q[i]].tick)
    {
      assert q[i] == p[i + 1] && p[0] != p[i + 1] && p[i + 1] in p;
    }
  }

  lemma ChosenTail(left: Book, rest: Book, p: seq<nat>)
    requires Divided(left, rest, Chosen(left, p)) && Resting(left, p) && p != [] && Distinct(p)
    ensures p[0] in left && p[0] !in rest && Resting(left - {p[0]}, p[1..])
    ensures Divided(left - {p[0]}, rest, Chosen(left - {p[0]}, p[1..]))
  {
    TailDistinct(p);
  }

  lemma EmptyingMoves(
    slots: seq<OrderSlot>, slots': seq<OrderSlot>, whole: Book, live: Book, left: Book, rest: Book, p: seq<nat>,
    was: CompressionMap, idx: int, levels: seq<PriceLevel>, queues: seq<seq<nat>>)
    requires Emptying(slots, whole, live, left, rest, p, was, idx, levels, queues) && p != []
    requires OthersKept(slots, slots', live, p[0])
    ensures p[0] in left && p[0] in whole && left[p[0]] == whole[p[0]]
    ensures Emptying(slots', whole, live[p[0] := left[p[0]]], left - {p[0]}, rest, p[1..], was, idx, levels, queues)
  {
    hide Arranged, SlotOf, Walkable, Fifo, Distinct, InArrival;
    var h := p[0];
    TailDistinct(p);
    ChosenTail(left, rest, p);
    DividedMove(whole, live, left, h);
    ArrivalMove(whole, live, p);
    RestKept(slots, slots', whole, live, left, rest, h, was, levels, queues);
    WalkableTail(slots, slots', live, left, p);
  }

  lemma RestKept(
    slots: seq<OrderSlot>, slots': seq<OrderSlot>, whole: Book, live: Book, left: Book, rest: Book, h: nat,
    was: CompressionMap, levels: seq<PriceLevel>, queues: seq<seq<nat>>)
    requires Arranged(slots, rest, was, levels, queues) && OthersKept(slots, slots', live, h)
    requires forall g | g in rest :: g !in live && g != h
    ensures Arranged(slots', rest, was, levels, queues)
  {
    hide Arranged;
    ArrangedFrame(slots, slots', rest, was, levels, queues);
  }

  lemma KeptOwned(
    slots: seq<OrderSlot>, bumpNext: nat, free: seq<nat>, live: Book, left: Book, slots': seq<OrderSlot>, h: nat)
    requires Owned(slots, bumpNext, free, live, left) && h in left && OthersKept(slots, slots', live, h)
    ensures Owned(slots', bumpNext, free, live[h := left[h]], left - {h})
  {
    OwnedMove(slots, bumpNext, free, live, left, slots', h);
  }

  /** What is known of the order about to move. */
  lemma NextToMove(
    slots: seq<OrderSlot>, whole: Book, live: Book, left: Book, rest: Book, p: seq<nat>,
    was: CompressionMap, idx: int, levels: seq<PriceLevel>, queues: seq<seq<nat>>)
    requires Emptying(slots, whole, live, left, rest, p, was, idx, levels, queues) && p != []
    ensures Divided(whole, live, left) && InArrival(whole, live, p)
    ensures p[0] in p && p[0] in left && p[0] !in live && p[0] < |slots|
    ensures Stores(slots[p[0]], left[p[0]], slots[p[0]].tick)
    ensures slots[p[0]].price == left[p[0]].price && slots[p[0]].side == left[p[0]].side
    ensures slots[p[0]].next == HeadOf(p[1..])
  {
    hide Arranged, SlotOf, Fifo, Distinct, InArrival, Apart;
    assert slots[p[0]].next == NextOf(p, 0);
  }

  lemma AllMoved(
    slots: seq<OrderSlot>, whole: Book, live: Book, left: Book, rest: Book, p: seq<nat>,
    was: CompressionMap, idx: int, levels: seq<PriceLevel>, queues: seq<seq<nat>>)
    requires Emptying(slots, whole, live, left, rest, p, was, idx, levels, queues) && HeadOf(p) == NONE
    ensures p == []
  {
    hide Arranged, SlotOf, Fifo, Distinct, InArrival, Apart, Divided, Stores;
    assert p[0..] == p;
    WalkEnd(slots, left, p, 0);
  }

  /** An old slot that holds nothing, or does not exist, leaves nothing to move. */
  lemma NothingAt(
    slots: seq<OrderSlot>, left: Book, was: CompressionMap, levels: seq<PriceLevel>, queues: seq<seq<nat>>, idx: nat)
    requires Arranged(slots, left, was, levels, queues)
    requires idx >= |levels| || levels[idx].orderCount == 0
    ensures Outside(left, was, idx) == left
  {
    hide Arranged, PriceToIndex, Linked, Fifo, Stores;
    ArrangedShaped(slots, left, was, levels, queues);
    forall h | h in left ensures SlotOf(was, left[h].price) != idx {
      ArrangedOrder(slots, left, was, levels, queues, h);
      if idx < |levels| {
        ArrangedLevel(slots, left, was, levels, queues, idx);
      }
    }
  }

  // ---------------------------------------------------------------------
  // Swapping the maps.

  lemma OwnedSwap(slots: seq<OrderSlot>, bumpNext: nat, free: seq<nat>, book: Book)
    requires Owned(slots, bumpNext, free, book, map[])
    ensures Owned(slots, bumpNext, free, map[], book)
  {
  }

  /** At the start everything is still to move. */
  lemma AllLeft(book: Book, comp: CompressionMap, was: CompressionMap, tick: int, sequence: nat)
    requires Shaped(comp) && Recorded(book, tick, sequence)
    ensures Divided(book, map[], book) && Apart(book, map[], book, was)
    ensures Recorded(map[], tick, sequence)
    ensures BestOk(map[], comp, Buy, NONE, 0) && BestOk(map[], comp, Sell, NONE, 0)
  {
    hide Shaped;
  }

  /** At the end nothing is left to move. */
  lemma AllLive(whole: Book, live: Book, left: Book)
    requires Divided(whole, live, left) && left == map[]
    ensures live == whole
  {
  }

  lemma NewMapTick(mid: int, tick: int)
    requires tick >= 1
    ensures NewMap(mid, tick).tick == tick
  {
  }

  // ---------------------------------------------------------------------
  // Emptying all old slots in turn.

  /** Nothing is left in the old slots below `i`. */
  ghost predicate EmptyBelow(left: Book, was: CompressionMap, i: int) {
    forall h | h in left :: SlotOf(was, left[h].price) >= i
  }

  lemma EmptyBelowStart(
    slots: seq<OrderSlot>, left: Book, was: CompressionMap, levels: seq<PriceLevel>, queues: seq<seq<nat>>)
    requires Arranged(slots, left, was, levels, queues)
    ensures EmptyBelow(left, was, 0)
  {
    hide Arranged, PriceToIndex, Stores;
    forall h | h in left ensures SlotOf(was, left[h].price) >= 0 { ArrangedOrder(slots, left, was, levels, queues, h); }
  }

  lemma EmptyBelowStep(left: Book, was: CompressionMap, i: int)
    requires EmptyBelow(left, was, i)
    ensures EmptyBelow(Outside(left, was, i), was, i + 1)
  {
    hide SlotOf;
  }

  lemma EmptyBelowEnd(
    slots: seq<OrderSlot>, left: Book, was: CompressionMap, levels: seq<PriceLevel>, queues: seq<seq<nat>>)
    requires Arranged(slots, left, was, levels, queues) && EmptyBelow(left, was, |levels|)
    ensures left == map[]
  {
    hide Arranged, PriceToIndex, Stores;
    forall h | h in left ensures false { ArrangedOrder(slots, left, was, levels, queues, h); }
  }
}
