/** The whole level array: which queue holds which order, and what is best. */
module Arrangement {
  import opened Types
  import opened Compression
  import opened Arena
  import opened PriceTime
  import opened Levels

  /** Every order of `book` is in the queue of its price's slot, and every level is in order. */
  ghost predicate Arranged(
    slots: seq<OrderSlot>, book: Book, comp: CompressionMap, levels: seq<PriceLevel>, queues: seq<seq<nat>>)
  {
    && Shaped(comp)
    && |levels| == |queues| == TotalSlots(comp)
    && (forall t {:trigger queues[t]} | 0 <= t < |queues| :: LevelOk(slots, book, comp, t, levels[t], queues[t]))
    && (forall h {:trigger book[h]} | h in book :: Queued(book[h].price, comp, queues, h))
  }

  predicate Queued(price: int, comp: CompressionMap, queues: seq<seq<nat>>, h: nat)
    requires Shaped(comp)
  {
    0 <= PriceToIndex(comp, price) < |queues| && h in queues[PriceToIndex(comp, price)]
  }

  /** The slot of a price, for any map. */
  function SlotOf(comp: CompressionMap, price: int): int {
    if Shaped(comp) then PriceToIndex(comp, price) else -1
  }

  lemma ArrangedLevel(
    slots: seq<OrderSlot>, book: Book, comp: CompressionMap, levels: seq<PriceLevel>, queues: seq<seq<nat>>, t: nat)
    requires Arranged(slots, book, comp, levels, queues) && t < |queues|
    ensures |levels| == |queues| && LevelOk(slots, book, comp, t, levels[t], queues[t])
    ensures forall h | h in queues[t] :: h in book && h < |slots| && PriceToIndex(comp, book[h].price) == t
  {
    hide PriceToIndex, Linked, Counts, Fifo, Distinct;
  }

  lemma ArrangedShaped(
    slots: seq<OrderSlot>, book: Book, comp: CompressionMap, levels: seq<PriceLevel>, queues: seq<seq<nat>>)
    requires Arranged(slots, book, comp, levels, queues)
    ensures Shaped(comp) && |levels| == |queues| == TotalSlots(comp)
  {
  }

  lemma ArrangedOrder(
    slots: seq<OrderSlot>, book: Book, comp: CompressionMap, levels: seq<PriceLevel>, queues: seq<seq<nat>>, h: nat)
    requires Arranged(slots, book, comp, levels, queues) && h in book
    ensures Shaped(comp) && |levels| == |queues|
    ensures var t := PriceToIndex(comp, book[h].price);
            && 0 <= t < |queues| && h in queues[t]
            && h < |slots| && Stores(slots[h], book[h], t)
  {
    hide PriceToIndex, Linked, Counts, Fifo, Distinct;
    assert Queued(book[h].price, comp, queues, h);
  }

  lemma ArrangedBounds(
    slots: seq<OrderSlot>, book: Book, comp: CompressionMap, levels: seq<PriceLevel>, queues: seq<seq<nat>>)
    requires Arranged(slots, book, comp, levels, queues)
    ensures forall h | h in book :: h < |slots|
  {
    hide Arranged, Stores, PriceToIndex;
    forall h | h in book ensures h < |slots| { ArrangedOrder(slots, book, comp, levels, queues, h); }
  }

  /** Slots outside the book do not matter to the array. */
  lemma ArrangedFrame(
    slots: seq<OrderSlot>, slots': seq<OrderSlot>, book: Book, comp: CompressionMap, levels: seq<PriceLevel>,
    queues: seq<seq<nat>>)
    requires Arranged(slots, book, comp, levels, queues) && |slots| == |slots'|
    requires forall h | h in book && h < |slots| :: slots'[h] == slots[h]
    ensures Arranged(slots', book, comp, levels, queues)
  {
    hide LevelOk, PriceToIndex;
    forall t | 0 <= t < |queues| ensures LevelOk(slots', book, comp, t, levels[t], queues[t]) {
      ArrangedLevel(slots, book, comp, levels, queues, t);
      LevelFrame(slots, book, slots', book, comp, t, levels[t], queues[t]);
    }
  }

  /** Changing one level and nothing of the others keeps the array in order. */
  lemma ArrangedUpdate(
    slots: seq<OrderSlot>, book: Book, slots': seq<OrderSlot>, book': Book,
    comp: CompressionMap, levels: seq<PriceLevel>, queues: seq<seq<nat>>, t: nat, lvl: PriceLevel, q: seq<nat>)
    requires Arranged(slots, book, comp, levels, queues) && t < |queues| && |slots| == |slots'|
    requires LevelOk(slots', book', comp, t, lvl, q)
    requires forall h | h in book && h !in queues[t] :: h in book' && book'[h] == book[h] && slots'[h] == slots[h]
    requires forall h | h in book' :: h in q || (h in book && h !in queues[t])
    ensures Arranged(slots', book', comp, levels[t := lvl], queues[t := q])
  {
    hide LevelOk, PriceToIndex;
    var levels', queues' := levels[t := lvl], queues[t := q];
    forall u | 0 <= u < |queues'| ensures LevelOk(slots', book', comp, u, levels'[u], queues'[u]) {
      if u != t {
        ArrangedLevel(slots, book, comp, levels, queues, u);
        ArrangedLevel(slots, book, comp, levels, queues, t);
        LevelFrame(slots, book, slots', book', comp, u, levels[u], queues[u]);
      }
    }
    LevelMembers(slots', book', comp, t, lvl, q);
    forall h | h in book' ensures Queued(book'[h].price, comp, queues', h) {
      if h !in q {
        ArrangedOrder(slots, book, comp, levels, queues, h);
      }
    }
  }

  lemma LevelMembers(slots: seq<OrderSlot>, book: Book, comp: CompressionMap, t: nat, lvl: PriceLevel, q: seq<nat>)
    requires Shaped(comp) && LevelOk(slots, book, comp, t, lvl, q)
    ensures forall h | h in q :: h in book && PriceToIndex(comp, book[h].price) == t
  {
    hide PriceToIndex, Linked, Counts, Fifo, Distinct;
  }

  // ---------------------------------------------------------------------
  // The three changes a book operation makes to the array.

  lemma InsertArranged(
    slots: seq<OrderSlot>, book: Book, comp: CompressionMap, levels: seq<PriceLevel>, queues: seq<seq<nat>>,
    h: nat, o: Order)
    requires Arranged(slots, book, comp, levels, queues)
    requires h < |slots| && h !in book && 0 <= PriceToIndex(comp, o.price) < |queues|
    requires Stores(slots[h], o, PriceToIndex(comp, o.price))
    requires forall g | g in book && book[g].side == o.side && book[g].price == o.price :: book[g].stamp < o.stamp
    ensures var t := PriceToIndex(comp, o.price);
            && (levels[t].orderCount > 0 ==> levels[t].tail < |slots| && levels[t].tail in book)
            && Arranged(AppendSlots(slots, levels[t], h), book[h := o], comp,
                        levels[t := AppendLevel(levels[t], h, o.qty, o.side)], queues[t := queues[t] + [h]])
  {
    hide LevelOk, PriceToIndex, AppendSlots, Stores;
    var t := PriceToIndex(comp, o.price);
    var lvl, q := levels[t], queues[t];
    ArrangedLevel(slots, book, comp, levels, queues, t);
    AppendOk(slots, book, comp, t, lvl, q, h, o);
    TailMember(slots, book, comp, t, lvl, q);
    AppendFrame(slots, lvl, h);
    ArrangedBounds(slots, book, comp, levels, queues);
    ArrangedUpdate(slots, book, AppendSlots(slots, lvl, h), book[h := o], comp, levels, queues, t,
                   AppendLevel(lvl, h, o.qty, o.side), q + [h]);
  }

  /** The queues after `h` joins the tail of queue `t`. */
  ghost function Enqueued(queues: seq<seq<nat>>, t: int, h: nat): seq<seq<nat>> {
    if 0 <= t < |queues| then queues[t := queues[t] + [h]] else queues
  }

  lemma TailMember(slots: seq<OrderSlot>, book: Book, comp: CompressionMap, t: nat, lvl: PriceLevel, q: seq<nat>)
    requires Shaped(comp) && LevelOk(slots, book, comp, t, lvl, q)
    ensures lvl.orderCount > 0 ==> lvl.tail in q
  {
  }

  lemma AppendFrame(slots: seq<OrderSlot>, lvl: PriceLevel, h: nat)
    requires h < |slots| && (lvl.orderCount > 0 ==> lvl.tail < |slots|)
    ensures forall g {:trigger AppendSlots(slots, lvl, h)[g]}
              | 0 <= g < |slots| && g != h && !(lvl.orderCount > 0 && g == lvl.tail) ::
              AppendSlots(slots, lvl, h)[g] == slots[g]
  {
  }

  ghost function IndexOf(q: seq<nat>, h: nat): (k: nat)
    requires h in q
    ensures k < |q| && q[k] == h
  {
    var k :| 0 <= k < |q| && q[k] == h;
    k
  }

  /** The queue without `h`, everything else in its place. */
  ghost function Removed(q: seq<nat>, h: nat): seq<nat>
    requires h in q
  {
    Without(q, IndexOf(q, h))
  }

  lemma RemoveArranged(
    slots: seq<OrderSlot>, book: Book, comp: CompressionMap, levels: seq<PriceLevel>, queues: seq<seq<nat>>, h: nat)
    requires Arranged(slots, book, comp, levels, queues) && |slots| <= NONE && h in book
    ensures var t := PriceToIndex(comp, book[h].price);
            && 0 <= t < |queues| && h < |slots| && h in queues[t]
            && (slots[h].prev != NONE ==> slots[h].prev < |slots| && slots[h].prev in book)
            && (slots[h].next != NONE ==> slots[h].next < |slots| && slots[h].next in book)
            && Arranged(UnlinkSlots(slots, h), book - {h}, comp,
                        levels[t := UnlinkLevel(levels[t], slots[h])], queues[t := Removed(queues[t], h)])
  {
    hide LevelOk, PriceToIndex, UnlinkSlots, Stores;
    ArrangedOrder(slots, book, comp, levels, queues, h);
    var t := PriceToIndex(comp, book[h].price);
    var lvl, q := levels[t], queues[t];
    var k := IndexOf(q, h);
    ArrangedLevel(slots, book, comp, levels, queues, t);
    RemoveOk(slots, book, comp, t, lvl, q, k);
    NeighbourMembers(slots, book, comp, t, lvl, q, k);
    UnlinkFrame(slots, h);
    ArrangedBounds(slots, book, comp, levels, queues);
    ArrangedUpdate(slots, book, UnlinkSlots(slots, h), book - {h}, comp, levels, queues, t,
                   UnlinkLevel(lvl, slots[h]), Without(q, k));
  }

  /** The queues after `h` leaves queue `t`. */
  ghost function Dequeued(queues: seq<seq<nat>>, t: int, h: nat): seq<seq<nat>> {
    if 0 <= t < |queues| && h in queues[t] then queues[t := Removed(queues[t], h)] else queues
  }

  lemma NeighbourMembers(
    slots: seq<OrderSlot>, book: Book, comp: CompressionMap, t: nat, lvl: PriceLevel, q: seq<nat>, k: nat)
    requires Shaped(comp) && LevelOk(slots, book, comp, t, lvl, q) && |slots| <= NONE && k < |q|
    ensures slots[q[k]].prev != NONE ==> slots[q[k]].prev in q
    ensures slots[q[k]].next != NONE ==> slots[q[k]].next in q
    ensures forall g :: g in q <==> g in Without(q, k) || g == q[k]
  {
    LinksInRange(slots, lvl, q, k);
    WithoutMembers(q, k);
    hide PriceToIndex, Counts, Fifo;
  }

  lemma UnlinkFrame(slots: seq<OrderSlot>, h: nat)
    requires h < |slots|
    requires slots[h].prev != NONE ==> slots[h].prev < |slots|
    requires slots[h].next != NONE ==> slots[h].next < |slots|
    ensures forall g {:trigger UnlinkSlots(slots, h)[g]}
              | 0 <= g < |slots| && !(slots[h].prev != NONE && g == slots[h].prev)
                && !(slots[h].next != NONE && g == slots[h].next) ::
              UnlinkSlots(slots, h)[g] == slots[g]
  {
  }

  lemma RequantifyArranged(
    slots: seq<OrderSlot>, book: Book, comp: CompressionMap, levels: seq<PriceLevel>, queues: seq<seq<nat>>,
    h: nat, qty: int)
    requires Arranged(slots, book, comp, levels, queues) && h in book
    ensures var t := PriceToIndex(comp, book[h].price);
            && 0 <= t < |queues| && h < |slots|
            && Arranged(slots[h := slots[h].(remaining := qty)], book[h := book[h].(qty := qty)], comp,
                        levels[t := levels[t].(totalQty := levels[t].totalQty - (book[h].qty - qty))], queues)
  {
    hide LevelOk, PriceToIndex, Stores;
    ArrangedOrder(slots, book, comp, levels, queues, h);
    var t := PriceToIndex(comp, book[h].price);
    ArrangedLevel(slots, book, comp, levels, queues, t);
    RequantifyOk(slots, book, comp, t, levels[t], queues[t], h, qty);
    ArrangedBounds(slots, book, comp, levels, queues);
    ArrangedUpdate(slots, book, slots[h := slots[h].(remaining := qty)], book[h := book[h].(qty := qty)],
                   comp, levels, queues, t, levels[t].(totalQty := levels[t].totalQty - (book[h].qty - qty)), queues[t]);
    assert queues[t := queues[t]] == queues;
  }

  // ---------------------------------------------------------------------
  // Per-side occupancy.

  function SideCount(lvl: PriceLevel, side: Side): nat {
    if side == Buy then lvl.bidCount else lvl.askCount
  }

  /** The slots marked for a side are the ones holding an order of that side. */
  ghost predicate Marked(levels: seq<PriceLevel>, side: Side, members: set<nat>) {
    forall t: nat :: t in members <==> t < |levels| && SideCount(levels[t], side) > 0
  }

  lemma MarkChange(levels: seq<PriceLevel>, side: Side, members: set<nat>, t: nat, lvl: PriceLevel)
    requires Marked(levels, side, members) && t < |levels|
    ensures SideCount(lvl, side) > 0 ==> Marked(levels[t := lvl], side, members + {t})
    ensures SideCount(lvl, side) == 0 ==> Marked(levels[t := lvl], side, members - {t})
    ensures (SideCount(lvl, side) > 0 <==> SideCount(levels[t], side) > 0) ==> Marked(levels[t := lvl], side, members)
  {
  }

  /** The marks after an order joins or leaves level `t` on one side. */
  lemma MarkAppend(levels: seq<PriceLevel>, bids: set<nat>, asks: set<nat>, t: nat, h: nat, qty: int, side: Side)
    requires Marked(levels, Buy, bids) && Marked(levels, Sell, asks) && t < |levels|
    ensures SideCount(levels[t], side) > 0 ==> t in if side == Buy then bids else asks
    ensures var after := levels[t := AppendLevel(levels[t], h, qty, side)];
            && Marked(after, Buy, if side == Buy then bids + {t} else bids)
            && Marked(after, Sell, if side == Sell then asks + {t} else asks)
  {
    var level := AppendLevel(levels[t], h, qty, side);
    MarkChange(levels, Buy, bids, t, level);
    MarkChange(levels, Sell, asks, t, level);
  }

  lemma MarkUnlink(levels: seq<PriceLevel>, bids: set<nat>, asks: set<nat>, t: nat, slot: OrderSlot)
    requires Marked(levels, Buy, bids) && Marked(levels, Sell, asks) && t < |levels|
    requires SideCount(levels[t], slot.side) > 0
    ensures var level := UnlinkLevel(levels[t], slot);
            var after := levels[t := level];
            var gone := SideCount(level, slot.side) == 0;
            && Marked(after, Buy, if slot.side == Buy && gone then bids - {t} else bids)
            && Marked(after, Sell, if slot.side == Sell && gone then asks - {t} else asks)
  {
    var level := UnlinkLevel(levels[t], slot);
    MarkChange(levels, Buy, bids, t, level);
    MarkChange(levels, Sell, asks, t, level);
  }

  lemma {:induction false} TallyAtLeastOne(side: Side, book: Book, q: seq<nat>, h: nat)
    requires (forall g | g in q :: g in book) && h in q && book[h].side == side
    ensures Tally(OnSide(side), book, q) >= 1
  {
    CountNonNeg(OnSide(side), book, q[1..]);
    if q[0] != h { TallyAtLeastOne(side, book, q[1..], h); }
  }

  lemma {:induction false} TallyWitness(side: Side, book: Book, q: seq<nat>)
    requires (forall g | g in q :: g in book) && Tally(OnSide(side), book, q) > 0
    ensures exists h :: h in q && book[h].side == side
  {
    if book[q[0]].side != side {
      TallyWitness(side, book, q[1..]);
      var h :| h in q[1..] && book[h].side == side;
      assert h in q;
    } else {
      assert q[0] in q;
    }
  }

  /** Every order's slot is marked for its side. */
  lemma OrderMarked(
    slots: seq<OrderSlot>, book: Book, comp: CompressionMap, levels: seq<PriceLevel>, queues: seq<seq<nat>>,
    side: Side, members: set<nat>, h: nat)
    requires Arranged(slots, book, comp, levels, queues) && Marked(levels, side, members)
    requires h in book && book[h].side == side
    ensures 0 <= PriceToIndex(comp, book[h].price) < |queues| && PriceToIndex(comp, book[h].price) in members
  {
    hide PriceToIndex, Stores, Linked, Fifo;
    ArrangedOrder(slots, book, comp, levels, queues, h);
    var t := PriceToIndex(comp, book[h].price);
    ArrangedLevel(slots, book, comp, levels, queues, t);
    TallyAtLeastOne(side, book, queues[t], h);
  }

  // ---------------------------------------------------------------------
  // Best prices.

  /** `tick` and `px` name the best resting price of a side, or nothing if it is empty. */
  ghost predicate BestOk(book: Book, comp: CompressionMap, side: Side, tick: nat, px: int)
    requires Shaped(comp)
  {
    if tick == NONE then px == 0 && forall h | h in book :: book[h].side != side
    else
      && tick == PriceToIndex(comp, px)
      && (exists h :: h in book && book[h].side == side && book[h].price == px)
      && (forall h | h in book && book[h].side == side :: Key(side, px) <= Key(side, book[h].price))
  }

  lemma BestInsert(book: Book, comp: CompressionMap, side: Side, tick: nat, px: int, h: nat, o: Order)
    requires Regular(comp) && BestOk(book, comp, side, tick, px) && h !in book
    ensures var better := o.side == side && (tick == NONE || Key(side, o.price) < Key(side, px));
            BestOk(book[h := o], comp, side,
                   if better then PriceToIndex(comp, o.price) else tick, if better then o.price else px)
  {
    IndexInBand(comp, o.price);
    hide PriceToIndex;
    var after := book[h := o];
    assert h in after && after[h] == o;
    if tick != NONE {
      var g :| g in book && book[g].side == side && book[g].price == px;
      assert g in after && after[g] == book[g];
    }
  }

  /** Removing an order filed under another slot leaves the best in place. */
  lemma BestKept(book: Book, comp: CompressionMap, side: Side, tick: nat, px: int, h: nat)
    requires Shaped(comp) && BestOk(book, comp, side, tick, px) && h in book
    requires book[h].side == side ==> PriceToIndex(comp, book[h].price) != tick
    ensures BestOk(book - {h}, comp, side, tick, px)
  {
    hide PriceToIndex;
    if tick != NONE {
      var g :| g in book && book[g].side == side && book[g].price == px;
      assert g in book - {h};
    }
  }

  /** Best prices do not depend on quantities. */
  lemma BestRequantified(book: Book, comp: CompressionMap, side: Side, tick: nat, px: int, h: nat, qty: int)
    requires Shaped(comp) && BestOk(book, comp, side, tick, px) && h in book
    ensures BestOk(book[h := book[h].(qty := qty)], comp, side, tick, px)
  {
    hide PriceToIndex;
    var after := book[h := book[h].(qty := qty)];
    if tick != NONE {
      var g :| g in book && book[g].side == side && book[g].price == px;
      assert g in after && after[g].side == side && after[g].price == px;
    }
  }

  /** The best price is a function of the orders alone. */
  lemma BestUnique(book: Book, c: CompressionMap, d: CompressionMap, side: Side, s: nat, p: int, t: nat, q: int)
    requires Shaped(c) && Shaped(d) && BestOk(book, c, side, s, p) && BestOk(book, d, side, t, q)
    ensures p == q && (s == NONE <==> t == NONE)
  {
    hide PriceToIndex;
  }

  // ---------------------------------------------------------------------
  // Finding the best slot along the walk.

  /** Slot `a` is visited no later than `b` when the ranges are walked upward. */
  predicate WalkLe(comp: CompressionMap, a: nat, b: nat)
    requires Shaped(comp)
  {
    BandOf(comp, a) < BandOf(comp, b) || (BandOf(comp, a) == BandOf(comp, b) && a <= b)
  }

  /** `t` is the marked slot a scan for the side meets first. */
  ghost predicate FirstOnWalk(comp: CompressionMap, side: Side, members: set<nat>, t: nat)
    requires Shaped(comp)
  {
    t in members && forall s | s in members :: if side == Sell then WalkLe(comp, t, s) else WalkLe(comp, s, t)
  }

  /** `px` is the best price of the side inside one queue. */
  ghost predicate TopOf(book: Book, q: seq<nat>, side: Side, px: int)
    requires forall h | h in q :: h in book
  {
    && (exists h :: h in q && book[h].side == side && book[h].price == px)
    && (forall h | h in q && book[h].side == side :: Key(side, px) <= Key(side, book[h].price))
  }

  lemma BandOfIndex(comp: CompressionMap, p: int)
    requires Regular(comp)
    ensures 0 <= PriceToIndex(comp, p) < TotalSlots(comp) < NONE
    ensures BandOf(comp, PriceToIndex(comp, p)) == Band(comp, p)
  {
    IndexInBand(comp, p);
    RangesPartition(comp, PriceToIndex(comp, p));
    hide PriceToIndex, BandOf, Band;
  }

  /** Prices in order have slots in walking order. */
  lemma WalkFollowsPrice(comp: CompressionMap, p: int, q: int)
    requires Regular(comp) && p < q
    ensures 0 <= PriceToIndex(comp, p) && 0 <= PriceToIndex(comp, q)
    ensures WalkLe(comp, PriceToIndex(comp, p), PriceToIndex(comp, q))
  {
    hide PriceToIndex, BandOf, Band, Regular;
    SawtoothOrder(comp, p, q);
    BandOfIndex(comp, p);
    BandOfIndex(comp, q);
  }

  /** A price strictly better than one in the first slot would be in the first slot. */
  lemma BetterIsFirst(comp: CompressionMap, side: Side, members: set<nat>, t: nat, p: int, px: int)
    requires Regular(comp) && FirstOnWalk(comp, side, members, t)
    requires PriceToIndex(comp, px) == t && PriceToIndex(comp, p) in members
    requires Key(side, p) < Key(side, px)
    ensures PriceToIndex(comp, p) == t
  {
    hide PriceToIndex, BandOf, Regular;
    if side == Sell { WalkFollowsPrice(comp, p, px); } else { WalkFollowsPrice(comp, px, p); }
  }

  /** The best price of the first marked slot is the best price of the side. */
  lemma ScanFindsBest(
    slots: seq<OrderSlot>, book: Book, comp: CompressionMap, levels: seq<PriceLevel>, queues: seq<seq<nat>>,
    side: Side, members: set<nat>, t: nat, px: int)
    requires Regular(comp) && Arranged(slots, book, comp, levels, queues) && Marked(levels, side, members)
    requires FirstOnWalk(comp, side, members, t) && t < |queues|
    requires (forall h | h in queues[t] :: h in book) && TopOf(book, queues[t], side, px)
    ensures BestOk(book, comp, side, t, px)
  {
    hide PriceToIndex, LevelOk, FirstOnWalk, Marked, Regular, Shaped;
    ArrangedLevel(slots, book, comp, levels, queues, t);
    BandOfIndex(comp, px);
    var g :| g in queues[t] && book[g].side == side && book[g].price == px;
    forall h | h in book && book[h].side == side ensures Key(side, px) <= Key(side, book[h].price) {
      OrderMarked(slots, book, comp, levels, queues, side, members, h);
      if Key(side, book[h].price) < Key(side, px) {
        BetterIsFirst(comp, side, members, t, book[h].price, px);
        ArrangedOrder(slots, book, comp, levels, queues, h);
      }
    }
  }

  lemma ScanFindsNothing(
    slots: seq<OrderSlot>, book: Book, comp: CompressionMap, levels: seq<PriceLevel>, queues: seq<seq<nat>>,
    side: Side, members: set<nat>)
    requires Arranged(slots, book, comp, levels, queues) && Marked(levels, side, members) && members == {}
    ensures BestOk(book, comp, side, NONE, 0)
  {
    hide PriceToIndex, LevelOk, Marked;
    forall h | h in book ensures book[h].side != side {
      if book[h].side == side {
        OrderMarked(slots, book, comp, levels, queues, side, members, h);
      }
    }
  }

  // ---------------------------------------------------------------------
  // What the scan over the ranges concludes.

  lemma ScanUpFound(comp: CompressionMap, members: set<nat>, i: nat, b: nat)
    requires Regular(comp) && (forall m | m in members :: m < TotalSlots(comp)) && i < |PriceAsc(comp)|
    requires forall k, m | 0 <= k < i && m in members :: !InRange(PriceAsc(comp)[k], m)
    requires b in members && InRange(PriceAsc(comp)[i], b)
    requires forall m | m in members && PriceAsc(comp)[i].0 <= m :: b <= m
    ensures FirstOnWalk(comp, Sell, members, b)
  {
    RangesPartition(comp, b);
    forall s | s in members ensures WalkLe(comp, b, s) {
      RangesPartition(comp, s);
      assert InRange(PriceAsc(comp)[BandOf(comp, s)], s);
    }
  }

  lemma ScanDownFound(comp: CompressionMap, members: set<nat>, i: nat, b: nat)
    requires Regular(comp) && (forall m | m in members :: m < TotalSlots(comp)) && i < |PriceAsc(comp)|
    requires forall k, m | i < k < |PriceAsc(comp)| && m in members :: !InRange(PriceAsc(comp)[k], m)
    requires b in members && InRange(PriceAsc(comp)[i], b)
    requires forall m | m in members && m < PriceAsc(comp)[i].1 :: m <= b
    ensures FirstOnWalk(comp, Buy, members, b)
  {
    RangesPartition(comp, b);
    forall s | s in members ensures WalkLe(comp, s, b) {
      RangesPartition(comp, s);
      assert InRange(PriceAsc(comp)[BandOf(comp, s)], s);
    }
  }

  lemma ScanExhausted(comp: CompressionMap, members: set<nat>)
    requires Regular(comp) && forall m | m in members :: m < TotalSlots(comp)
    requires forall k, m | 0 <= k < |PriceAsc(comp)| && m in members :: !InRange(PriceAsc(comp)[k], m)
    ensures members == {}
  {
    forall m | m in members ensures false { InSomeRange(comp, m); }
  }

  lemma InSomeRange(comp: CompressionMap, m: nat)
    requires Regular(comp) && m < TotalSlots(comp)
    ensures exists k :: 0 <= k < |PriceAsc(comp)| && InRange(PriceAsc(comp)[k], m)
  {
    RangesPartition(comp, m);
    assert InRange(PriceAsc(comp)[BandOf(comp, m)], m);
  }

  // ---------------------------------------------------------------------
  // Inside one slot.

  ghost predicate Uncrossed(book: Book) {
    forall g, h | g in book && h in book && book[g].side == Buy && book[h].side == Sell ::
      book[g].price < book[h].price
  }

  /** Prices are positive `i64` values on the tick grid. */
  ghost predicate Priced(book: Book, tick: int)
    requires tick >= 1
  {
    forall h | h in book :: 0 < book[h].price <= I64_MAX && book[h].price % tick == 0
  }

  /** A zone-0 slot of an uncrossed book holds one price of one side. */
  lemma ZoneZeroSingle(
    slots: seq<OrderSlot>, book: Book, comp: CompressionMap, levels: seq<PriceLevel>, queues: seq<seq<nat>>,
    t: nat, g: nat, h: nat)
    requires Regular(comp) && Arranged(slots, book, comp, levels, queues)
    requires Uncrossed(book) && Priced(book, comp.tick)
    requires t < |queues| && t < comp.zoneSlots[0] && g in queues[t] && h in queues[t]
    ensures g in book && h in book && book[g].price == book[h].price && book[g].side == book[h].side
  {
    hide PriceToIndex, LevelOk, Regular;
    ArrangedLevel(slots, book, comp, levels, queues, t);
    ZoneZeroInjective(comp, book[g].price, book[h].price);
  }

  lemma {:induction false} TallyEqual(m: Measure, n: Measure, book: Book, q: seq<nat>)
    requires forall h | h in q :: h in book && Weight(m, book[h]) == Weight(n, book[h])
    ensures Tally(m, book, q) == Tally(n, book, q)
  {
    if q != [] { TallyEqual(m, n, book, q[1..]); }
  }

  lemma {:induction false} TallyZero(m: Measure, book: Book, q: seq<nat>)
    requires forall h | h in q :: h in book && Weight(m, book[h]) == 0
    ensures Tally(m, book, q) == 0
  {
    if q != [] { TallyZero(m, book, q[1..]); }
  }

  /** In zone 0 the head price and the level total answer for the side. */
  lemma ZoneZeroTop(
    slots: seq<OrderSlot>, book: Book, comp: CompressionMap, levels: seq<PriceLevel>, queues: seq<seq<nat>>,
    t: nat, side: Side)
    requires Regular(comp) && Arranged(slots, book, comp, levels, queues)
    requires Uncrossed(book) && Priced(book, comp.tick)
    requires t < |queues| && t < comp.zoneSlots[0] && SideCount(levels[t], side) > 0
    ensures var q, lvl := queues[t], levels[t];
            && q != [] && lvl.head == q[0] && q[0] < |slots|
            && (forall h | h in q :: h in book && book[h].side == side && book[h].price == slots[q[0]].price)
            && TopOf(book, q, side, slots[q[0]].price)
            && lvl.totalQty == Tally(QuantityAt(side, slots[q[0]].price), book, q)
  {
    hide PriceToIndex, Regular, Arranged, Uncrossed, LevelOk, Tally, Priced, SideCount;
    ArrangedLevel(slots, book, comp, levels, queues, t);
    var q := queues[t];
    RegularShaped(comp);
    ZoneZeroAlone(slots, book, comp, levels, queues, t, side);
    LevelHead(slots, book, comp, t, levels[t], q);
    assert q[0] in q;
    TallyEqual(Quantity, QuantityAt(side, book[q[0]].price), book, q);
  }

  /** All orders of the slot are on the side that marks it, at one price. */
  lemma ZoneZeroAlone(
    slots: seq<OrderSlot>, book: Book, comp: CompressionMap, levels: seq<PriceLevel>, queues: seq<seq<nat>>,
    t: nat, side: Side)
    requires Regular(comp) && Arranged(slots, book, comp, levels, queues)
    requires Uncrossed(book) && Priced(book, comp.tick)
    requires t < |queues| == |levels| && t < comp.zoneSlots[0] && SideCount(levels[t], side) > 0
    ensures queues[t] != []
    ensures forall h | h in queues[t] :: h in book && book[h].side == side && book[h].price == book[queues[t][0]].price
  {
    hide PriceToIndex, Regular, Arranged, Uncrossed, Priced, Linked, Fifo, Stores, Tally;
    ArrangedLevel(slots, book, comp, levels, queues, t);
    var q := queues[t];
    TallyWitness(side, book, q);
    var w :| w in q && book[w].side == side;
    assert q[0] in q;
    forall h | h in q ensures book[h].side == side && book[h].price == book[q[0]].price {
      ZoneZeroSingle(slots, book, comp, levels, queues, t, h, w);
      ZoneZeroSingle(slots, book, comp, levels, queues, t, q[0], w);
    }
  }

  lemma LevelHead(slots: seq<OrderSlot>, book: Book, comp: CompressionMap, t: nat, lvl: PriceLevel, q: seq<nat>)
    requires Shaped(comp) && LevelOk(slots, book, comp, t, lvl, q) && q != []
    ensures Resting(book, q) && lvl.head == q[0] < |slots| && slots[q[0]].price == book[q[0]].price
    ensures lvl.totalQty == Tally(Quantity, book, q)
  {
    hide PriceToIndex, Fifo;
    assert q[0] in q;
  }

  /** The running answer of a walk over a queue: best price so far and its quantity. */
  ghost predicate TopSoFar(book: Book, q: seq<nat>, side: Side, px: int, qty: int)
    requires forall h | h in q :: h in book
  {
    && qty == Tally(QuantityAt(side, px), book, q)
    && (forall h | h in q && book[h].side == side :: Key(side, px) <= Key(side, book[h].price))
    && ((exists h :: h in q && book[h].side == side && book[h].price == px)
        || (px == Worst(side) && forall h | h in q :: book[h].side != side))
  }

  /** Where a walk starts: below every buy, at or above every sell. */
  function Worst(side: Side): int {
    if side == Buy then -I64_MAX - 1 else I64_MAX
  }

  lemma TopStep(book: Book, q: seq<nat>, side: Side, px: int, qty: int, h: nat)
    requires (forall g | g in q :: g in book) && h in book && TopSoFar(book, q, side, px, qty)
    requires -I64_MAX - 1 <= book[h].price <= I64_MAX
    ensures var o := book[h];
            var better := o.side == side && Key(side, o.price) < Key(side, px);
            var same := o.side == side && o.price == px;
            TopSoFar(book, q + [h], side, if better then o.price else px,
                     if better then o.qty else if same then qty + o.qty else qty)
  {
    var o, p := book[h], q + [h];
    var better := o.side == side && Key(side, o.price) < Key(side, px);
    var px' := if better then o.price else px;
    TallyAppend(QuantityAt(side, px'), book, q, [h]);
    if better { TallyZero(QuantityAt(side, px'), book, q); }
    assert forall g :: g in p <==> g in q || g == h;
    hide Tally;
  }
}
