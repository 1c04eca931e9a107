/** Recentering: moving the live orders to a new compression map, lazily or at once. */
module Migration {
  import opened Types
  import opened Compression
  import opened Bitmap
  import opened Arena
  import opened PriceTime
  import opened Levels
  import opened Arrangement
  import opened BookFacts
  import opened OrderBook
  import opened MoveFacts

  /** The active side of the book is in order, and its slab holds the moved and the unmoved. */
  ghost predicate Loaded(book: Orderbook, whole: Book)
    reads book, book.orders, book.bidOcc, book.askOcc
  {
    && book.Sound() && book.Holds() && book.BestsOk()
    && Recorded(whole, book.config.tickSize, book.sequence)
  }

  /** A migration of the orders `whole` is under way. */
  ghost predicate Moving(book: Orderbook, whole: Book)
    reads book, book.orders, book.bidOcc, book.askOcc
  {
    && Loaded(book, whole)
    && book.config.lotSize >= 1 && book.state == Migrating
    && Positive(whole) && Uncrossed(whole)
    && book.oldLevels.Some? && book.oldComp.Some? && Regular(book.oldComp.value)
    && Divided(whole, book.live, book.left) && Apart(whole, book.live, book.left, book.oldComp.value)
    && Arranged(book.orders.slots, book.left, book.oldComp.value, book.oldLevels.value, book.oldQueues)
  }

  /** Write the new slot index into the next order of the old level. */
  method Retick(book: Orderbook, cursor: nat, ghost whole: Book, ghost p: seq<nat>) returns (tick: nat)
    requires Loaded(book, whole) && Divided(whole, book.live, book.left) && InArrival(whole, book.live, p)
    requires cursor in p && cursor in book.left && cursor < |book.orders.slots|
    requires Stores(book.orders.slots[cursor], book.left[cursor], book.orders.slots[cursor].tick)
    modifies book.orders`slots
    ensures |book.orders.slots| == |old(book.orders.slots)|
    ensures forall g | 0 <= g < |book.orders.slots| && g != cursor :: book.orders.slots[g] == old(book.orders.slots)[g]
    ensures book.Sound() && Linkable(book.orders.slots, book.orders.free, book.live, book.comp, book.sequence, cursor,
                                     book.left[cursor])
    ensures tick == PriceToIndex(book.comp, book.left[cursor].price)
  {
    hide Arranged, Regular, PriceToIndex, Represents, SlabOk, PriceAsc, BestOk, Marked, Owned, Recorded, Divided,
         InArrival, Linkable, Shaped, Stores;
    var order := book.orders.slots[cursor];
    StoredFields(order, book.left[cursor], order.tick);
    RegularShaped(book.comp);
    BandOfIndex(book.comp, order.price);
    tick := PriceToIndex(book.comp, order.price);
    RetickFacts(book.orders.slots, book.orders.freeHead, book.orders.bumpNext, book.orders.free, whole, book.live, book.left,
                book.comp, book.activeLevels, book.queues, book.sequence, p, cursor);
    book.orders.slots := book.orders.slots[cursor := order.(tick := tick)];
  }

  /** The order is no longer in the old levels. */
  ghost method Leave(book: Orderbook, h: nat)
    requires book.Sound() && book.BestsOk()
    modifies book`left
    ensures book.left == old(book.left) - {h}
    ensures book.Sound() && book.BestsOk()
  {
    hide Arranged, Regular, Recorded, Represents, SlabOk, PriceAsc, Marked, BestOk, Shaped;
    book.left := book.left - {h};
  }

  /** Relink the next order of the old level behind the tail of its new level. */
  method MoveOrder(
    book: Orderbook, cursor: nat, ghost whole: Book, ghost rest: Book, ghost p: seq<nat>,
    ghost was: CompressionMap, ghost idx: nat, ghost levels: seq<PriceLevel>, ghost queues: seq<seq<nat>>)
    returns (next: nat)
    requires Loaded(book, whole) && p != [] && cursor == p[0]
    requires Emptying(book.orders.slots, whole, book.live, book.left, rest, p, was, idx, levels, queues)
    modifies book`activeLevels, book`queues, book`live, book`left, book`bestBidTick, book`bestBidPx, book`bestAskTick,
             book`bestAskPx, book.orders`slots, book.bidOcc, book.askOcc
    ensures next == HeadOf(p[1..]) && |book.orders.slots| == |old(book.orders.slots)|
    ensures Emptying(book.orders.slots, whole, book.live, book.left, rest, p[1..], was, idx, levels, queues)
    ensures Loaded(book, whole)
  {
    hide Arranged, Regular, PriceToIndex, Represents, SlabOk, PriceAsc, BestOk, Marked, Owned, Recorded,
         Linkable, Shaped, Stores, Emptying, Divided, InArrival, LinksOnly, OthersKept, Enqueued, SlotOf;
    hide Orderbook.Sound;
    NextToMove(book.orders.slots, whole, book.live, book.left, rest, p, was, idx, levels, queues);
    ghost var slots, live, left, o := book.orders.slots, book.live, book.left, book.left[cursor];
    var order := book.orders.slots[cursor];
    next := order.next;
    var tick := Retick(book, cursor, whole, p);
    ghost var slots1 := book.orders.slots;
    book.LinkTail(cursor, o);
    MoveKept(slots, slots1, book.orders.slots, live, cursor);
    EmptyingMoves(slots, book.orders.slots, whole, live, left, rest, p, was, idx, levels, queues);
    KeptOwned(slots, book.orders.bumpNext, book.orders.free, live, left, book.orders.slots, cursor);
    book.ImproveBest(order.side, tick, order.price, live, cursor);
    Leave(book, cursor);
  }

  /** Mark an old level as moved. */
  method ResetOldLevel(book: Orderbook, idx: nat, ghost whole: Book)
    requires Loaded(book, whole) && book.oldLevels.Some? && idx < |book.oldLevels.value| == |book.oldQueues|
    modifies book`oldLevels, book`oldQueues
    ensures book.oldLevels == Some(old(book.oldLevels).value[idx := DEFAULT_LEVEL])
    ensures book.oldQueues == old(book.oldQueues)[idx := []]
    ensures Loaded(book, whole)
  {
    hide Arranged, Regular, Recorded, Represents, SlabOk, PriceAsc, Marked, BestOk, Shaped, Owned;
    book.oldLevels := Some(book.oldLevels.value[idx := DEFAULT_LEVEL]);
    book.oldQueues := book.oldQueues[idx := []];
  }

  /** Move every order of one old slot, oldest first, into the active levels. */
  method MigrateSingleLevel(book: Orderbook, oldIdx: nat, ghost whole: Book)
    requires Moving(book, whole)
    modifies book`activeLevels, book`queues, book`live, book`left, book`bestBidTick, book`bestBidPx, book`bestAskTick,
             book`bestAskPx, book`oldLevels, book`oldQueues, book.orders`slots, book.bidOcc, book.askOcc
    ensures book.left == Outside(old(book.left), book.oldComp.value, oldIdx)
    ensures |book.orders.slots| == |old(book.orders.slots)|
    ensures Moving(book, whole)
  {
    hide Arranged, Regular, Positive, Uncrossed, Emptying, Divided, Apart, Outside;
    hide Loaded;
    ghost var was, left0, queues0 := book.oldComp.value, book.left, book.oldQueues;
    var levels := book.oldLevels.value;
    if oldIdx >= |levels| || levels[oldIdx].orderCount == 0 {
      NothingAt(book.orders.slots, book.left, was, levels, book.oldQueues, oldIdx);
      return;
    }
    SlabSize(book, whole);
    ArrangedShaped(book.orders.slots, book.left, was, levels, book.oldQueues);
    EmptyingStarts(book.orders.slots, whole, book.live, book.left, was, oldIdx, levels, book.oldQueues);
    ghost var rest, p := Outside(book.left, was, oldIdx), book.oldQueues[oldIdx];
    var cursor := levels[oldIdx].head;
    while cursor != NONE
      invariant cursor == HeadOf(p)
      invariant book.oldLevels == Some(levels) && book.oldQueues == queues0
      invariant |book.orders.slots| == |old(book.orders.slots)|
      invariant Emptying(book.orders.slots, whole, book.live, book.left, rest, p, was, oldIdx,
                         levels[oldIdx := DEFAULT_LEVEL], queues0[oldIdx := []])
      invariant Loaded(book, whole)
      decreases |p|
    {
      cursor := MoveOrder(book, cursor, whole, rest, p, was, oldIdx, levels[oldIdx := DEFAULT_LEVEL], queues0[oldIdx := []]);
      p := p[1..];
    }
    AllMoved(book.orders.slots, whole, book.live, book.left, rest, p, was, oldIdx,
             levels[oldIdx := DEFAULT_LEVEL], queues0[oldIdx := []]);
    EmptyingEnds(book.orders.slots, whole, book.live, book.left, rest, was, oldIdx,
                 levels[oldIdx := DEFAULT_LEVEL], queues0[oldIdx := []]);
    ResetOldLevel(book, oldIdx, whole);
  }

  lemma SlabSize(book: Orderbook, whole: Book)
    requires Loaded(book, whole)
    ensures |book.orders.slots| <= NONE
  {
    hide Arranged, Regular, Recorded, Represents, PriceAsc, Marked, BestOk, Shaped, Owned;
    SlabBounds(book.orders.slots, book.orders.freeHead, book.orders.bumpNext, book.orders.free);
  }

  /** Move the old slot of one price. */
  method MigratePrice(book: Orderbook, price: int, ghost whole: Book)
    requires Moving(book, whole)
    modifies book`activeLevels, book`queues, book`live, book`left, book`bestBidTick, book`bestBidPx, book`bestAskTick,
             book`bestAskPx, book`oldLevels, book`oldQueues, book.orders`slots, book.bidOcc, book.askOcc
    ensures book.left == Outside(old(book.left), book.oldComp.value, SlotOf(book.oldComp.value, price))
    ensures |book.orders.slots| == |old(book.orders.slots)|
    ensures Moving(book, whole)
  {
    hide Arranged, Regular, Positive, Uncrossed, Divided, Apart, Outside, PriceToIndex;
    hide Loaded;
    RegularShaped(book.oldComp.value);
    BandOfIndex(book.oldComp.value, price);
    var idx := PriceToIndex(book.oldComp.value, price);
    MigrateSingleLevel(book, idx, whole);
  }

  /** Keep the active array and its map as the old ones. */
  method SetAside(book: Orderbook)
    requires Shaped(book.comp)
    modifies book`oldLevels, book`oldComp, book`oldMinPrice, book`oldMaxPrice, book`oldQueues, book`left
    ensures book.oldLevels == Some(book.activeLevels) && book.oldComp == Some(book.comp)
    ensures book.oldMinPrice == MinPrice(book.comp) && book.oldMaxPrice == MaxPrice(book.comp)
    ensures book.oldQueues == book.queues && book.left == book.live
  {
    book.oldLevels, book.oldComp := Some(book.activeLevels), Some(book.comp);
    book.oldMinPrice, book.oldMaxPrice := MinPrice(book.comp), MaxPrice(book.comp);
    book.oldQueues, book.left := book.queues, book.live;
  }

  /** Put an empty array, empty bitmaps and no best prices under the new map. */
  method Install(book: Orderbook, m: CompressionMap, mid: int)
    requires Shaped(m)
    modifies book`activeLevels, book`comp, book`bidFrontier, book`askFrontier, book`state, book`bidOcc, book`askOcc,
             book`priceAsc, book`bestBidTick, book`bestBidPx, book`bestAskTick, book`bestAskPx, book`live, book`queues
    ensures book.comp == m && book.priceAsc == PriceAsc(m) && book.state == Migrating
    ensures book.activeLevels == BlankLevels(TotalSlots(m))
    ensures book.live == map[] && book.queues == BlankQueues(TotalSlots(m))
    ensures fresh(book.bidOcc) && fresh(book.askOcc) && book.bidOcc != book.askOcc
    ensures book.bidOcc.Valid() && book.bidOcc.members == {} && book.bidOcc.n == TotalSlots(m)
    ensures book.askOcc.Valid() && book.askOcc.members == {} && book.askOcc.n == TotalSlots(m)
    ensures book.bestBidTick == book.bestAskTick == NONE && book.bestBidPx == book.bestAskPx == 0
    ensures book.bidFrontier == book.askFrontier == mid
  {
    hide Represents, PriceAsc, Shaped, BlankLevels, BlankQueues;
    hide Occupancy.Valid;
    var total := TotalSlots(m);
    var asc := BuildPriceAsc(m);
    book.activeLevels, book.comp, book.priceAsc, book.state := BlankLevels(total), m, asc, Migrating;
    book.bidFrontier, book.askFrontier := mid, mid;
    book.bestBidTick, book.bestAskTick, book.bestBidPx, book.bestAskPx := NONE, NONE, 0, 0;
    book.live, book.queues := map[], BlankQueues(total);
    var bids := new Occupancy(total);
    var asks := new Occupancy(total);
    book.bidOcc, book.askOcc := bids, asks;
  }

  /** Swap in an empty array under the new map; everything is still to move. */
  method SwapMaps(book: Orderbook, newMid: int)
    requires book.Valid() && Regular(NewMap(newMid, book.config.tickSize))
    modifies book`activeLevels, book`comp, book`oldLevels, book`oldComp, book`oldMinPrice, book`oldMaxPrice,
             book`bidFrontier, book`askFrontier, book`state, book`bidOcc, book`askOcc, book`priceAsc,
             book`bestBidTick, book`bestBidPx, book`bestAskTick, book`bestAskPx, book`live, book`queues, book`left,
             book`oldQueues
    ensures fresh(book.bidOcc) && fresh(book.askOcc)
    ensures book.comp == NewMap(newMid, book.config.tickSize) && book.oldComp == Some(old(book.comp))
    ensures book.bidFrontier == book.askFrontier == newMid
    ensures Shaped(old(book.comp))
    ensures book.oldMinPrice == MinPrice(old(book.comp)) && book.oldMaxPrice == MaxPrice(old(book.comp))
    ensures book.left == old(book.live)
    ensures Moving(book, old(book.live))
  {
    hide Regular, NewMap, PriceAsc, Arranged, Marked, SlabOk, Recorded, Owned, BestOk, Positive, Uncrossed,
         Divided, Apart, Shaped, BlankLevels, BlankQueues;
    hide Loaded, Moving, Orderbook.Sound, Orderbook.Valid, Occupancy.Valid;
    ghost var whole := book.live;
    AtRest(book);
    var m := NewMap(newMid, book.config.tickSize);
    RegularShaped(m);
    NewMapTick(newMid, book.config.tickSize);
    EmptyArray(book.orders.slots, m);
    AllLeft(book.live, m, book.comp, book.config.tickSize, book.sequence);
    OwnedSwap(book.orders.slots, book.orders.bumpNext, book.orders.free, book.live);
    SetAside(book);
    Install(book, m, newMid);
    IsMoving(book, whole);
  }

  /** What a book at rest brings into a migration. */
  lemma AtRest(book: Orderbook)
    requires book.Valid()
    ensures Regular(book.comp) && Shaped(book.comp) && book.config.tickSize >= 1 && book.config.lotSize >= 1
    ensures SlabOk(book.orders.slots, book.orders.freeHead, book.orders.bumpNext, book.orders.free)
    ensures Arranged(book.orders.slots, book.live, book.comp, book.activeLevels, book.queues)
    ensures Recorded(book.live, book.config.tickSize, book.sequence) && Positive(book.live) && Uncrossed(book.live)
    ensures Owned(book.orders.slots, book.orders.bumpNext, book.orders.free, book.live, map[])
  {
    hide Regular, PriceAsc, Arranged, Marked, Represents, SlabOk, Recorded, Owned, BestOk, Positive, Uncrossed, Shaped;
    RegularShaped(book.comp);
    TickPositive(book.live, book.config.tickSize, book.sequence);
  }

  /** The parts that make up a migration with nothing moved yet. */
  lemma IsMoving(book: Orderbook, whole: Book)
    requires book.bidOcc != book.askOcc && book.bidOcc.Valid() && book.askOcc.Valid()
    requires book.bidOcc.members == {} && book.askOcc.members == {}
    requires book.bidOcc.n == |book.activeLevels| == book.askOcc.n
    requires Marked(book.activeLevels, Buy, {}) && Marked(book.activeLevels, Sell, {})
    requires book.config.lotSize >= 1 && book.state == Migrating
    requires Regular(book.comp) && Shaped(book.comp) && book.comp.tick == book.config.tickSize
    requires book.priceAsc == PriceAsc(book.comp) && book.live == map[] && book.left == whole
    requires SlabOk(book.orders.slots, book.orders.freeHead, book.orders.bumpNext, book.orders.free)
    requires Arranged(book.orders.slots, book.live, book.comp, book.activeLevels, book.queues)
    requires Recorded(whole, book.config.tickSize, book.sequence) && Recorded(map[], book.config.tickSize, book.sequence)
    requires Positive(whole) && Uncrossed(whole)
    requires Owned(book.orders.slots, book.orders.bumpNext, book.orders.free, map[], whole)
    requires BestOk(map[], book.comp, Buy, book.bestBidTick, book.bestBidPx)
    requires BestOk(map[], book.comp, Sell, book.bestAskTick, book.bestAskPx)
    requires book.oldLevels.Some? && book.oldComp.Some? && Regular(book.oldComp.value)
    requires Divided(whole, map[], whole) && Apart(whole, map[], whole, book.oldComp.value)
    requires Arranged(book.orders.slots, whole, book.oldComp.value, book.oldLevels.value, book.oldQueues)
    ensures Moving(book, whole)
  {
    hide Regular, PriceAsc, Arranged, Marked, Represents, SlabOk, Recorded, Owned, BestOk, Positive, Uncrossed,
         Divided, Apart, Shaped;
  }

  lemma TickPositive(book: Book, tick: int, sequence: nat)
    requires Recorded(book, tick, sequence)
    ensures tick >= 1
  {
  }

  /** Start a recentering: swap the maps and move the orders of the new middle price. */
  method TriggerRecenter(book: Orderbook, newMid: int)
    requires book.Valid() && Regular(NewMap(newMid, book.config.tickSize))
    modifies book`activeLevels, book`comp, book`oldLevels, book`oldComp, book`oldMinPrice, book`oldMaxPrice,
             book`bidFrontier, book`askFrontier, book`state, book`bidOcc, book`askOcc, book`priceAsc,
             book`bestBidTick, book`bestBidPx, book`bestAskTick, book`bestAskPx, book`live, book`queues, book`left,
             book`oldQueues, book.orders`slots
    ensures fresh(book.bidOcc) && fresh(book.askOcc)
    ensures book.comp == NewMap(newMid, book.config.tickSize) && book.oldComp == Some(old(book.comp))
    ensures book.bidFrontier == book.askFrontier == newMid
    ensures Shaped(old(book.comp))
    ensures book.oldMinPrice == MinPrice(old(book.comp)) && book.oldMaxPrice == MaxPrice(old(book.comp))
    ensures book.left == Outside(old(book.live), old(book.comp), SlotOf(old(book.comp), newMid))
    ensures |book.orders.slots| == |old(book.orders.slots)|
    ensures Moving(book, old(book.live))
  {
    hide Outside, SlotOf, NewMap, Regular, Shaped;
    hide Moving, Orderbook.Valid;
    SwapMaps(book, newMid);
    HasOldMap(book, old(book.live));
    MigratePrice(book, newMid, old(book.live));
  }

  lemma HasOldMap(book: Orderbook, whole: Book)
    requires Moving(book, whole)
    ensures book.oldComp.Some? && book.oldLevels.Some? && book.state == Migrating
    ensures Regular(book.oldComp.value) && Shaped(book.oldComp.value) && Divided(whole, book.live, book.left)
    ensures Arranged(book.orders.slots, book.left, book.oldComp.value, book.oldLevels.value, book.oldQueues)
    ensures Recorded(whole, book.config.tickSize, book.sequence)
  {
    hide Regular, Arranged, Recorded, Shaped, Divided;
    hide Orderbook.Sound, Orderbook.Holds, Orderbook.BestsOk;
    RegularShaped(book.oldComp.value);
  }

  /** Drop the old array and return to normal operation. */
  method CompleteMigration(book: Orderbook, ghost whole: Book)
    requires Moving(book, whole) && book.left == map[]
    modifies book`oldLevels, book`oldComp, book`state
    ensures book.state == Normal && book.Valid() && book.live == whole
  {
    hide Regular, PriceAsc, Arranged, Marked, Represents, SlabOk, Recorded, Owned, BestOk, Positive, Uncrossed,
         Divided, Apart, Shaped;
    AllLive(whole, book.live, book.left);
    book.oldLevels, book.oldComp := None, None;
    book.state := Normal;
  }

  /** Finish a migration at once, old slot by old slot. */
  method CompleteMigrationEager(book: Orderbook, ghost whole: Book)
    requires book.state == Migrating ==> Moving(book, whole)
    modifies book`activeLevels, book`queues, book`live, book`left, book`bestBidTick, book`bestBidPx, book`bestAskTick,
             book`bestAskPx, book`oldLevels, book`oldComp, book`oldQueues, book`state, book.orders`slots, book.bidOcc,
             book.askOcc
    ensures old(book.state) == Normal ==>
              unchanged(book) && unchanged(book.orders) && unchanged(book.bidOcc) && unchanged(book.askOcc)
    ensures |book.orders.slots| == |old(book.orders.slots)|
    ensures old(book.state) == Migrating ==> book.Valid() && book.live == whole
  {
    hide Regular, Arranged, Divided, Shaped, EmptyBelow, Outside, Recorded, SlotOf;
    hide Moving, Orderbook.Valid;
    if book.state != Migrating { return; }
    HasOldMap(book, whole);
    ghost var was := book.oldComp.value;
    var n := |book.oldLevels.value|;
    ArrangedShaped(book.orders.slots, book.left, was, book.oldLevels.value, book.oldQueues);
    EmptyBelowStart(book.orders.slots, book.left, was, book.oldLevels.value, book.oldQueues);
    for oldIdx := 0 to n
      invariant book.oldComp == Some(was) && book.oldLevels.Some? && |book.oldLevels.value| == n
      invariant EmptyBelow(book.left, was, oldIdx) && |book.orders.slots| == |old(book.orders.slots)|
      invariant Moving(book, whole)
    {
      EmptyBelowStep(book.left, was, oldIdx);
      MigrateSingleLevel(book, oldIdx, whole);
      HasOldMap(book, whole);
      ArrangedShaped(book.orders.slots, book.left, was, book.oldLevels.value, book.oldQueues);
    }
    HasOldMap(book, whole);
    EmptyBelowEnd(book.orders.slots, book.left, was, book.oldLevels.value, book.oldQueues);
    CompleteMigration(book, whole);
  }

  /** Recenter the map and move everything, in one call. */
  method RecenterNow(book: Orderbook, newMid: int)
    requires book.Valid() && Regular(NewMap(newMid, book.config.tickSize))
    modifies book`activeLevels, book`comp, book`oldLevels, book`oldComp, book`oldMinPrice, book`oldMaxPrice,
             book`bidFrontier, book`askFrontier, book`state, book`bidOcc, book`askOcc, book`priceAsc,
             book`bestBidTick, book`bestBidPx, book`bestAskTick, book`bestAskPx, book`live, book`queues, book`left,
             book`oldQueues, book.orders`slots
    ensures fresh(book.bidOcc) && fresh(book.askOcc)
    ensures book.comp == NewMap(newMid, book.config.tickSize)
    ensures book.live == old(book.live) && |book.orders.slots| == |old(book.orders.slots)|
    ensures book.Valid()
  {
    hide Regular, NewMap, Outside, Shaped, SlotOf;
    hide Moving, Orderbook.Valid;
    TriggerRecenter(book, newMid);
    HasOldMap(book, old(book.live));
    CompleteMigrationEager(book, old(book.live));
  }
}
