/** The order book: level queues, slab, occupancy bitmaps and cached best prices. */
module OrderBook {
  import opened Types
  import opened Compression
  import opened Bitmap
  import opened Arena
  import opened PriceTime
  import opened Levels
  import opened Arrangement
  import opened BookFacts

  class Orderbook {
    const config: BookConfig
    const orders: Slab
    var activeLevels: seq<PriceLevel>
    var bestBidTick: nat
    var bestBidPx: int
    var bestAskTick: nat
    var bestAskPx: int
    var comp: CompressionMap
    var bidOcc: Occupancy
    var askOcc: Occupancy
    var priceAsc: seq<(nat, nat)>
    var state: BookState
    var sequence: nat
    var events: seq<Event>
    var users: map<nat, int>
    var oldLevels: Option<seq<PriceLevel>>
    var oldComp: Option<CompressionMap>
    var bidFrontier: int
    var askFrontier: int
    var oldMinPrice: int
    var oldMaxPrice: int

    /** Orders linked into the active levels, by handle. */
    ghost var live: Book
    /** The queue of handles behind each active level. */
    ghost var queues: seq<seq<nat>>
    /** Orders not yet moved out of the old levels; none outside a migration. */
    ghost var left: Book
    ghost var oldQueues: seq<seq<nat>>

    ghost function Repr(): set<object>
      reads this
    {
      {this, orders, bidOcc, askOcc}
    }

    function BestTick(side: Side): nat
      reads this
    {
      if side == Buy then bestBidTick else bestAskTick
    }

    function BestPx(side: Side): int
      reads this
    {
      if side == Buy then bestBidPx else bestAskPx
    }

    ghost function Members(side: Side): set<nat>
      reads this, bidOcc, askOcc
    {
      if side == Buy then bidOcc.members else askOcc.members
    }

    /** The index structures describe `live`. */
    ghost predicate Sound()
      reads this, orders, bidOcc, askOcc
    {
      && bidOcc != askOcc
      && orders.Valid() && bidOcc.Valid() && askOcc.Valid()
      && Settled(comp, config.tickSize, priceAsc)
      && bidOcc.n == |activeLevels| && askOcc.n == |activeLevels|
      && Arranged(orders.slots, live, comp, activeLevels, queues)
      && Marked(activeLevels, Buy, bidOcc.members)
      && Marked(activeLevels, Sell, askOcc.members)
      && Recorded(live, config.tickSize, sequence)
    }

    ghost predicate Holds()
      reads this, orders
    {
      Owned(orders.slots, orders.bumpNext, orders.free, live, left)
    }

    ghost predicate BestsOk()
      reads this
    {
      && Shaped(comp)
      && BestOk(live, comp, Buy, bestBidTick, bestBidPx)
      && BestOk(live, comp, Sell, bestAskTick, bestAskPx)
    }

    /** Sound, uncrossed and not migrating; the cached best prices may lag. */
    ghost predicate Steady()
      reads this, orders, bidOcc, askOcc
    {
      && Sound() && Holds()
      && config.lotSize >= 1
      && state == Normal && left == map[]
      && Positive(live) && Uncrossed(live)
    }

    /** Index structures and best prices exact, whether or not the book is crossed. */
    ghost predicate Intact()
      reads this, orders, bidOcc, askOcc
    {
      && Sound() && Holds()
      && config.lotSize >= 1
      && state == Normal && left == map[]
      && BestsOk()
    }

    /** A book at rest: steady, with exact best prices. */
    ghost predicate Valid()
      reads this, orders, bidOcc, askOcc
    {
      Steady() && BestsOk()
    }

    constructor (config: BookConfig, capacity: nat, mid: int)
      requires capacity <= NONE && config.tickSize >= 1 && config.lotSize >= 1
      requires Regular(NewMap(mid, config.tickSize)) && NewMap(mid, config.tickSize).tick == config.tickSize
      ensures Valid() && fresh(Repr())
      ensures this.config == config && comp == NewMap(mid, config.tickSize)
      ensures live == map[] && sequence == 0 && events == [] && users == map[]
      ensures |orders.slots| == capacity && orders.free == [] && orders.bumpNext == 0
    {
      hide Regular, NewMap, PriceAsc, Arranged, Marked, Represents, SlabOk, Recorded, Owned, BestOk, Positive, Uncrossed;
      var m := NewMap(mid, config.tickSize);
      RegularShaped(m);
      var total := TotalSlots(m);
      var asc := BuildPriceAsc(m);
      this.config := config;
      orders := new Slab(capacity);
      activeLevels := BlankLevels(total);
      bestBidTick, bestBidPx, bestAskTick, bestAskPx := NONE, 0, NONE, 0;
      comp := m;
      bidOcc := new Occupancy(total);
      askOcc := new Occupancy(total);
      priceAsc := asc;
      state, sequence, events, users := Normal, 0, [], map[];
      oldLevels, oldComp := None, None;
      bidFrontier, askFrontier, oldMinPrice, oldMaxPrice := mid, mid, 0, 0;
      live, left, oldQueues := map[], map[], [];
      queues := BlankQueues(total);
      new;
      EmptyArray(orders.slots, comp);
      EmptyBook(orders.slots, comp, config.tickSize);
    }

    /** The tick of the best-priced slot holding an order of the side. */
    method ScanNext(side: Side) returns (tick: nat)
      requires Sound()
      ensures tick == NONE <==> Members(side) == {}
      ensures tick != NONE ==> tick < |activeLevels| && FirstOnWalk(comp, side, Members(side), tick)
    {
      hide Arranged, Recorded, FirstOnWalk, PriceAsc, Regular, Represents;
      MarkedBelow(activeLevels, side, Members(side));
      SlotsBelowNone(orders.slots, live, comp, activeLevels, queues);
      if side == Sell {
        for i := 0 to |priceAsc|
          invariant forall k, m | 0 <= k < i && m in askOcc.members :: !InRange(priceAsc[k], m)
        {
          var r := askOcc.FindFirstIn(priceAsc[i].0, priceAsc[i].1);
          if r.Some? {
            ScanUpFound(comp, askOcc.members, i, r.value);
            return r.value;
          }
        }
        ScanExhausted(comp, askOcc.members);
      } else {
        for i := |priceAsc| downto 0
          invariant forall k, m | i <= k < |priceAsc| && m in bidOcc.members :: !InRange(priceAsc[k], m)
        {
          var r := bidOcc.FindLastIn(priceAsc[i].0, priceAsc[i].1);
          if r.Some? {
            ScanDownFound(comp, bidOcc.members, i, r.value);
            return r.value;
          }
        }
        ScanExhausted(comp, bidOcc.members);
      }
      return NONE;
    }

    /** The best price of the side in one slot and the quantity resting at it, or zeros. */
    method TopAt(side: Side, tick: nat) returns (px: int, qty: int)
      requires Sound() && Uncrossed(live) && (tick == NONE || tick < |activeLevels|)
      ensures tick == NONE || SideCount(activeLevels[tick], side) == 0 ==> px == 0 && qty == 0
      ensures tick != NONE && SideCount(activeLevels[tick], side) > 0 ==>
                && (forall h | h in queues[tick] :: h in live)
                && TopOf(live, queues[tick], side, px)
                && qty == Tally(QuantityAt(side, px), live, queues[tick])
    {
      hide Arranged, Regular, PriceToIndex, Uncrossed, TopOf, Tally, Recorded, TopUpTo, Represents, SlabOk, PriceAsc, Walkable, Stores, HeadOf, Marked;
      if tick == NONE { return 0, 0; }
      SlotsBelowNone(orders.slots, live, comp, activeLevels, queues);
      RegularShaped(comp);
      var lvl := activeLevels[tick];
      if SideCount(lvl, side) == 0 { return 0, 0; }
      RecordedPrices(live, config.tickSize, sequence);
      if tick < comp.zoneSlots[0] {
        ZoneZeroTop(orders.slots, live, comp, activeLevels, queues, tick, side);
        return orders.slots[lvl.head].price, lvl.totalQty;
      }
      ghost var q := queues[tick];
      px, qty := Worst(side), 0;
      var cursor := lvl.head;
      ghost var i := 0;
      SlabBounds(orders.slots, orders.freeHead, orders.bumpNext, orders.free);
      LevelWalk(orders.slots, live, comp, activeLevels, queues, tick);
      TopStart(live, q, side);
      while cursor != NONE
        invariant i <= |q| && cursor == HeadOf(q[i..]) && TopUpTo(live, q, i, side, px, qty)
        decreases |q| - i
      {
        WalkStep(orders.slots, live, q, i);
        TopAdvance(orders.slots, live, q, i, side, px, qty, config.tickSize);
        var order := orders.slots[cursor];
        if order.side == side {
          if Key(side, order.price) < Key(side, px) {
            px, qty := order.price, order.remaining;
          } else if order.price == px {
            qty := qty + order.remaining;
          }
        }
        cursor := order.next;
        i := i + 1;
      }
      WalkEnd(orders.slots, live, q, i);
      TopEnd(orders.slots, live, comp, activeLevels, queues, tick, side, px, qty);
    }
  
    /** Recompute the cached best of one side from occupancy. */
    method RefreshBest(side: Side)
      requires Sound() && Uncrossed(live)
      modifies this`bestBidTick, this`bestBidPx, this`bestAskTick, this`bestAskPx
      ensures Sound() && Shaped(comp) && BestOk(live, comp, side, BestTick(side), BestPx(side))
      ensures BestTick(side.Opposite()) == old(BestTick(side.Opposite()))
      ensures BestPx(side.Opposite()) == old(BestPx(side.Opposite()))
    {
      hide Arranged, Regular, PriceToIndex, Uncrossed, TopOf, Tally, Recorded, Represents, SlabOk, PriceAsc,
           FirstOnWalk, BestOk;
      RegularShaped(comp);
      var tick := ScanNext(side);
      var px, _ := TopAt(side, tick);
      if side == Buy {
        bestBidTick, bestBidPx := tick, px;
      } else {
        bestAskTick, bestAskPx := tick, px;
      }
      if tick == NONE {
        ScanFindsNothing(orders.slots, live, comp, activeLevels, queues, side, Members(side));
      } else {
        FirstIsMarked(activeLevels, comp, side, Members(side), tick);
        SlotsBelowNone(orders.slots, live, comp, activeLevels, queues);
        ScanFindsBest(orders.slots, live, comp, activeLevels, queues, side, Members(side), tick, px);
      }
    }

    /** Set the side's occupancy bit, unless the level already held that side. */
    method Occupy(side: Side, tick: nat, wasEmpty: bool)
      requires bidOcc != askOcc && bidOcc.Valid() && askOcc.Valid() && tick < bidOcc.n == askOcc.n
      requires !wasEmpty ==> tick in Members(side)
      modifies bidOcc, askOcc
      ensures bidOcc.Valid() && askOcc.Valid() && bidOcc.n == askOcc.n == old(bidOcc.n)
      ensures bidOcc.members == if side == Buy then old(bidOcc.members) + {tick} else old(bidOcc.members)
      ensures askOcc.members == if side == Sell then old(askOcc.members) + {tick} else old(askOcc.members)
    {
      hide Represents;
      if wasEmpty {
        if side == Buy { bidOcc.Set(tick); } else { askOcc.Set(tick); }
      }
    }

    /** Clear the side's occupancy bit once the level holds none of that side. */
    method Vacate(side: Side, tick: nat, nowEmpty: bool)
      requires bidOcc != askOcc && bidOcc.Valid() && askOcc.Valid() && tick < bidOcc.n == askOcc.n
      modifies bidOcc, askOcc
      ensures bidOcc.Valid() && askOcc.Valid() && bidOcc.n == askOcc.n == old(bidOcc.n)
      ensures bidOcc.members == if side == Buy && nowEmpty then old(bidOcc.members) - {tick} else old(bidOcc.members)
      ensures askOcc.members == if side == Sell && nowEmpty then old(askOcc.members) - {tick} else old(askOcc.members)
    {
      hide Represents;
      if nowEmpty {
        if side == Buy { bidOcc.Clear(tick); } else { askOcc.Clear(tick); }
      }
    }

    /** Take over the side's best if the price improves it. */
    method ImproveBest(side: Side, tick: nat, price: int, ghost before: Book, ghost handle: nat)
      requires Sound() && handle !in before && handle in live && live == before[handle := live[handle]]
      requires BestOk(before, comp, Buy, bestBidTick, bestBidPx) && BestOk(before, comp, Sell, bestAskTick, bestAskPx)
      requires side == live[handle].side && price == live[handle].price && tick == PriceToIndex(comp, price)
      modifies this`bestBidTick, this`bestBidPx, this`bestAskTick, this`bestAskPx
      ensures Sound() && BestsOk()
    {
      hide Arranged, Regular, PriceToIndex, Recorded, Represents, SlabOk, PriceAsc, BestOk, Marked;
      RegularShaped(comp);
      BestInsert(before, comp, Buy, bestBidTick, bestBidPx, handle, live[handle]);
      BestInsert(before, comp, Sell, bestAskTick, bestAskPx, handle, live[handle]);
      if side == Buy {
        if bestBidTick == NONE || price > bestBidPx {
          bestBidTick, bestBidPx := tick, price;
        }
      } else {
        if bestAskTick == NONE || price < bestAskPx {
          bestAskTick, bestAskPx := tick, price;
        }
      }
    }

    /** Append an event; the buffer never grows past its capacity. */
    method Emit(event: Event)
      requires Sound() && |events| < MAX_EVENTS
      modifies this`events
      ensures Sound() && events == old(events) + [event]
    {
      hide Arranged, Regular, Recorded, Represents, SlabOk, PriceAsc, Marked;
      events := events + [event];
    }

    /** Move the positions of taker and maker by a fill. */
    method SettleFill(taker: nat, maker: nat, side: Side, qty: int)
      requires Sound()
      modifies this`users
      ensures Sound() && users == ApplyFill(old(users), taker, maker, side, qty)
    {
      hide Arranged, Regular, Recorded, Represents, SlabOk, PriceAsc, Marked;
      users := ApplyFill(users, taker, maker, side, qty);
    }

    /** Count a resting order for its user. */
    method AddUserOrder(user: nat)
      requires Sound()
      modifies this`users
      ensures Sound() && users == Assigned(old(users), user)
    {
      hide Arranged, Regular, Recorded, Represents, SlabOk, PriceAsc, Marked;
      users := Assigned(users, user);
    }

    /** Link a stored order behind the tail of its level. */
    method LinkTail(handle: nat, ghost o: Order)
      requires Sound()
      requires Linkable(orders.slots, orders.free, live, comp, sequence, handle, o)
      modifies this`activeLevels, this`queues, this`live, orders`slots, bidOcc, askOcc
      ensures Sound()
      ensures live == old(live)[handle := o]
      ensures LinksOnly(old(orders.slots), orders.slots, old(live), handle)
      ensures queues == Enqueued(old(queues), SlotOf(comp, o.price), handle)
      ensures |orders.slots| == |old(orders.slots)|
    {
      hide Arranged, Regular, PriceToIndex, Recorded, Represents, SlabOk, PriceAsc, BestOk, Marked,
           Linkable, LinksOnly, AppendSlots, Shaped, AppendLevel, SideCount;
      RegularShaped(comp);
      LinkFacts(orders.slots, orders.free, live, comp, activeLevels, queues, sequence, handle, o);
      var slot := orders.slots[handle];
      var tick := slot.tick;
      var before := activeLevels[tick];
      var level := AppendLevel(before, handle, slot.remaining, slot.side);
      MarkAppend(activeLevels, bidOcc.members, askOcc.members, tick, handle, slot.remaining, slot.side);
      SlabFrame(orders.slots, AppendSlots(orders.slots, before, handle), orders.freeHead, orders.bumpNext, orders.free);
      orders.slots := AppendSlots(orders.slots, before, handle);
      activeLevels := activeLevels[tick := level];
      queues := queues[tick := queues[tick] + [handle]];
      live := live[handle := o];
      Occupy(slot.side, tick, SideCount(before, slot.side) == 0);
    }
  
    /** Allocate a handle and write the order into its slot, unlinked. */
    method Store(price: int, qty: int, side: Side, tif: TimeInForce, user: nat, reduceOnly: bool, id: OrderId)
      returns (handle: nat)
      requires Sound() && Holds()
      requires 0 < price <= I64_MAX && price % config.tickSize == 0
      requires orders.free != [] || orders.bumpNext < |orders.slots|
      modifies this`sequence, orders
      ensures Sound() && sequence == old(sequence) + 1
      ensures handle == Upcoming(old(orders.free), old(orders.bumpNext), 0) && handle !in live && handle !in left
      ensures Linkable(orders.slots, orders.free, live, comp, sequence, handle,
                       Order(side, price, qty, qty, tif, reduceOnly, user, id, sequence))
      ensures Taken(old(orders.bumpNext), old(orders.free), orders.bumpNext, orders.free, handle)
      ensures |orders.slots| == |old(orders.slots)|
      ensures forall g | 0 <= g < |orders.slots| && g != handle :: orders.slots[g] == old(orders.slots)[g]
    {
      hide Arranged, Regular, PriceToIndex, Recorded, Represents, SlabOk, PriceAsc, Marked, Linkable, Shaped, Owned, Taken;
      RegularShaped(comp);
      BandOfIndex(comp, price);
      var tick := PriceToIndex(comp, price);
      OwnedDisjoint(orders.slots, orders.bumpNext, orders.free, live, left);
      handle := orders.Alloc();
      var slot := OrderSlot(price, qty, qty, side, tif, true, reduceOnly, NONE, NONE, tick, user,
                            (sequence + 1) % U32_MODULUS, id);
      ghost var o := Order(side, price, qty, qty, tif, reduceOnly, user, id, sequence + 1);
      StoreFacts(orders.slots, orders.freeHead, orders.bumpNext, orders.free, live, comp, activeLevels, queues,
                 sequence, handle, slot, o);
      orders.slots := orders.slots[handle := slot];
      sequence := sequence + 1;
    }

    lemma ValidIsIntact()
      ensures Valid() <==> Intact() && Positive(live) && Uncrossed(live)
    {
      hide Sound, Holds, BestsOk, Positive, Uncrossed;
    }

    /** Rest an order at the tail of its price's level, without matching it. */
    method InsertResting(
      price: int, qty: int, side: Side, tif: TimeInForce, user: nat, reduceOnly: bool, id: OrderId)
      returns (handle: nat)
      requires Intact() && 0 < price <= I64_MAX && price % config.tickSize == 0
      requires orders.free != [] || orders.bumpNext < |orders.slots|
      modifies this`activeLevels, this`queues, this`live, this`bestBidTick, this`bestBidPx, this`bestAskTick,
               this`bestAskPx, this`sequence, this`users, orders, bidOcc, askOcc
      ensures Intact()
      ensures handle == Upcoming(old(orders.free), old(orders.bumpNext), 0) && handle !in old(live)
      ensures live == old(live)[handle := Order(side, price, qty, qty, tif, reduceOnly, user, id, sequence)]
      ensures sequence == old(sequence) + 1
      ensures users == Assigned(old(users), user)
      ensures queues == Enqueued(old(queues), SlotOf(comp, price), handle) && |orders.slots| == |old(orders.slots)|
    {
      hide Valid, Arranged, Regular, PriceToIndex, Recorded, Represents, SlabOk, PriceAsc, BestOk, Marked, Linkable,
           LinksOnly, Shaped, Owned, Uncrossed, Positive, Crosses, Taken, Sound, Enqueued, SlotOf;
      handle := Store(price, qty, side, tif, user, reduceOnly, id);
      ghost var o := Order(side, price, qty, qty, tif, reduceOnly, user, id, sequence);
      LinkableFields(orders.slots, orders.free, live, comp, sequence, handle, o);
      ghost var slots := orders.slots;
      var tick := orders.slots[handle].tick;
      LinkTail(handle, o);
      ImproveBest(side, tick, price, old(live), handle);
      AddUserOrder(user);
      OwnedLink(old(orders.slots), old(orders.bumpNext), old(orders.free), old(live), left,
                slots, orders.slots, orders.bumpNext, orders.free, handle, o);
    }
  
    /** Unlink an order from its level. The slab slot stays allocated. */
    method UnlinkOrder(handle: nat)
      requires Sound() && handle in live && forall g | g in live :: g !in orders.free
      modifies this`activeLevels, this`queues, this`live, orders`slots, bidOcc, askOcc
      ensures Sound()
      ensures live == old(live) - {handle}
      ensures LinksOnly(old(orders.slots), orders.slots, old(live), handle)
      ensures queues == Dequeued(old(queues), SlotOf(comp, old(live)[handle].price), handle)
      ensures |orders.slots| == |old(orders.slots)|
    {
      hide Arranged, Regular, PriceToIndex, Recorded, Represents, SlabOk, PriceAsc, Marked, LinksOnly, UnlinkSlots,
           Shaped, UnlinkLevel, SideCount;
      SlabBounds(orders.slots, orders.freeHead, orders.bumpNext, orders.free);
      RegularShaped(comp);
      UnlinkFacts(orders.slots, orders.free, live, comp, activeLevels, queues, sequence, handle);
      var slot := orders.slots[handle];
      var tick := slot.tick;
      var level := UnlinkLevel(activeLevels[tick], slot);
      MarkUnlink(activeLevels, bidOcc.members, askOcc.members, tick, slot);
      SlabFrame(orders.slots, UnlinkSlots(orders.slots, handle), orders.freeHead, orders.bumpNext, orders.free);
      orders.slots := UnlinkSlots(orders.slots, handle);
      activeLevels := activeLevels[tick := level];
      queues := queues[tick := Removed(queues[tick], handle)];
      live := live - {handle};
      Vacate(slot.side, tick, SideCount(level, slot.side) == 0);
    }
  
    /** Return an unlinked order's slot to the slab. */
    method Release(handle: nat)
      requires Sound() && orders.InUse(handle) && handle !in live
      modifies orders
      ensures Sound()
      ensures orders.free == [handle] + old(orders.free) && orders.bumpNext == old(orders.bumpNext)
      ensures |orders.slots| == |old(orders.slots)| && handle < |orders.slots| && !orders.slots[handle].active
      ensures forall g | 0 <= g < |orders.slots| && g != handle :: orders.slots[g] == old(orders.slots)[g]
    {
      hide Arranged, Regular, Recorded, Represents, SlabOk, PriceAsc, Marked, Shaped;
      ReleaseFacts(orders.slots, orders.freeHead, orders.bumpNext, orders.free, live, comp, activeLevels, queues, handle);
      ghost var slots, head := orders.slots, orders.freeHead;
      orders.slots := orders.slots[handle := orders.slots[handle].(active := false)];
      orders.Free(handle);
      assert orders.slots == slots[handle := slots[handle].(active := false, next := head)];
    }

    /** What the slot at a handle says about the order resting there. */
    lemma AtHandle(handle: nat)
      requires Valid() && handle < |orders.slots|
      ensures forall g | g in live :: orders.InUse(g)
      ensures orders.slots[handle].active <==> handle in live
      ensures handle in live ==> Stores(orders.slots[handle], live[handle], PriceToIndex(comp, live[handle].price))
    {
      hide Arranged, Regular, PriceToIndex, Recorded, Represents, SlabOk, PriceAsc, BestOk, Marked, Shaped, Owned,
           Uncrossed, Positive, Stores;
      ActiveIsLive(orders.slots, orders.bumpNext, orders.free, live, comp, activeLevels, queues, handle);
      OwnedDisjoint(orders.slots, orders.bumpNext, orders.free, live, left);
    }

    /** Take a completely filled maker out of the book and report it done. */
    method RetireFilled(handle: nat, user: nat, id: OrderId) returns (ghost mid: seq<OrderSlot>)
      requires Sound() && handle in live && orders.InUse(handle) && forall g | g in live :: g !in orders.free
      requires |events| < MAX_EVENTS && handle < |orders.slots|
      modifies this`activeLevels, this`queues, this`live, this`events, orders, bidOcc, askOcc
      ensures Sound() && live == old(live) - {handle}
      ensures events == old(events) + [OrderDone(handle, user, Filled, old(orders.slots)[handle].original, 0, id)]
      ensures queues == Dequeued(old(queues), SlotOf(comp, old(live)[handle].price), handle)
      ensures orders.free == [handle] + old(orders.free) && orders.bumpNext == old(orders.bumpNext)
      ensures LinksOnly(old(orders.slots), mid, old(live), handle)
      ensures |old(orders.slots)| == |mid| == |orders.slots| && !orders.slots[handle].active
      ensures forall g | 0 <= g < |mid| && g != handle :: orders.slots[g] == mid[g]
    {
      hide Sound, LinksOnly, SlotOf, Dequeued;
      UnlinkOrder(handle);
      mid := orders.slots;
      LinksOnlyKeeps(old(orders.slots), mid, old(live), handle, handle);
      Emit(OrderDone(handle, user, Filled, orders.slots[handle].original, 0, id));
      Release(handle);
    }

    /** Take a fill off a maker's remaining quantity and report it. */
    method DebitMaker(handle: nat, taker: IncomingOrder, qty: int)
      requires Sound() && handle in live && handle < |orders.slots| && |events| < MAX_EVENTS
      modifies this`activeLevels, this`live, this`events, this`users, orders`slots
      ensures Sound()
      ensures var maker := old(orders.slots)[handle];
              && live == old(live)[handle := old(live)[handle].(qty := maker.remaining - qty)]
              && orders.slots == old(orders.slots)[handle := maker.(remaining := maker.remaining - qty)]
              && events == old(events) + [Fill(handle, maker.user, taker.user, maker.price, qty, taker.side, maker.id,
                                               taker.id)]
              && users == ApplyFill(old(users), taker.user, maker.user, taker.side, qty)
    {
      hide Sound, ApplyFill;
      var maker := orders.slots[handle];
      Requantify(handle, maker.remaining - qty);
      Emit(Fill(handle, maker.user, taker.user, maker.price, qty, taker.side, maker.id, taker.id));
      SettleFill(taker.user, maker.user, taker.side, qty);
    }

    /** What is stored for a resting order. */
    lemma AtLive(handle: nat)
      requires Steady() && handle in live
      ensures Shaped(comp) && handle < |orders.slots|
      ensures Stores(orders.slots[handle], live[handle], PriceToIndex(comp, live[handle].price))
      ensures orders.slots[handle].price == live[handle].price && orders.slots[handle].side == live[handle].side
      ensures orders.slots[handle].remaining == live[handle].qty && orders.slots[handle].user == live[handle].user
      ensures orders.slots[handle].original == live[handle].original && orders.slots[handle].id == live[handle].id
      ensures forall g | g in live :: orders.InUse(g)
    {
      hide Arranged, Regular, PriceToIndex, Recorded, Represents, SlabOk, PriceAsc, Marked, Shaped, Owned,
           Uncrossed, Positive;
      ArrangedOrder(orders.slots, live, comp, activeLevels, queues, handle);
      OwnedDisjoint(orders.slots, orders.bumpNext, orders.free, live, left);
    }

    /** Cancel the order resting at a handle, if there is one. */
    method CancelOrder(handle: nat) returns (ok: bool)
      requires Valid() && handle < |orders.slots|
      modifies this`activeLevels, this`queues, this`live, this`bestBidTick, this`bestBidPx, this`bestAskTick,
               this`bestAskPx, orders, bidOcc, askOcc
      ensures Valid()
      ensures ok <==> handle in old(live)
      ensures live == old(live) - {handle} && |orders.slots| == |old(orders.slots)|
      ensures orders.bumpNext == old(orders.bumpNext)
      ensures orders.free == if ok then [handle] + old(orders.free) else old(orders.free)
      ensures !ok ==> unchanged(this) && unchanged(orders) && unchanged(bidOcc) && unchanged(askOcc)
    {
      hide Arranged, Regular, PriceToIndex, Recorded, Represents, SlabOk, PriceAsc, BestOk, Marked, LinksOnly,
           Shaped, Owned, Uncrossed, Positive, Sound;
      AtHandle(handle);
      var slot := orders.slots[handle];
      if !slot.active { return false; }
      UncrossedRemove(live, handle);
      PositiveRemove(live, handle);
      if slot.side == Sell || slot.tick != bestBidTick {
        BestKept(live, comp, Buy, bestBidTick, bestBidPx, handle);
      }
      if slot.side == Buy || slot.tick != bestAskTick {
        BestKept(live, comp, Sell, bestAskTick, bestAskPx, handle);
      }
      UnlinkOrder(handle);
      ghost var mid := orders.slots;
      if slot.tick == BestTick(slot.side) { RefreshBest(slot.side); }
      Release(handle);
      OwnedUnlink(old(orders.slots), orders.bumpNext, old(orders.free), old(live), left, mid, orders.slots, orders.free,
                  handle);
      return true;
    }
  
    predicate OrderMatches(handle: nat, user: nat, id: OrderId)
      reads this, orders
    {
      && handle < |orders.slots|
      && orders.slots[handle].active
      && orders.slots[handle].user == user
      && orders.slots[handle].id == id
    }

    /** The identity check on the slot finds exactly the order still resting there. */
    lemma MatchesIsNamed(handle: nat, user: nat, id: OrderId)
      requires Valid()
      ensures OrderMatches(handle, user, id) <==> Named(live, handle, user, id)
      ensures handle in live ==> handle < |orders.slots| && orders.slots[handle].remaining == live[handle].qty
    {
      hide Arranged, Regular, PriceToIndex, Recorded, Represents, SlabOk, PriceAsc, BestOk, Marked, Shaped, Owned,
           Uncrossed, Positive;
      if handle in live { ArrangedOrder(orders.slots, live, comp, activeLevels, queues, handle); }
      if handle < |orders.slots| { AtHandle(handle); }
    }

    /** Cancel only if the handle still holds the order of that identity. */
    method CancelOrderChecked(handle: nat, user: nat, id: OrderId) returns (ok: bool)
      requires Valid()
      modifies this`activeLevels, this`queues, this`live, this`bestBidTick, this`bestBidPx, this`bestAskTick,
               this`bestAskPx, orders, bidOcc, askOcc
      ensures Valid()
      ensures ok <==> Named(old(live), handle, user, id)
      ensures live == if ok then old(live) - {handle} else old(live)
      ensures |orders.slots| == |old(orders.slots)|
      ensures !ok ==> unchanged(this) && unchanged(orders) && unchanged(bidOcc) && unchanged(askOcc)
    {
      hide Valid, Named;
      MatchesIsNamed(handle, user, id);
      if !OrderMatches(handle, user, id) { return false; }
      NamedIsLive(live, handle, user, id);
      ok := CancelOrder(handle);
    }

    /** Cancel at the old price and rest again at the new one, at the back of its queue. */
    method ModifyOrderPrice(
      handle: nat, newPrice: int, side: Side, tif: TimeInForce, user: nat, reduceOnly: bool, id: OrderId)
      returns (r: Option<nat>)
      requires Valid()
      requires Named(live, handle, user, id) ==>
                 0 < newPrice <= I64_MAX && newPrice % config.tickSize == 0
      modifies this`activeLevels, this`queues, this`live, this`bestBidTick, this`bestBidPx, this`bestAskTick,
               this`bestAskPx, this`sequence, this`users, orders, bidOcc, askOcc
      ensures Intact()
      ensures (forall g | g in old(live) && g != handle :: !Crosses(old(live)[g], side, newPrice)) ==> Valid()
      ensures r == if Named(old(live), handle, user, id) then Some(handle) else None
      ensures r.Some? ==> live == old(live)[handle := Order(side, newPrice, old(live)[handle].qty, old(live)[handle].qty,
                                                            tif, reduceOnly, user, id, sequence)]
      ensures r.Some? ==> forall g | g in live && g != handle :: live[g].stamp < live[handle].stamp
      ensures r.None? ==> unchanged(this) && unchanged(orders) && unchanged(bidOcc) && unchanged(askOcc)
    {
      hide Arranged, Regular, PriceToIndex, Represents, SlabOk, PriceAsc, BestOk, Marked, Shaped, Owned,
           Uncrossed, Crosses, Sound, Recorded;
      MatchesIsNamed(handle, user, id);
      if !OrderMatches(handle, user, id) { return None; }
      var qty := orders.slots[handle].remaining;
      StampsIssued();
      PositiveAt(live, handle);
      var _ := CancelOrder(handle);
      ValidIsIntact();
      ghost var rest := live;
      var h := InsertResting(newPrice, qty, side, tif, user, reduceOnly, id);
      PositiveInsert(rest, h, live[h]);
      if forall g | g in rest :: !Crosses(rest[g], side, newPrice) { UncrossedInsert(rest, h, live[h]); }
      ValidIsIntact();
      return Some(h);
    }

    lemma StampsIssued()
      requires Sound()
      ensures forall g | g in live :: live[g].stamp <= sequence
    {
      hide Arranged, Regular, PriceToIndex, Represents, SlabOk, PriceAsc, Marked, Shaped;
    }

    /** Reduce the remaining quantity in place, or cancel at zero. */
    method ModifyOrderQtyDown(handle: nat, newQty: int, user: nat, id: OrderId) returns (ok: bool)
      requires Valid()
      modifies this`activeLevels, this`queues, this`live, this`bestBidTick, this`bestBidPx, this`bestAskTick,
               this`bestAskPx, orders, bidOcc, askOcc
      ensures Intact() && (newQty >= 0 || !ok ==> Valid())
      ensures ok <==> Named(old(live), handle, user, id) && newQty < old(live)[handle].qty
      ensures live == if !ok then old(live)
                      else if newQty == 0 then old(live) - {handle}
                      else old(live)[handle := old(live)[handle].(qty := newQty)]
      ensures newQty != 0 ==> queues == old(queues)
      ensures |orders.slots| == |old(orders.slots)|
      ensures !ok ==> unchanged(this) && unchanged(orders) && unchanged(bidOcc) && unchanged(askOcc)
    {
      hide Arranged, Regular, PriceToIndex, Recorded, Represents, SlabOk, PriceAsc, BestOk, Marked, Shaped, Owned,
           Uncrossed, Sound;
      MatchesIsNamed(handle, user, id);
      if !OrderMatches(handle, user, id) { return false; }
      if newQty == 0 {
        ok := CancelOrder(handle);
        return;
      }
      if newQty >= orders.slots[handle].remaining { return false; }
      BestRequantified(live, comp, Buy, bestBidTick, bestBidPx, handle, newQty);
      BestRequantified(live, comp, Sell, bestAskTick, bestAskPx, handle, newQty);
      UncrossedRequantify(live, handle, newQty);
      OwnedRequantify(orders.slots, orders.bumpNext, orders.free, live, left, handle, newQty);
      Requantify(handle, newQty);
      return true;
    }

    /** Write an order's remaining quantity and move its level's total by the difference. */
    method Requantify(handle: nat, qty: int)
      requires Sound() && handle in live
      modifies this`activeLevels, this`live, orders`slots
      ensures Sound()
      ensures live == old(live)[handle := old(live)[handle].(qty := qty)]
      ensures handle < |old(orders.slots)|
      ensures orders.slots == old(orders.slots)[handle := old(orders.slots)[handle].(remaining := qty)]
    {
      hide Arranged, Regular, PriceToIndex, Recorded, Represents, SlabOk, PriceAsc, Marked, Shaped;
      RequantifyFacts(orders.slots, orders.freeHead, orders.bumpNext, orders.free, live, comp, activeLevels, queues,
                      sequence, handle, qty);
      var slot := orders.slots[handle];
      var level := activeLevels[slot.tick];
      var total := level.totalQty - (slot.remaining - qty);
      MarkRequantify(activeLevels, Buy, bidOcc.members, slot.tick, total);
      MarkRequantify(activeLevels, Sell, askOcc.members, slot.tick, total);
      orders.slots := orders.slots[handle := slot.(remaining := qty)];
      activeLevels := activeLevels[slot.tick := level.(totalQty := total)];
      live := live[handle := live[handle].(qty := qty)];
    }

    /** Best price of each side and the quantity resting at it. */
    method CurrentBbo() returns (bidPx: int, bidQty: int, askPx: int, askQty: int)
      requires Valid()
      ensures Stamped(live)
      ensures bidPx == bestBidPx && bidQty == RestingAt(live, Buy, bidPx)
      ensures askPx == bestAskPx && askQty == RestingAt(live, Sell, askPx)
    {
      hide Valid;
      bidPx, bidQty := BestQuote(Buy);
      askPx, askQty := BestQuote(Sell);
    }

    method BestQuote(side: Side) returns (px: int, qty: int)
      requires Valid()
      ensures Stamped(live)
      ensures px == BestPx(side) && qty == RestingAt(live, side, px)
    {
      hide Arranged, Regular, PriceToIndex, Represents, SlabOk, PriceAsc, Marked, Shaped, Owned,
           Uncrossed, RestingAt, TopOf, Tally, Positive;
      RegularShaped(comp);
      SlotsBelowNone(orders.slots, live, comp, activeLevels, queues);
      BandOfIndex(comp, BestPx(side));
      var tick := BestTick(side);
      px, qty := TopAt(side, tick);
      if tick == NONE {
        NothingResting(live, comp, side, px);
      } else {
        ghost var g :| g in live && live[g].side == side && live[g].price == BestPx(side);
        SideIsCounted(orders.slots, live, comp, activeLevels, queues, g);
        TopIsBest(orders.slots, live, comp, activeLevels, queues, side, tick, BestPx(side), px);
        SlotHoldsPrice(orders.slots, live, comp, activeLevels, queues, side, px);
      }
    }
  
    /** Count the buys and sells linked into one level. */
    method CountSides(tick: nat) returns (bids: nat, asks: nat)
      requires Arranged(orders.slots, live, comp, activeLevels, queues) && |orders.slots| <= NONE
      requires tick < |activeLevels|
      ensures bids == activeLevels[tick].bidCount && asks == activeLevels[tick].askCount
    {
      hide Arranged, Tally, Walkable, Stores, HeadOf;
      ArrangedShaped(orders.slots, live, comp, activeLevels, queues);
      LevelWalk(orders.slots, live, comp, activeLevels, queues, tick);
      bids, asks := 0, 0;
      var cursor := activeLevels[tick].head;
      ghost var q, i := queues[tick], 0;
      CountStart(live, q);
      while cursor != NONE
        invariant i <= |q| && cursor == HeadOf(q[i..])
        invariant bids == CountUpTo(live, q, i, Buy) && asks == CountUpTo(live, q, i, Sell)
        decreases |q| - i
      {
        WalkStep(orders.slots, live, q, i);
        StoredFields(orders.slots[q[i]], live[q[i]], orders.slots[q[i]].tick);
        CountStep(live, q, i);
        var order := orders.slots[cursor];
        if order.side == Buy { bids := bids + 1; } else { asks := asks + 1; }
        cursor := order.next;
        i := i + 1;
      }
      WalkEnd(orders.slots, live, q, i);
      CountEnd(orders.slots, live, comp, activeLevels, queues, tick);
    }

    /** Rebuild both bitmaps and the per-side counts from the linked orders. */
    method RebuildOccupancy()
      requires Valid()
      modifies this`bidOcc, this`askOcc, this`activeLevels
      ensures Valid() && fresh(bidOcc) && fresh(askOcc)
      ensures activeLevels == old(activeLevels)
      ensures bidOcc.members == old(bidOcc.members) && askOcc.members == old(askOcc.members)
    {
      hide Arranged, Regular, PriceToIndex, Recorded, Represents, SlabOk, PriceAsc, BestOk, Marked, Shaped, Owned,
           Uncrossed, Positive, SideCount;
      SlabBounds(orders.slots, orders.freeHead, orders.bumpNext, orders.free);
      var n := |activeLevels|;
      var bids := new Occupancy(n);
      var asks := new Occupancy(n);
      MarkedStart(activeLevels, Buy);
      MarkedStart(activeLevels, Sell);
      for i := 0 to n
        invariant activeLevels == old(activeLevels) && bidOcc == old(bidOcc) && askOcc == old(askOcc)
        invariant bidOcc.members == old(bidOcc.members) && askOcc.members == old(askOcc.members)
        invariant fresh(bids) && fresh(asks) && bids != asks && bids.Valid() && asks.Valid() && bids.n == asks.n == n
        invariant MarkedUpTo(activeLevels, i, Buy, bids.members) && MarkedUpTo(activeLevels, i, Sell, asks.members)
      {
        var b, a := CountSides(i);
        MarkedNext(activeLevels, i, Buy, bids.members);
        MarkedNext(activeLevels, i, Sell, asks.members);
        activeLevels := activeLevels[i := activeLevels[i].(bidCount := b, askCount := a)];
        assert activeLevels == old(activeLevels);
        if b > 0 { bids.Set(i); }
        if a > 0 { asks.Set(i); }
      }
      MarkedEnd(activeLevels, Buy, bids.members, bidOcc.members);
      MarkedEnd(activeLevels, Sell, asks.members, askOcc.members);
      bidOcc, askOcc := bids, asks;
    }
  }
}
