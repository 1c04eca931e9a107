/** Processing a new order: checks, match, residual, best-price report. */
module NewOrder {
  import opened Types
  import opened Compression
  import opened Bitmap
  import opened Arena
  import opened PriceTime
  import opened Arrangement
  import opened BookFacts
  import opened OrderBook
  import opened MatchFacts
  import opened Matching
  import opened FokFacts
  import opened FillOrKill
  import opened Outcome

  lemma ValidFacts(book: Orderbook)
    requires book.Valid()
    ensures Stamped(book.live) && book.config.tickSize >= 1 && book.config.lotSize >= 1
    ensures Regular(book.comp) && Shaped(book.comp) && Priced(book.live, book.config.tickSize)
    ensures BestOk(book.live, book.comp, Buy, book.bestBidTick, book.bestBidPx)
    ensures BestOk(book.live, book.comp, Sell, book.bestAskTick, book.bestAskPx)
    ensures forall h | h in book.live :: book.live[h].stamp <= book.sequence
    ensures book.BestPx(Buy) == BestOf(book.live, Buy) && book.BestPx(Sell) == BestOf(book.live, Sell)
  {
    hide Represents, PriceAsc, Marked, Owned, Uncrossed, Positive, Arranged, SlabOk, PriceToIndex, Regular, BestOk, Shaped,
         BestOf;
    RegularShaped(book.comp);
    BestIsHead(book.live, book.comp, Buy, book.bestBidTick, book.bestBidPx);
    BestIsHead(book.live, book.comp, Sell, book.bestAskTick, book.bestAskPx);
  }

  /** Allocated handles are free or live, never both, and the counts add up. */
  lemma SlabPartition(book: Orderbook)
    requires book.Valid()
    ensures forall h: nat | h < book.orders.bumpNext :: h in book.live <==> h !in book.orders.free
    ensures forall h | h in book.live || h in book.orders.free :: h < book.orders.bumpNext
    ensures |book.live| + |book.orders.free| == book.orders.bumpNext <= |book.orders.slots|
    ensures book.orders.IsExhausted() <==> |book.live| >= |book.orders.slots|
    ensures book.orders.IsExhausted() <==> !(book.orders.free != [] || book.orders.bumpNext < |book.orders.slots|)
  {
    hide Represents, PriceAsc, Marked, Uncrossed, Positive, Arranged, PriceToIndex, Regular, BestOk, Recorded, Owned, SlabOk;
    OwnedCount(book.orders.slots, book.orders.freeHead, book.orders.bumpNext, book.orders.free, book.live, book.left);
  }

  /** Rest what is left of an order that nothing crosses. */
  method Rest(book: Orderbook, order: IncomingOrder, qty: int) returns (handle: nat)
    requires book.Valid() && qty > 0 && 0 < order.price <= I64_MAX && order.price % book.config.tickSize == 0
    requires !book.orders.IsExhausted() && !SomeCross(book.live, order.side, order.price)
    modifies book`activeLevels, book`queues, book`live, book`bestBidTick, book`bestBidPx, book`bestAskTick,
             book`bestAskPx, book`sequence, book`users, book.orders, book.bidOcc, book.askOcc
    ensures handle !in old(book.live) && book.live == old(book.live)[handle := Remnant(order, qty, book.sequence)]
    ensures book.sequence == old(book.sequence) + 1 && book.users == Assigned(old(book.users), order.user)
    ensures |book.orders.slots| == |old(book.orders.slots)|
    ensures book.queues == Enqueued(old(book.queues), SlotOf(book.comp, order.price), handle)
    ensures book.Valid()
  {
    hide Positive, Uncrossed, Crosses, Enqueued, SlotOf;
    hide Orderbook.Valid, Orderbook.Intact;
    SlabPartition(book);
    book.ValidIsIntact();
    NoneCross(book.live, order.side, order.price);
    handle := book.InsertResting(order.price, qty, order.side, order.tif, order.user, order.reduceOnly, order.id);
    PositiveInsert(old(book.live), handle, book.live[handle]);
    UncrossedInsert(old(book.live), handle, book.live[handle]);
    book.ValidIsIntact();
  }

  lemma NoneCross(book: Book, taker: Side, limit: int)
    requires !SomeCross(book, taker, limit)
    ensures forall g | g in book :: !Crosses(book[g], taker, limit)
  {
  }

  /** Append an event to a book at rest. */
  method Report(book: Orderbook, event: Event)
    requires book.Valid() && |book.events| < MAX_EVENTS
    modifies book`events
    ensures book.events == old(book.events) + [event]
    ensures book.Valid()
  {
    hide Positive, Uncrossed, BestOk, Owned, Shaped;
    hide Orderbook.Sound;
    book.Emit(event);
  }

  /** Forget the events of the previous call. */
  method ClearEvents(book: Orderbook)
    requires book.Valid()
    modifies book`events
    ensures book.events == [] && book.Valid()
  {
    hide Represents, PriceAsc, Marked, Owned, Uncrossed, Positive, Arranged, SlabOk, Regular, BestOk, Shaped, Recorded;
    book.events := [];
  }

  /** The checks before the match: the early verdict, if any, and the quantity to fill. */
  method Entry(book: Orderbook, order: IncomingOrder) returns (early: Option<Verdict>, size: int)
    requires book.Valid() && order.remaining == order.qty
    ensures Stamped(book.live) && book.config.tickSize >= 1 && book.config.lotSize >= 1
    ensures early == Gate(book.live, book.users, book.config, order,
                          CountedQty(book.live, book.queues, book.priceAsc, order.side, order.price))
    ensures early.Some? ==> !early.value.Rested? && (early.value.Completed? ==> early.value.unfilled == size)
    ensures early.None? ==> size == Size(book.users, order) && size > 0 && ValidTick(book.config, order.price)
  {
    hide CountedQty, SomeCross, BestOk, Regular, Shaped, Priced, BestOf;
    hide Orderbook.Valid;
    ValidFacts(book);
    var invalidTick := order.price <= 0 || order.price % book.config.tickSize != 0;
    if invalidTick || order.qty <= 0 || order.qty % book.config.lotSize != 0 {
      return Some(Rejected(if invalidTick then InvalidTick else InvalidLot)), order.qty;
    }
    size := order.remaining;
    if order.reduceOnly {
      if order.user !in book.users { return Some(Rejected(ReduceOnly)), size; }
      var net := book.users[order.user];
      if (if order.side == Buy then net >= 0 else net <= 0) { return Some(Rejected(ReduceOnly)), size; }
      var held := Least(Magnitude(net), I64_MAX);
      if size > held { size := held; }
    }
    var opp := order.side.Opposite();
    BestCrosses(book.live, book.comp, order.side, book.BestTick(opp), book.BestPx(opp), order.price);
    if order.postOnly {
      if book.BestTick(opp) != NONE && Key(opp, book.BestPx(opp)) <= Key(opp, order.price) {
        return Some(Completed(PostOnly, 0, size)), size;
      }
    }
    if order.tif == FOK {
      var ok := CanFillFully(book, order.side, order.price, size);
      if !ok { return Some(Rejected(FillOrKill)), size; }
    }
    return None, size;
  }

  /** The maker cap, not the book, stopped the match. */
  predicate IsMatchLimited(book: Orderbook, order: IncomingOrder)
    reads book
  {
    var opp := order.side.Opposite();
    IsBudgetSpent(book) && book.BestTick(opp) != NONE && Key(opp, book.BestPx(opp)) <= Key(opp, order.price)
  }

  /** Complete, expire or rest what the match left of the order; resting needs a handle. */
  method Conclude(book: Orderbook, order: IncomingOrder, size: int, rem: int)
    returns (exhausted: bool, verdict: Verdict, handle: nat)
    requires book.Valid() && 0 <= rem && 0 < order.price <= I64_MAX && order.price % book.config.tickSize == 0
    requires |book.events| <= 2 * MAX_MAKERS_PER_ORDER
    requires rem > 0 && !IsBudgetSpent(book) ==> !SomeCross(book.live, order.side, order.price)
    modifies book`activeLevels, book`queues, book`live, book`bestBidTick, book`bestBidPx, book`bestAskTick,
             book`bestAskPx, book`sequence, book`users, book`events, book.orders, book.bidOcc, book.askOcc
    ensures verdict == Residual(old(book.live), order, size, rem)
    ensures exhausted <==> verdict.Rested? && |old(book.live)| >= |book.orders.slots|
    ensures exhausted ==> book.live == old(book.live) && book.users == old(book.users) && book.events == old(book.events)
    ensures exhausted ==> book.sequence == old(book.sequence)
    ensures verdict.Completed? ==> verdict.unfilled == rem
    ensures verdict.Rested? ==> verdict.resting == rem
    ensures !exhausted && verdict.Rested? ==> handle !in old(book.live)
    ensures !exhausted ==> book.live == Settle(old(book.live), order, verdict, handle, book.sequence)
    ensures !exhausted ==>
              book.users == if verdict.Rested? then Assigned(old(book.users), order.user) else old(book.users)
    ensures !exhausted ==> book.events == old(book.events) + [Terminal(order, verdict, handle)]
    ensures !exhausted ==>
              book.sequence == if verdict.Rested? then old(book.sequence) + 1 else old(book.sequence)
    ensures |book.orders.slots| == |old(book.orders.slots)| && |book.events| <= 2 * MAX_MAKERS_PER_ORDER + 1
    ensures book.Valid()
  {
    hide BestOk, Regular, Shaped, Priced, BestOf, Stamped, SomeCross, Terminal;
    hide Orderbook.Valid;
    ValidFacts(book);
    SlabPartition(book);
    var opp := order.side.Opposite();
    BestCrosses(book.live, book.comp, order.side, book.BestTick(opp), book.BestPx(opp), order.price);
    exhausted, handle := false, NONE;
    if rem > 0 {
      if IsMatchLimited(book, order) {
        verdict := Completed(MatchLimit, size - rem, rem);
      } else {
        match order.tif
        case IOC => verdict := Completed(Expired, size - rem, rem);
        case FOK => verdict := Rejected(FillOrKill);
        case GTC =>
          verdict := Rested(rem);
          if book.orders.IsExhausted() { return true, verdict, NONE; }
          handle := Rest(book, order, rem);
      }
    } else {
      verdict := Completed(Filled, size, 0);
    }
    Report(book, Terminal(order, verdict, handle));
  }

  /** Report both sides' best if a tick or a price moved. */
  method ReportBbo(book: Orderbook, bidTick: nat, bidPx: int, askTick: nat, askPx: int, ghost before: Book)
    requires book.Valid() && |book.events| < MAX_EVENTS
    requires Stamped(before) && Shaped(book.comp) && book.config.tickSize >= 1 && Priced(before, book.config.tickSize)
    requires BestOk(before, book.comp, Buy, bidTick, bidPx) && BestOk(before, book.comp, Sell, askTick, askPx)
    modifies book`events
    ensures Stamped(book.live) && book.events == old(book.events) + BboReport(before, book.live)
    ensures |book.events| <= MAX_EVENTS
    ensures book.Valid()
  {
    hide BestOk, Regular, Shaped, Priced, BestOf, Stamped, RestingAt;
    hide Orderbook.Valid;
    ValidFacts(book);
    BestMoved(before, book.live, book.comp, Buy, bidTick, bidPx, book.bestBidTick, book.bestBidPx, book.config.tickSize);
    BestMoved(before, book.live, book.comp, Sell, askTick, askPx, book.bestAskTick, book.bestAskPx, book.config.tickSize);
    if book.bestBidTick != bidTick || book.bestAskTick != askTick || book.bestBidPx != bidPx || book.bestAskPx != askPx {
      var bp, bq, ap, aq := book.CurrentBbo();
      Report(book, Bbo(bp, bq, ap, aq));
    }
  }

  /**
   * Process a new order. What it does to the orders, the positions and the events is what the simple
   * book prescribes, except that an order which would rest in a full slab stops the process there,
   * after its fills.
   */
  method ProcessNewOrder(book: Orderbook, order: IncomingOrder)
    returns (exhausted: bool, remaining: int, ghost fills: Fills, ghost verdict: Verdict, ghost trace: seq<nat>,
             ghost handle: nat)
    requires book.Valid() && order.remaining == order.qty && order.price <= I64_MAX
    modifies book`activeLevels, book`queues, book`live, book`bestBidTick, book`bestBidPx, book`bestAskTick,
             book`bestAskPx, book`sequence, book`users, book`events, book.orders, book.bidOcc, book.askOcc
    ensures exhausted <==>
              FindsNoRoom(old(book.live), old(book.users), book.config, order, |book.orders.slots|)
    ensures !exhausted ==> Responded(
              old(book.live), old(book.users), book.config, order,
              CountedQty(old(book.live), old(book.queues), book.priceAsc, order.side, order.price),
              fills, verdict, trace, handle, book.sequence, book.live, book.users, book.events)
    ensures !exhausted ==>
              book.sequence == if verdict.Rested? then old(book.sequence) + 1 else old(book.sequence)
    ensures exhausted ==> Judged(
              old(book.live), old(book.users), book.config, order,
              CountedQty(old(book.live), old(book.queues), book.priceAsc, order.side, order.price), fills, verdict)
    ensures exhausted ==> book.live == AfterFills(old(book.live), fills) && book.sequence == old(book.sequence)
    ensures |book.orders.slots| == |old(book.orders.slots)|
    ensures verdict.Completed? ==> remaining == verdict.unfilled
    ensures verdict.Rested? ==> remaining == verdict.resting
    ensures |book.events| <= MAX_EVENTS
    ensures book.Valid()
  {
    hide BestOk, Regular, Shaped, Priced, BestOf, Stamped, CountedQty, Gate, Size, Residual, Sweep, Total, Ladder, BboReport,
         Settle, UsersAfter, FillEvents, AfterFills, Responded, Traces, FillsFor, Traded, Matched, Passed, Terminal, OldestFirst,
         SomeCross, FindsNoRoom;
    hide Orderbook.Valid;
    ClearEvents(book);
    ValidFacts(book);
    ghost var b0, u0 := book.live, book.users;
    var bidTick, bidPx, askTick, askPx := book.bestBidTick, book.bestBidPx, book.bestAskTick, book.bestAskPx;
    var early, size := Entry(book, order);
    ghost var counted := CountedQty(b0, book.queues, book.priceAsc, order.side, order.price);
    if early.Some? {
      Report(book, Terminal(order, early.value, NONE));
      exhausted, remaining, fills, verdict, trace, handle := false, size, map[], early.value, [], NONE;
      assert book.events == [Terminal(order, verdict, NONE)];
      EarlyHasRoom(b0, u0, book.config, order, counted, |book.orders.slots|);
      EarlyResponse(b0, u0, book.config, order, counted, verdict, book.sequence);
      return;
    }
    remaining, fills, trace := MatchLoop(book, order, size);
    ghost var b1, u1, e1 := book.live, book.users, book.events;
    MatchLeft(b0, b1, order, size, remaining, fills, trace, e1, u0, u1);
    RoomDecided(b0, u0, book.config, order, counted, fills, remaining, b1, |book.orders.slots|);
    exhausted, verdict, handle := Conclude(book, order, size, remaining);
    if exhausted { return; }
    ReportBbo(book, bidTick, bidPx, askTick, askPx, b0);
    MatchedResponse(b0, u0, book.config, order, counted, fills, remaining, verdict, trace, handle, book.sequence,
                    b1, u1, e1, book.live, book.users, book.events);
  }
}
