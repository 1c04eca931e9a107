/** Matching an incoming order against the book. */
module Matching {
  import opened Types
  import opened Compression
  import opened Bitmap
  import opened Arena
  import opened PriceTime
  import opened Levels
  import opened Arrangement
  import opened BookFacts
  import opened OrderBook
  import opened MatchFacts

  /** The book while the taker eats the other side: only that side's best may lag. */
  ghost predicate Eating(book: Orderbook, taker: Side)
    reads book, book.orders, book.bidOcc, book.askOcc
  {
    && book.Steady() && Shaped(book.comp)
    && BestOk(book.live, book.comp, taker, book.BestTick(taker), book.BestPx(taker))
  }

  /** Fill one resting maker, and retire it if nothing is left. */
  method FillMaker(book: Orderbook, handle: nat, taker: IncomingOrder, qty: int)
    requires Eating(book, taker.side)
    requires handle in book.live && book.live[handle].side != taker.side && 0 < qty <= book.live[handle].qty
    requires |book.events| + 2 <= MAX_EVENTS
    modifies book`activeLevels, book`queues, book`live, book`events, book`users,
             book.orders, book.bidOcc, book.askOcc
    ensures Eating(book, taker.side)
    ensures book.orders.bumpNext == old(book.orders.bumpNext)
    ensures |book.orders.slots| == |old(book.orders.slots)| && |book.orders.free| >= |old(book.orders.free)|
    ensures FilledOne(old(book.live), book.live, old(book.queues), book.queues, book.comp,
                      old(book.events), book.events, old(book.users), book.users, taker, handle, qty)
  {
    hide Arranged, Regular, PriceToIndex, Recorded, Represents, SlabOk, PriceAsc, BestOk, Marked, LinksOnly, Shaped,
         Owned, Uncrossed, Positive, Stores, Dequeued, AfterFills, ApplyFill, SlotOf;
    hide Orderbook.Sound;
    ghost var o := book.live[handle];
    book.AtLive(handle);
    var maker := book.orders.slots[handle];
    OneFillBook(book.live, handle, qty);
    AfterFillsKeeps(book.live, map[handle := qty]);
    BestOtherSide(book.live, book.comp, taker.side, book.BestTick(taker.side), book.BestPx(taker.side), map[handle := qty]);
    var remaining := maker.remaining - qty;
    OwnedRequantify(book.orders.slots, book.orders.bumpNext, book.orders.free, book.live, book.left, handle, remaining);
    book.DebitMaker(handle, taker, qty);
    if remaining == 0 {
      ghost var mid := book.RetireFilled(handle, maker.user, maker.id);
      OwnedFilled(old(book.orders.slots), book.orders.bumpNext, old(book.orders.free), old(book.live), book.left,
                  mid, book.orders.slots, book.orders.free, handle);
    }
  }

  predicate IsCrossing(makerSide: Side, makerPrice: int, taker: Side, limit: int) {
    makerSide != taker && if taker == Buy then makerPrice <= limit else makerPrice >= limit
  }

  /** A match emits a fill and a completion per maker, so the event count is twice the makers consumed. */
  predicate IsBudgetSpent(book: Orderbook)
    reads book
  {
    |book.events| >= 2 * MAX_MAKERS_PER_ORDER
  }

  /** How many more makers the cap allows. */
  function Room(events: seq<Event>): int { MAX_MAKERS_PER_ORDER - |events| / 2 }

  /** A walk over `q` stands before its `i`-th handle; `kept` is what it left behind in the queue. */
  ghost predicate AtWalk(queue: seq<nat>, kept: seq<nat>, q: seq<nat>, i: nat, cursor: nat) {
    i <= |q| && queue == kept + q[i..] && cursor == HeadOf(q[i..])
  }

  lemma WalkStarts(q: seq<nat>)
    ensures AtWalk(q, [], q, 0, HeadOf(q))
  {
    assert q[0..] == q && [] + q == q;
  }

  lemma WalkPasses(queue: seq<nat>, kept: seq<nat>, q: seq<nat>, i: nat, cursor: nat)
    requires AtWalk(queue, kept, q, i, cursor) && i < |q|
    ensures AtWalk(queue, kept + [q[i]], q, i + 1, HeadOf(q[i + 1..]))
  {
    SuffixAt(queue, kept, q, i);
  }

  /** The cursor of a walk stands on the next handle of the queue. */
  lemma AtCursor(book: Orderbook, tick: nat, kept: seq<nat>, q: seq<nat>, i: nat)
    requires book.Steady() && tick < |book.queues|
    requires i <= |q| && AtWalk(book.queues[tick], kept, q, i, HeadOf(q[i..])) && HeadOf(q[i..]) != NONE
    ensures i < |q| && HeadOf(q[i..]) == q[i] && q[i] in book.live && q[i] < |book.orders.slots|
    ensures book.orders.slots[q[i]].next == HeadOf(q[i + 1..])
    ensures SlotOf(book.comp, book.live[q[i]].price) == tick
    ensures Distinct(book.queues[tick])
  {
    hide Regular, Recorded, Represents, PriceAsc, Marked, Owned, Uncrossed, Positive, Arranged, PriceToIndex, Stores,
         LevelOk, SlabOk;
    SlabBounds(book.orders.slots, book.orders.freeHead, book.orders.bumpNext, book.orders.free);
    LevelWalk(book.orders.slots, book.live, book.comp, book.activeLevels, book.queues, tick);
    ArrangedLevel(book.orders.slots, book.live, book.comp, book.activeLevels, book.queues, tick);
    ArrangedShaped(book.orders.slots, book.live, book.comp, book.activeLevels, book.queues);
    SuffixAt(book.queues[tick], kept, q, i);
    assert book.queues[tick][|kept|] in book.queues[tick];
  }

  /** A cursor on a handle: which one, what is stored there, and where the walk goes next. */
  lemma CursorFacts(book: Orderbook, tick: nat, kept: seq<nat>, q: seq<nat>, i: nat, cursor: nat)
    requires book.Steady() && tick < |book.queues|
    requires AtWalk(book.queues[tick], kept, q, i, cursor) && cursor != NONE
    ensures i < |q| && cursor == q[i] && cursor in book.live && cursor < |book.orders.slots|
    ensures book.orders.slots[cursor].next == HeadOf(q[i + 1..])
    ensures book.orders.slots[cursor].price == book.live[cursor].price
    ensures book.orders.slots[cursor].side == book.live[cursor].side
  {
    hide Orderbook.Steady;
    AtCursor(book, tick, kept, q, i);
    book.AtLive(cursor);
  }

  lemma AtCursorEnd(book: Orderbook, tick: nat, kept: seq<nat>, q: seq<nat>, i: nat)
    requires book.Steady() && tick < |book.queues|
    requires AtWalk(book.queues[tick], kept, q, i, NONE)
    ensures i == |q|
  {
    hide Regular, Recorded, Represents, PriceAsc, Marked, Owned, Uncrossed, Positive, Arranged, PriceToIndex, Stores,
         LevelOk, SlabOk;
    SlabBounds(book.orders.slots, book.orders.freeHead, book.orders.bumpNext, book.orders.free);
    LevelWalk(book.orders.slots, book.live, book.comp, book.activeLevels, book.queues, tick);
    SuffixEnd(book.orders.slots, book.live, book.queues[tick], kept, q, i);
  }

  /** One step of the walk at a crossing maker. */
  method TakeAtCursor(
    book: Orderbook, tick: nat, cursor: nat, taker: IncomingOrder, limit: int, rem: int,
    ghost q: seq<nat>, ghost i: nat, ghost kept: seq<nat>)
    returns (qty: int, ghost kept': seq<nat>)
    requires Eating(book, taker.side) && tick < |book.queues| && i < |q| && rem > 0 && cursor == q[i] != NONE
    requires book.queues[tick] == kept + q[i..] && cursor in book.live && cursor < |book.orders.slots|
    requires Crosses(book.live[cursor], taker.side, limit) && |book.events| + 2 <= MAX_EVENTS
    modifies book`activeLevels, book`queues, book`live, book`events, book`users,
             book.orders, book.bidOcc, book.askOcc
    ensures qty == Least(rem, old(book.live)[cursor].qty) && qty > 0
    ensures |book.queues| == |old(book.queues)| && book.queues[tick] == kept' + q[i + 1..]
    ensures book.orders.bumpNext == old(book.orders.bumpNext)
    ensures |book.orders.slots| == |old(book.orders.slots)| && |book.orders.free| >= |old(book.orders.free)|
    ensures Passed(old(book.live), book.live, old(book.events), book.events, old(book.users), book.users, taker,
                   map[cursor := qty], [cursor])
    ensures Eating(book, taker.side)
  {
    hide Passed, SlotOf, Positive, Uncrossed, BestOk, Shaped, Dequeued, AfterFills, MakerEvents, ApplyFill, Distinct;
    hide Orderbook.Sound, Orderbook.Holds;
    assert AtWalk(book.queues[tick], kept, q, i, cursor);
    AtCursor(book, tick, kept, q, i);
    book.AtLive(cursor);
    PositiveAt(book.live, cursor);
    QueueAfterTake(book.queues, tick, kept, q, i);
    qty := Least(rem, book.orders.slots[cursor].remaining);
    kept' := if qty < book.live[cursor].qty then kept + [cursor] else kept;
    FillMaker(book, cursor, taker, qty);
    OnePassed(old(book.live), book.live, old(book.queues), book.queues, book.comp, old(book.events), book.events,
              old(book.users), book.users, taker, cursor, qty);
  }

  /** Take from the crossing maker at the cursor and add it to the walk so far. */
  method TakeNext(
    book: Orderbook, tick: nat, cursor: nat, taker: IncomingOrder, limit: int, rem: int,
    ghost q: seq<nat>, ghost i: nat, ghost kept: seq<nat>, ghost b0: Book, ghost e0: seq<Event>, ghost u0: map<nat, int>,
    ghost rem0: int, ghost room: int, ghost fills: Fills, ghost trace: seq<nat>)
    returns (rem': int, ghost fills': Fills, ghost trace': seq<nat>, ghost kept': seq<nat>)
    requires Eating(book, taker.side) && tick < |book.queues| && i < |q| && rem > 0 && cursor == q[i] != NONE
    requires AtWalk(book.queues[tick], kept, q, i, cursor) && cursor in book.live && cursor < |book.orders.slots|
    requires |book.events| + 2 <= MAX_EVENTS && Distinct(q) && Resting(b0, q) && Fifo(b0, q) && |fills| < room
    requires cursor in b0 && b0[cursor] == book.live[cursor] && Crosses(b0[cursor], taker.side, limit)
    requires Sweeping(b0, q, i, taker.side, limit, rem0, room, rem, fills, trace) && AllFull(b0, fills)
    requires Passed(b0, book.live, e0, book.events, u0, book.users, taker, fills, trace)
    modifies book`activeLevels, book`queues, book`live, book`events, book`users,
             book.orders, book.bidOcc, book.askOcc
    ensures |book.queues| == |old(book.queues)|
    ensures AtWalk(book.queues[tick], kept', q, i + 1, HeadOf(q[i + 1..]))
    ensures book.orders.bumpNext == old(book.orders.bumpNext)
    ensures |book.orders.slots| == |old(book.orders.slots)| && |book.orders.free| >= |old(book.orders.free)|
    ensures Sweeping(b0, q, i + 1, taker.side, limit, rem0, room, rem', fills', trace')
    ensures Passed(b0, book.live, e0, book.events, u0, book.users, taker, fills', trace')
    ensures Eating(book, taker.side)
  {
    hide Passed, Sweeping, Distinct, Joined, AllFull, Crosses, Traces, Total, Fifo, Resting;
    hide Eating;
    SweepingTake(b0, q, i, taker.side, limit, rem0, room, rem, fills, trace);
    ghost var mid, e1, u1 := book.live, book.events, book.users;
    var qty: int;
    qty, kept' := TakeAtCursor(book, tick, cursor, taker, limit, rem, q, i, kept);
    OneTotal(cursor, qty);
    PassedJoin(b0, mid, book.live, e0, e1, book.events, u0, u1, book.users, taker,
               fills, trace, map[cursor := qty], [cursor]);
    rem' := rem - qty;
    fills', trace' := Joined(fills, map[cursor := qty]), trace + [cursor];
  }

  /** Walk one level from its head and fill every opposite maker priced within `limit`. */
  method FillLevel(book: Orderbook, tick: nat, taker: IncomingOrder, limit: int, rem0: int)
    returns (rem: int, ghost fills: Fills, ghost trace: seq<nat>)
    requires Eating(book, taker.side) && tick < |book.queues| && rem0 >= 0
    requires |book.events| % 2 == 0 && |book.events| <= 2 * MAX_MAKERS_PER_ORDER
    modifies book`activeLevels, book`queues, book`live, book`events, book`users,
             book.orders, book.bidOcc, book.askOcc
    ensures Eating(book, taker.side) && |book.queues| == |old(book.queues)|
    ensures Resting(old(book.live), old(book.queues)[tick])
    ensures fills == Sweep(old(book.live), old(book.queues)[tick], taker.side, limit, rem0, Room(old(book.events)))
    ensures Accounted(old(book.live), rem0, rem, Room(old(book.events)), fills, trace)
    ensures Passed(old(book.live), book.live, old(book.events), book.events, old(book.users), book.users, taker,
                   fills, trace)
    ensures book.orders.bumpNext == old(book.orders.bumpNext)
    ensures |book.orders.slots| == |old(book.orders.slots)| && |book.orders.free| >= |old(book.orders.free)|
  {
    hide Passed, SlotOf, Positive, Uncrossed, BestOk, Shaped, Sweeping, Accounted, Sweep, Distinct, Resting, Joined,
         AllFull, Crosses, IsCrossing, AtWalk, HeadOf;
    hide Eating, Orderbook.Steady;
    EatingSteady(book, taker.side);
    ghost var b0, q, room := book.live, book.queues[tick], Room(book.events);
    LevelAtRest(book, tick);
    rem, fills, trace := rem0, map[], [];
    var cursor := book.activeLevels[tick].head;
    ghost var i, kept: seq<nat> := 0, [];
    WalkStarts(q);
    NothingPassed(b0, book.events, book.users, taker);
    SweepingStart(b0, q, taker.side, limit, rem0, room);
    while cursor != NONE && rem > 0 && !IsBudgetSpent(book)
      invariant Eating(book, taker.side) && |book.queues| == |old(book.queues)|
      invariant i <= |q| && AtWalk(book.queues[tick], kept, q, i, cursor)
      invariant Sweeping(b0, q, i, taker.side, limit, rem0, room, rem, fills, trace)
      invariant Passed(b0, book.live, old(book.events), book.events, old(book.users), book.users, taker, fills, trace)
      invariant book.orders.bumpNext == old(book.orders.bumpNext)
      invariant |book.orders.slots| == |old(book.orders.slots)| && |book.orders.free| >= |old(book.orders.free)|
      decreases |q| - i
    {
      EatingSteady(book, taker.side);
      CursorFacts(book, tick, kept, q, i, cursor);
      SweepingFacts(b0, book.live, old(book.events), book.events, old(book.users), book.users, taker,
                    q, i, limit, rem0, room, rem, fills, trace);
      var maker := book.orders.slots[cursor];
      CrossingMeans(b0[cursor], taker.side, limit);
      if !IsCrossing(maker.side, maker.price, taker.side, limit) {
        SweepingSkip(b0, q, i, taker.side, limit, rem0, room, rem, fills, trace);
        WalkPasses(book.queues[tick], kept, q, i, cursor);
        kept := kept + [q[i]];
      } else {
        rem, fills, trace, kept := TakeNext(book, tick, cursor, taker, limit, rem, q, i, kept, b0, old(book.events),
                                            old(book.users), rem0, room, fills, trace);
      }
      cursor := maker.next;
      i := i + 1;
    }
    EatingSteady(book, taker.side);
    if cursor == NONE { AtCursorEnd(book, tick, kept, q, i); }
    SweepingFinish(b0, book.live, old(book.events), book.events, old(book.users), book.users, taker,
                   q, i, limit, rem0, room, rem, fills, trace);
  }

  lemma CrossingMeans(o: Order, taker: Side, limit: int)
    ensures IsCrossing(o.side, o.price, taker, limit) <==> Crosses(o, taker, limit)
  {
  }

  lemma EatingSteady(book: Orderbook, taker: Side)
    requires Eating(book, taker)
    ensures book.Steady()
  {
  }

  lemma LevelAtRest(book: Orderbook, tick: nat)
    requires book.Steady() && tick < |book.queues|
    ensures |book.activeLevels| == |book.queues| && book.activeLevels[tick].head == HeadOf(book.queues[tick])
    ensures Resting(book.live, book.queues[tick]) && Distinct(book.queues[tick]) && Fifo(book.live, book.queues[tick])
  {
    hide Regular, Recorded, Represents, PriceAsc, Marked, Owned, Uncrossed, Positive, Arranged, PriceToIndex, Stores,
         SlabOk;
    ArrangedLevel(book.orders.slots, book.live, book.comp, book.activeLevels, book.queues, tick);
  }

  /** The opposite makers of a slot that cross the taker's limit. */
  method ScanCrossing(book: Orderbook, tick: nat, taker: IncomingOrder)
    returns (bestPrice: int, qty: int, makers: nat)
    requires book.Steady() && tick < |book.queues|
    ensures Scanned(book.live, book.queues[tick], taker.side, taker.price, bestPrice, qty, makers)
  {
    hide Scanned, Walkable, HeadOf, Tally, Stores;
    hide Orderbook.Sound, Orderbook.Holds;
    LevelAtRest(book, tick);
    LevelWalkable(book, tick);
    bestPrice, qty, makers := taker.price, 0, 0;
    var cursor := book.activeLevels[tick].head;
    ghost var q, i := book.queues[tick], 0;
    ScanStart(book.live, taker.side, taker.price);
    while cursor != NONE
      invariant i <= |q| && cursor == HeadOf(q[i..])
      invariant Scanned(book.live, q[..i], taker.side, taker.price, bestPrice, qty, makers)
      decreases |q| - i
    {
      WalkStep(book.orders.slots, book.live, q, i);
      StoredFields(book.orders.slots[q[i]], book.live[q[i]], book.orders.slots[q[i]].tick);
      ScanStep(book.live, q[..i], taker.side, taker.price, bestPrice, qty, makers, q[i]);
      assert q[..i] + [q[i]] == q[..i + 1];
      var maker := book.orders.slots[cursor];
      if IsCrossing(maker.side, maker.price, taker.side, taker.price) {
        makers := makers + 1;
        qty := qty + maker.remaining;
        bestPrice := if taker.side == Buy then Min(bestPrice, maker.price) else Max(bestPrice, maker.price);
      }
      cursor := maker.next;
      i := i + 1;
    }
    WalkEnd(book.orders.slots, book.live, q, i);
    assert q[..i] == q;
  }

  lemma LevelWalkable(book: Orderbook, tick: nat)
    requires book.Steady() && tick < |book.queues|
    ensures Walkable(book.orders.slots, book.live, book.queues[tick])
    ensures Elements(book.queues[tick]) == SlotPool(book.live, book.comp, tick)
  {
    hide Regular, Recorded, Represents, PriceAsc, Marked, Owned, Uncrossed, Positive, Arranged, PriceToIndex, Stores,
         SlabOk, Walkable;
    SlabBounds(book.orders.slots, book.orders.freeHead, book.orders.bumpNext, book.orders.free);
    LevelWalk(book.orders.slots, book.live, book.comp, book.activeLevels, book.queues, tick);
    PoolIsQueue(book.orders.slots, book.live, book.comp, book.activeLevels, book.queues, tick);
  }

  /** Fill a level in arrival order, where that is priority order. */
  method FillFairly(book: Orderbook, tick: nat, taker: IncomingOrder, rem0: int)
    returns (rem: int, ghost fills: Fills, ghost trace: seq<nat>)
    requires Eating(book, taker.side) && tick < |book.queues| && rem0 > 0
    requires |book.events| % 2 == 0 && |book.events| <= 2 * MAX_MAKERS_PER_ORDER
    requires Resting(book.live, book.queues[tick])
    requires WalkIsFair(book.live, book.queues[tick], taker.side, taker.price, rem0, Room(book.events))
    modifies book`activeLevels, book`queues, book`live, book`events, book`users,
             book.orders, book.bidOcc, book.askOcc
    ensures |book.queues| == |old(book.queues)| && book.orders.bumpNext == old(book.orders.bumpNext)
    ensures |book.orders.slots| == |old(book.orders.slots)| && |book.orders.free| >= |old(book.orders.free)|
    ensures SlotPass(old(book.live), book.comp, tick, taker, rem0, rem, Room(old(book.events)), fills, trace)
    ensures Passed(old(book.live), book.live, old(book.events), book.events, old(book.users), book.users, taker,
                   fills, trace)
    ensures Eating(book, taker.side)
  {
    hide Passed, Positive, Uncrossed, BestOk, Shaped, Sweep, Distinct, Resting, WalkIsFair, Fifo, Progress, Halted,
         SlotPool, Elements, Total;
    hide Orderbook.Sound, Orderbook.Holds;
    LevelAtRest(book, tick);
    LevelWalkable(book, tick);
    ghost var b0, q := book.live, book.queues[tick];
    rem, fills, trace := FillLevel(book, tick, taker, taker.price, rem0);
    SweepProgress(b0, q, taker.side, taker.price, rem0, Room(old(book.events)), fills, trace);
  }

  /** One price round of a compressed slot: the best crossing price, oldest first. */
  method FillBestPrice(
    book: Orderbook, tick: nat, taker: IncomingOrder, rem: int, best: int, ghost qty: int, ghost makers: int,
    ghost b0: Book, ghost rem0: int, ghost room: int, ghost fills: Fills, ghost trace: seq<nat>)
    returns (rem': int, ghost fills': Fills, ghost trace': seq<nat>, ghost f: Fills, ghost t: seq<nat>)
    requires Eating(book, taker.side) && tick < |book.queues| && rem > 0 && makers > 0
    requires |book.events| % 2 == 0 && |book.events| <= 2 * MAX_MAKERS_PER_ORDER
    requires Scanned(book.live, book.queues[tick], taker.side, taker.price, best, qty, makers)
    requires Progress(b0, SlotPool(b0, book.comp, tick), taker.side, taker.price, rem0, rem, room, fills, trace)
    requires book.live == AfterFills(b0, fills) && room - |fills| == Room(book.events)
    modifies book`activeLevels, book`queues, book`live, book`events, book`users,
             book.orders, book.bidOcc, book.askOcc
    ensures |book.queues| == |old(book.queues)| && book.orders.bumpNext == old(book.orders.bumpNext)
    ensures |book.orders.slots| == |old(book.orders.slots)| && |book.orders.free| >= |old(book.orders.free)|
    ensures fills' == Joined(fills, f) && trace' == trace + t && Traces(t, f)
    ensures Progress(b0, SlotPool(b0, book.comp, tick), taker.side, taker.price, rem0, rem', room, fills', trace')
    ensures book.live == AfterFills(b0, fills') && |fills'| == |fills| + |f|
    ensures rem' == 0 || |fills'| == room || |f| > 0
    ensures rem' > 0 ==> |book.events| == |old(book.events)| + 2 * |f|
    ensures Passed(old(book.live), book.live, old(book.events), book.events, old(book.users), book.users, taker, f, t)
    ensures Eating(book, taker.side)
  {
    hide Passed, Positive, Uncrossed, BestOk, Shaped, Sweep, Distinct, Resting, Fifo, Progress,
         SlotPool, Elements, Total, Scanned, AfterFills, AllFull, Joined;
    hide Orderbook.Sound, Orderbook.Holds;
    LevelAtRest(book, tick);
    LevelWalkable(book, tick);
    ghost var q := book.queues[tick];
    rem', f, t := FillLevel(book, tick, taker, best, rem);
    Round(b0, book.comp, tick, taker.side, taker.price, best, rem0, rem, room, fills, trace, q, qty, makers,
          rem', f, t);
    EventsSpent(old(book.live), book.live, old(book.events), book.events, old(book.users), book.users, taker, f, t,
                rem, rem', room - |fills|);
    PassedBook(old(book.live), book.live, old(book.events), book.events, old(book.users), book.users, taker, f, t);
    fills', trace' := Joined(fills, f), trace + t;
  }

  /** A slot of several prices: all crossing makers in arrival order if the taker and the cap
      cover them, otherwise one price at a time, best first. */
  method MatchCompressedSlot(book: Orderbook, tick: nat, taker: IncomingOrder, rem0: int)
    returns (rem: int, ghost fills: Fills, ghost trace: seq<nat>)
    requires Eating(book, taker.side) && tick < |book.queues| && rem0 > 0
    requires |book.events| % 2 == 0 && |book.events| <= 2 * MAX_MAKERS_PER_ORDER
    modifies book`activeLevels, book`queues, book`live, book`events, book`users,
             book.orders, book.bidOcc, book.askOcc
    ensures |book.queues| == |old(book.queues)| && book.orders.bumpNext == old(book.orders.bumpNext)
    ensures |book.orders.slots| == |old(book.orders.slots)| && |book.orders.free| >= |old(book.orders.free)|
    ensures SlotPass(old(book.live), book.comp, tick, taker, rem0, rem, Room(old(book.events)), fills, trace)
    ensures Passed(old(book.live), book.live, old(book.events), book.events, old(book.users), book.users, taker,
                   fills, trace)
    ensures Eating(book, taker.side)
  {
    hide Passed, Positive, Uncrossed, BestOk, Shaped, Resting, Progress, Halted, SlotPool, Elements, Scanned,
         AfterFills, OnePrice, Tally, AllFull, Traces, Joined;
    hide Orderbook.Sound, Orderbook.Holds, Orderbook.Steady;
    var best, qty, makers := ScanCrossing(book, tick, taker);
    var free := Max(MAX_MAKERS_PER_ORDER - |book.events| / 2, 0);
    ScannedSums(book.live, book.queues[tick], taker.side, taker.price, best, qty, makers);
    if qty <= rem0 && makers <= free {
      rem, fills, trace := FillFairly(book, tick, taker, rem0);
      return;
    }
    ghost var b0, room := book.live, Room(book.events);
    rem, fills, trace := rem0, map[], [];
    NoProgress(b0, SlotPool(b0, book.comp, tick), taker.side, taker.price, rem0, room);
    NothingPassed(b0, book.events, book.users, taker);
    while makers > 0
      invariant Eating(book, taker.side) && rem > 0 && |book.queues| == |old(book.queues)|
      invariant book.orders.bumpNext == old(book.orders.bumpNext)
      invariant |book.orders.slots| == |old(book.orders.slots)| && |book.orders.free| >= |old(book.orders.free)|
      invariant Scanned(book.live, book.queues[tick], taker.side, taker.price, best, qty, makers)
      invariant Progress(b0, SlotPool(b0, book.comp, tick), taker.side, taker.price, rem0, rem, room, fills, trace)
      invariant book.live == AfterFills(b0, fills)
      invariant |book.events| == |old(book.events)| + 2 * |fills| && |fills| <= room
      invariant Passed(b0, book.live, old(book.events), book.events, old(book.users), book.users, taker, fills, trace)
      decreases room - |fills|
    {
      ghost var mid, e1, u1, fills1, trace1 := book.live, book.events, book.users, fills, trace;
      ghost var f, t;
      ProgressFull(b0, SlotPool(b0, book.comp, tick), taker.side, taker.price, rem0, rem, room, fills, trace);
      rem, fills, trace, f, t := FillBestPrice(book, tick, taker, rem, best, qty, makers, b0, rem0, room, fills, trace);
      PassedJoin(b0, mid, book.live, old(book.events), e1, book.events, old(book.users), u1, book.users, taker,
                 fills1, trace1, f, t);
      ProgressRange(b0, SlotPool(b0, book.comp, tick), taker.side, taker.price, rem0, rem, room, fills, trace);
      if rem == 0 || IsBudgetSpent(book) {
        HaltedNow(b0, SlotPool(b0, book.comp, tick), taker.side, taker.price, rem, room, fills);
        return;
      }
      best, qty, makers := ScanCrossing(book, tick, taker);
    }
    LevelWalkable(book, tick);
    ScannedNone(book.live, book.queues[tick], taker.side, taker.price, best, qty);
    SlotExhausted(b0, book.comp, tick, taker.side, taker.price, rem, room, fills, book.queues[tick]);
  }

  /** A zone-0 slot holds one price. */
  lemma ZoneZeroFair(book: Orderbook, tick: nat, taker: Side, limit: int, rem: int, room: int)
    requires book.Steady() && Shaped(book.comp) && tick < |book.queues| && tick < book.comp.zoneSlots[0]
    ensures Resting(book.live, book.queues[tick])
    ensures WalkIsFair(book.live, book.queues[tick], taker, limit, rem, room)
  {
    hide Regular, Represents, PriceAsc, Marked, Owned, Uncrossed, Positive, Arranged, PriceToIndex, Stores,
         SlabOk, Tally, Crosses, LevelOk;
    ArrangedLevel(book.orders.slots, book.live, book.comp, book.activeLevels, book.queues, tick);
    forall g, h | g in book.queues[tick] && h in book.queues[tick]
      ensures book.live[g].price == book.live[h].price
    {
      ZoneZeroSingle(book.orders.slots, book.live, book.comp, book.activeLevels, book.queues, tick, g, h);
    }
  }

  /** Match against the makers of one slot. */
  method MatchAtLevel(book: Orderbook, tick: nat, taker: IncomingOrder, rem0: int)
    returns (rem: int, ghost fills: Fills, ghost trace: seq<nat>)
    requires Eating(book, taker.side) && tick < |book.queues| && rem0 > 0
    requires |book.events| % 2 == 0 && |book.events| <= 2 * MAX_MAKERS_PER_ORDER
    modifies book`activeLevels, book`queues, book`live, book`events, book`users,
             book.orders, book.bidOcc, book.askOcc
    ensures |book.queues| == |old(book.queues)| && book.orders.bumpNext == old(book.orders.bumpNext)
    ensures |book.orders.slots| == |old(book.orders.slots)| && |book.orders.free| >= |old(book.orders.free)|
    ensures SlotPass(old(book.live), book.comp, tick, taker, rem0, rem, Room(old(book.events)), fills, trace)
    ensures Passed(old(book.live), book.live, old(book.events), book.events, old(book.users), book.users, taker,
                   fills, trace)
    ensures Eating(book, taker.side)
  {
    hide Passed, BestOk, Resting, SlotPass, WalkIsFair;
    hide Orderbook.Steady;
    if tick < book.comp.zoneSlots[0] {
      ZoneZeroFair(book, tick, taker.side, taker.price, rem0, Room(book.events));
      rem, fills, trace := FillFairly(book, tick, taker, rem0);
    } else {
      rem, fills, trace := MatchCompressedSlot(book, tick, taker, rem0);
    }
  }

  lemma BestTickInRange(book: Orderbook, side: Side)
    requires book.Valid()
    ensures book.BestTick(side) != NONE ==> book.BestTick(side) < |book.queues|
    ensures book.BestTick(side) == NONE ==> forall h | h in book.live :: book.live[h].side != side
    ensures Eating(book, side) && Eating(book, side.Opposite()) && Stamped(book.live)
    ensures Regular(book.comp) && Shaped(book.comp)
    ensures BestOk(book.live, book.comp, side, book.BestTick(side), book.BestPx(side))
    ensures Arranged(book.orders.slots, book.live, book.comp, book.activeLevels, book.queues)
  {
    hide Represents, PriceAsc, Marked, Owned, Uncrossed, Positive, Arranged, SlabOk, PriceToIndex, Regular;
    ArrangedShaped(book.orders.slots, book.live, book.comp, book.activeLevels, book.queues);
    if book.BestTick(side) != NONE { BandOfIndex(book.comp, book.BestPx(side)); }
  }

  /** Bring the eaten side's best up to date. */
  method RefreshEaten(book: Orderbook, taker: Side)
    requires Eating(book, taker)
    modifies book`bestBidTick, book`bestBidPx, book`bestAskTick, book`bestAskPx
    ensures book.Valid()
  {
    hide Positive, Uncrossed, BestOk, Owned, Shaped;
    hide Orderbook.Sound;
    book.RefreshBest(taker.Opposite());
  }

  /** One round of the match: the best slot, then the new best. */
  method MatchTouch(
    book: Orderbook, taker: IncomingOrder, rem: int,
    ghost b0: Book, ghost rem0: int, ghost fills: Fills, ghost trace: seq<nat>)
    returns (rem': int, ghost fills': Fills, ghost trace': seq<nat>, ghost f: Fills, ghost t: seq<nat>)
    requires book.Valid() && book.BestTick(taker.side.Opposite()) != NONE && rem > 0
    requires Progress(b0, b0.Keys, taker.side, taker.price, rem0, rem, MAX_MAKERS_PER_ORDER, fills, trace)
    requires book.live == AfterFills(b0, fills)
    requires |book.events| == 2 * |fills| && |fills| <= MAX_MAKERS_PER_ORDER
    modifies book`activeLevels, book`queues, book`live, book`events, book`users, book`bestBidTick, book`bestBidPx,
             book`bestAskTick, book`bestAskPx, book.orders, book.bidOcc, book.askOcc
    ensures book.orders.bumpNext == old(book.orders.bumpNext)
    ensures |book.orders.slots| == |old(book.orders.slots)| && |book.orders.free| >= |old(book.orders.free)|
    ensures fills' == Joined(fills, f) && trace' == trace + t && Traces(t, f)
    ensures Progress(b0, b0.Keys, taker.side, taker.price, rem0, rem', MAX_MAKERS_PER_ORDER, fills', trace')
    ensures book.live == AfterFills(b0, fills') && |fills'| == |fills| + |f| && rem' <= rem
    ensures rem' == rem ==>
              Halted(b0, b0.Keys, taker.side, taker.price, rem', MAX_MAKERS_PER_ORDER, fills')
    ensures rem' > 0 ==> |book.events| == 2 * |fills'|
    ensures |book.events| <= 2 * MAX_MAKERS_PER_ORDER
    ensures Passed(old(book.live), book.live, old(book.events), book.events, old(book.users), book.users, taker, f, t)
    ensures book.Valid()
  {
    hide Passed, BestOk, SlotPass, Progress, Halted, AfterFills, Traces, Positive, Uncrossed, Arranged, Regular, Joined;
    hide Orderbook.Steady, Eating, Orderbook.Valid;
    var opp := taker.side.Opposite();
    BestTickInRange(book, opp);
    var tick := book.BestTick(opp);
    ghost var mid, comp, px := book.live, book.comp, book.BestPx(opp);
    ghost var slots, levels, queues := book.orders.slots, book.activeLevels, book.queues;
    OppositeTwice(taker.side);
    rem', f, t := MatchAtLevel(book, tick, taker, rem);
    TouchRound(slots, mid, comp, levels, queues, tick, px, b0, taker, rem0, rem, MAX_MAKERS_PER_ORDER, fills, trace,
               rem', f, t);
    TouchEvents(mid, book.live, old(book.events), book.events, old(book.users), book.users, comp, tick, taker, rem, rem',
                MAX_MAKERS_PER_ORDER - |fills|, f, t);
    RefreshEaten(book, taker.side);
    fills', trace' := Joined(fills, f), trace + t;
  }

  /** One round, added to the rounds before it. */
  method MatchRound(
    book: Orderbook, taker: IncomingOrder, rem: int,
    ghost b0: Book, ghost u0: map<nat, int>, ghost rem0: int, ghost fills: Fills, ghost trace: seq<nat>)
    returns (rem': int, ghost fills': Fills, ghost trace': seq<nat>)
    requires book.Valid() && book.BestTick(taker.side.Opposite()) != NONE && rem > 0
    requires Between(b0, book.live, book.events, u0, book.users, taker, rem0, rem, fills, trace)
    modifies book`activeLevels, book`queues, book`live, book`events, book`users, book`bestBidTick, book`bestBidPx,
             book`bestAskTick, book`bestAskPx, book.orders, book.bidOcc, book.askOcc
    ensures book.orders.bumpNext == old(book.orders.bumpNext)
    ensures |book.orders.slots| == |old(book.orders.slots)| && |book.orders.free| >= |old(book.orders.free)|
    ensures rem' <= rem && Between(b0, book.live, book.events, u0, book.users, taker, rem0, rem', fills', trace')
    ensures rem' == rem ==> Halted(b0, b0.Keys, taker.side, taker.price, rem', MAX_MAKERS_PER_ORDER, fills')
    ensures book.Valid()
  {
    hide Passed, Progress, Halted, AfterFills, Traces, Joined, AllFull;
    hide Orderbook.Valid;
    ghost var mid, e1, u1, f, t := book.live, book.events, book.users, map[], [];
    ProgressFull(b0, b0.Keys, taker.side, taker.price, rem0, rem, MAX_MAKERS_PER_ORDER, fills, trace);
    ProgressRange(b0, b0.Keys, taker.side, taker.price, rem0, rem, MAX_MAKERS_PER_ORDER, fills, trace);
    rem', fills', trace', f, t := MatchTouch(book, taker, rem, b0, rem0, fills, trace);
    PassedJoin(b0, mid, book.live, [], e1, book.events, u0, u1, book.users, taker, fills, trace, f, t);
    ProgressRange(b0, b0.Keys, taker.side, taker.price, rem0, rem', MAX_MAKERS_PER_ORDER, fills', trace');
  }

  /** Match until the taker is done, nothing crosses, or the maker cap is reached. */
  method MatchLoop(book: Orderbook, taker: IncomingOrder, rem0: int)
    returns (rem: int, ghost fills: Fills, ghost trace: seq<nat>)
    requires book.Valid() && book.events == [] && rem0 >= 0
    modifies book`activeLevels, book`queues, book`live, book`events, book`users, book`bestBidTick, book`bestBidPx,
             book`bestAskTick, book`bestAskPx, book.orders, book.bidOcc, book.askOcc
    ensures book.orders.bumpNext == old(book.orders.bumpNext)
    ensures |book.orders.slots| == |old(book.orders.slots)| && |book.orders.free| >= |old(book.orders.free)|
    ensures Stamped(old(book.live)) && Matched(old(book.live), taker, rem0, rem, fills, trace)
    ensures Passed(old(book.live), book.live, [], book.events, old(book.users), book.users, taker, fills, trace)
    ensures |book.events| <= 2 * MAX_MAKERS_PER_ORDER
    ensures rem > 0 ==> |book.events| == 2 * |fills|
    ensures book.Valid()
  {
    hide Between, Passed, Halted, AfterFills, Matched, Stamped, Positive, Uncrossed, Arranged, Regular, Shaped, BestOk;
    hide Orderbook.Valid, Eating;
    var opp := taker.side.Opposite();
    BestTickInRange(book, opp);
    AllPositive(book);
    ghost var b0 := book.live;
    rem, fills, trace := rem0, map[], [];
    BetweenStart(b0, book.users, taker, rem0);
    while rem > 0 && book.BestTick(opp) != NONE
      invariant rem >= 0
      invariant book.Valid() && book.orders.bumpNext == old(book.orders.bumpNext)
      invariant |book.orders.slots| == |old(book.orders.slots)| && |book.orders.free| >= |old(book.orders.free)|
      invariant Between(b0, book.live, book.events, old(book.users), book.users, taker, rem0, rem, fills, trace)
      decreases rem
    {
      var before := rem;
      rem, fills, trace := MatchRound(book, taker, rem, b0, old(book.users), rem0, fills, trace);
      BetweenFacts(b0, book.live, book.events, old(book.users), book.users, taker, rem0, rem, fills, trace);
      if rem == before {
        BetweenEnd(b0, book.live, book.events, old(book.users), book.users, taker, rem0, rem, fills, trace);
        return;
      }
    }
    BetweenFacts(b0, book.live, book.events, old(book.users), book.users, taker, rem0, rem, fills, trace);
    if rem == 0 {
      HaltedNow(b0, b0.Keys, taker.side, taker.price, rem, MAX_MAKERS_PER_ORDER, fills);
    } else {
      BestTickInRange(book, opp);
      HaltedWithoutSide(b0, taker.side, taker.price, rem, MAX_MAKERS_PER_ORDER, fills);
    }
    BetweenEnd(b0, book.live, book.events, old(book.users), book.users, taker, rem0, rem, fills, trace);
  }

  lemma AllPositive(book: Orderbook)
    requires book.Valid()
    ensures Positive(book.live) && Uncrossed(book.live)
  {
    hide Orderbook.Sound;
  }
}
