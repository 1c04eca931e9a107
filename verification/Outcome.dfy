/** What a new order does, stated on the simple book. */
module Outcome {
  import opened Types
  import opened Compression
  import opened PriceTime
  import opened Arrangement
  import opened BookFacts
  import opened MatchFacts

  datatype Verdict =
    | Rejected(failure: FailureReason)
    | Completed(reason: DoneReason, filled: int, unfilled: int)
    | Rested(resting: int)

  // ---------------------------------------------------------------------
  // Before the match.

  predicate ValidTick(config: BookConfig, price: int)
    requires config.tickSize >= 1
  {
    price > 0 && price % config.tickSize == 0
  }

  predicate ValidLot(config: BookConfig, qty: int)
    requires config.lotSize >= 1
  {
    qty > 0 && qty % config.lotSize == 0
  }

  function Magnitude(n: int): int { if n < 0 then -n else n }

  /** The user holds a position the order would shrink. */
  predicate Reduces(users: map<nat, int>, order: IncomingOrder) {
    order.user in users && if order.side == Buy then users[order.user] < 0 else users[order.user] > 0
  }

  /** The quantity the order tries to fill: a reduce-only order at most its position. */
  function Size(users: map<nat, int>, order: IncomingOrder): int {
    if order.reduceOnly && order.user in users
    then Least(order.qty, Least(Magnitude(users[order.user]), I64_MAX))
    else order.qty
  }

  /** Some resting order crosses the limit. */
  ghost predicate SomeCross(book: Book, taker: Side, limit: int) {
    exists h :: h in book && Crosses(book[h], taker, limit)
  }

  /** The verdict on an order that never reaches the match. */
  ghost function Gate(book: Book, users: map<nat, int>, config: BookConfig, order: IncomingOrder, counted: int)
    : Option<Verdict>
    requires config.tickSize >= 1 && config.lotSize >= 1
  {
    if !ValidTick(config, order.price) then Some(Rejected(InvalidTick))
    else if !ValidLot(config, order.qty) then Some(Rejected(InvalidLot))
    else if order.reduceOnly && !Reduces(users, order) then Some(Rejected(ReduceOnly))
    else if order.postOnly && SomeCross(book, order.side, order.price) then
      Some(Completed(PostOnly, 0, Size(users, order)))
    else if order.tif == FOK && counted < Size(users, order) then Some(Rejected(FillOrKill))
    else None
  }

  // ---------------------------------------------------------------------
  // The match and what is left of the order.

  /** The fills price-time priority gives the order. */
  ghost function FillsFor(book: Book, order: IncomingOrder, size: int): Fills
    requires Stamped(book)
  {
    Sweep(book, Ladder(book, order.side.Opposite()), order.side, order.price, size, MAX_MAKERS_PER_ORDER)
  }

  /** What the order filled. */
  ghost function Traded(book: Book, order: IncomingOrder, fills: Fills): int
    requires Stamped(book)
  {
    Total(fills, Ladder(book, order.side.Opposite()))
  }

  /** The verdict on an order that matched down to `rem`, leaving `after`. */
  ghost function Residual(after: Book, order: IncomingOrder, size: int, rem: int): Verdict {
    if rem == 0 then Completed(Filled, size, 0)
    else if SomeCross(after, order.side, order.price) then Completed(MatchLimit, size - rem, rem)
    else match order.tif
      case IOC => Completed(Expired, size - rem, rem)
      case FOK => Rejected(FillOrKill)
      case GTC => Rested(rem)
  }

  /** The fills and the verdict of an order on a book. */
  ghost function Judge(book: Book, users: map<nat, int>, config: BookConfig, order: IncomingOrder, counted: int)
    : (Fills, Verdict)
    requires Stamped(book) && config.tickSize >= 1 && config.lotSize >= 1
  {
    match Gate(book, users, config, order, counted)
    case Some(verdict) => (map[], verdict)
    case None =>
      var size := Size(users, order);
      var fills := FillsFor(book, order, size);
      (fills, Residual(AfterFills(book, fills), order, size, size - Traded(book, order, fills)))
  }

  /** These fills and this verdict are the order's. */
  ghost predicate Judged(
    book: Book, users: map<nat, int>, config: BookConfig, order: IncomingOrder, counted: int, fills: Fills, verdict: Verdict)
  {
    && Stamped(book) && config.tickSize >= 1 && config.lotSize >= 1
    && (fills, verdict) == Judge(book, users, config, order, counted)
  }

  // ---------------------------------------------------------------------
  // The new state and the events.

  /** The resting order a verdict leaves behind. */
  function Remnant(order: IncomingOrder, qty: int, stamp: nat): Order {
    Order(order.side, order.price, qty, qty, order.tif, order.reduceOnly, order.user, order.id, stamp)
  }

  ghost function Settle(after: Book, order: IncomingOrder, verdict: Verdict, handle: nat, stamp: nat): Book {
    if verdict.Rested? then after[handle := Remnant(order, verdict.resting, stamp)] else after
  }

  /** The one event that reports the order's outcome. */
  function Terminal(order: IncomingOrder, verdict: Verdict, handle: nat): Event {
    match verdict
    case Rejected(failure) => OrderFailed(order.user, failure, order.id)
    case Completed(reason, filled, unfilled) => OrderDone(NONE, order.user, reason, filled, unfilled, order.id)
    case Rested(qty) => OrderInserted(handle, order.user, order.side, order.price, qty, order.id)
  }

  /** The best price of a side, 0 if nothing rests there. */
  ghost function BestOf(book: Book, side: Side): int
    requires Stamped(book)
  {
    var q := Ladder(book, side);
    if q == [] then 0 else book[q[0]].price
  }

  /** A report of both best prices and the quantity resting at each, if either price moved. */
  ghost function BboReport(before: Book, after: Book): seq<Event>
    requires Stamped(before) && Stamped(after)
  {
    if BestOf(before, Buy) == BestOf(after, Buy) && BestOf(before, Sell) == BestOf(after, Sell) then []
    else [Bbo(BestOf(after, Buy), RestingAt(after, Buy, BestOf(after, Buy)),
              BestOf(after, Sell), RestingAt(after, Sell, BestOf(after, Sell)))]
  }

  /** Everything an order did: orders, positions and events. */
  ghost predicate Responded(
    book: Book, users: map<nat, int>, config: BookConfig, order: IncomingOrder, counted: int,
    fills: Fills, verdict: Verdict, trace: seq<nat>, handle: nat, stamp: nat,
    book': Book, users': map<nat, int>, events: seq<Event>)
  {
    && Stamped(book) && Stamped(book') && config.tickSize >= 1 && config.lotSize >= 1
    && (fills, verdict) == Judge(book, users, config, order, counted)
    && Traces(trace, fills) && OldestFirst(book, trace) && (forall h | h in trace :: h in book && h in fills)
    && book' == Settle(AfterFills(book, fills), order, verdict, handle, stamp)
    && (verdict.Rested? ==> handle !in AfterFills(book, fills) && forall h | h in book :: book[h].stamp < stamp)
    && users' == (var u := UsersAfter(users, book, trace, fills, order);
                  if verdict.Rested? then Assigned(u, order.user) else u)
    && events == FillEvents(book, trace, fills, order) + [Terminal(order, verdict, handle)] + BboReport(book, book')
  }

  /** The order would come to rest in a slab whose `capacity` handles are all in use after its fills. */
  ghost predicate FindsNoRoom(
    book: Book, users: map<nat, int>, config: BookConfig, order: IncomingOrder, capacity: nat)
  {
    && Stamped(book) && config.tickSize >= 1 && config.lotSize >= 1
    && var (fills, verdict) := Judge(book, users, config, order, 0);
       verdict.Rested? && |AfterFills(book, fills)| >= capacity
  }

  // ---------------------------------------------------------------------
  // The cached best is the best.

  lemma BestIsHead(book: Book, comp: CompressionMap, side: Side, tick: nat, px: int)
    requires Shaped(comp) && Stamped(book) && BestOk(book, comp, side, tick, px)
    ensures px == BestOf(book, side)
  {
    hide PriceToIndex, Shaped;
    LadderEmpty(book, side);
    LadderOrdered(book, side);
    var q := Ladder(book, side);
    if q != [] {
      assert q[0] in q;
      var g :| g in book && book[g].side == side && book[g].price == px;
      var i :| 0 <= i < |q| && q[i] == g;
      assert i == 0 || Before(book[q[0]], book[q[i]]);
    } else {
      assert tick != NONE ==> exists g :: g in q;
    }
  }

  /** The cached best crosses exactly when some order does. */
  lemma BestCrosses(book: Book, comp: CompressionMap, taker: Side, tick: nat, px: int, limit: int)
    requires Shaped(comp) && BestOk(book, comp, taker.Opposite(), tick, px)
    ensures SomeCross(book, taker, limit) <==> tick != NONE && Key(taker.Opposite(), px) <= Key(taker.Opposite(), limit)
  {
    hide PriceToIndex, Shaped;
    if tick != NONE && Key(taker.Opposite(), px) <= Key(taker.Opposite(), limit) {
      var g :| g in book && book[g].side == taker.Opposite() && book[g].price == px;
      assert Crosses(book[g], taker, limit);
    }
  }

  /** Tick or price moved exactly when the best price did. */
  lemma BestMoved(
    book: Book, book': Book, comp: CompressionMap, side: Side, tick: nat, px: int, tick': nat, px': int, step: int)
    requires Regular(comp) && Shaped(comp) && Stamped(book) && Stamped(book') && step >= 1
    requires Priced(book, step) && Priced(book', step)
    requires BestOk(book, comp, side, tick, px) && BestOk(book', comp, side, tick', px')
    ensures BestOf(book, side) == BestOf(book', side) <==> tick == tick' && px == px'
  {
    hide PriceToIndex, Shaped, BestOf, Regular;
    BestIsHead(book, comp, side, tick, px);
    BestIsHead(book', comp, side, tick', px');
    BandOfIndex(comp, px);
  }

  // ---------------------------------------------------------------------
  // Assembling a response.

  lemma NothingFilled(book: Book)
    ensures AfterFills(book, map[]) == book
  {
  }

  /** An order stopped by a check changes nothing and reports its verdict. */
  lemma EarlyResponse(
    book: Book, users: map<nat, int>, config: BookConfig, order: IncomingOrder, counted: int, verdict: Verdict, stamp: nat)
    requires Stamped(book) && config.tickSize >= 1 && config.lotSize >= 1
    requires Gate(book, users, config, order, counted) == Some(verdict)
    ensures Responded(book, users, config, order, counted, map[], verdict, [], NONE, stamp,
                      book, users, [Terminal(order, verdict, NONE)])
  {
    hide AfterFills, Size, SomeCross, Reduces, Stamped, Terminal, BestOf, RestingAt;
    NothingFilled(book);
    assert !verdict.Rested?;
  }

  /** What the match left, in the terms of the simple book. */
  lemma MatchLeft(
    book: Book, after: Book, order: IncomingOrder, size: int, rem: int, fills: Fills, trace: seq<nat>,
    events: seq<Event>, users: map<nat, int>, users': map<nat, int>)
    requires Stamped(book) && Matched(book, order, size, rem, fills, trace)
    requires Passed(book, after, [], events, users, users', order, fills, trace)
    ensures fills == FillsFor(book, order, size) && rem == size - Traded(book, order, fills) && 0 <= rem <= size
    ensures after == AfterFills(book, fills) && Traces(trace, fills) && OldestFirst(book, trace)
    ensures forall h | h in trace :: h in book && h in fills
    ensures events == FillEvents(book, trace, fills, order) && users' == UsersAfter(users, book, trace, fills, order)
    ensures rem > 0 && |fills| < MAX_MAKERS_PER_ORDER ==> !SomeCross(after, order.side, order.price)
  {
    hide AfterFills, Sweep, Total, Ladder, Stamped, FillEvents, UsersAfter, Traces, FillsWithin, OldestFirst;
    assert [] + FillEvents(book, trace, fills, order) == FillEvents(book, trace, fills, order);
  }

  /** An order that matched, then completed or rested. */
  lemma MatchedResponse(
    book: Book, users: map<nat, int>, config: BookConfig, order: IncomingOrder, counted: int,
    fills: Fills, rem: int, verdict: Verdict, trace: seq<nat>, handle: nat, stamp: nat,
    after: Book, users1: map<nat, int>, events1: seq<Event>, book': Book, users': map<nat, int>, events: seq<Event>)
    requires Stamped(book) && Stamped(book') && config.tickSize >= 1 && config.lotSize >= 1
    requires Gate(book, users, config, order, counted) == None
    requires var size := Size(users, order);
             fills == FillsFor(book, order, size) && rem == size - Traded(book, order, fills)
             && verdict == Residual(after, order, size, rem)
    requires after == AfterFills(book, fills) && Traces(trace, fills) && OldestFirst(book, trace)
    requires forall h | h in trace :: h in book && h in fills
    requires events1 == FillEvents(book, trace, fills, order) && users1 == UsersAfter(users, book, trace, fills, order)
    requires book' == Settle(after, order, verdict, handle, stamp)
    requires verdict.Rested? ==> handle !in after && forall h | h in book :: book[h].stamp < stamp
    requires users' == if verdict.Rested? then Assigned(users1, order.user) else users1
    requires events == (events1 + [Terminal(order, verdict, handle)]) + BboReport(book, book')
    ensures Responded(book, users, config, order, counted, fills, verdict, trace, handle, stamp, book', users', events)
  {
    hide AfterFills, Size, Stamped, Terminal, BboReport, Gate, Traces, FillsFor, Traded, Residual, Settle, FillEvents,
         UsersAfter, OldestFirst;
  }

  lemma JudgedAs(
    book: Book, users: map<nat, int>, config: BookConfig, order: IncomingOrder, counted: int,
    fills: Fills, verdict: Verdict, trace: seq<nat>, handle: nat, stamp: nat,
    book': Book, users': map<nat, int>, events: seq<Event>)
    requires Responded(book, users, config, order, counted, fills, verdict, trace, handle, stamp, book', users', events)
    ensures Stamped(book) && Stamped(book') && config.tickSize >= 1 && config.lotSize >= 1
    ensures (fills, verdict) == Judge(book, users, config, order, counted)
    ensures book' == Settle(AfterFills(book, fills), order, verdict, handle, stamp)
  {
    hide Stamped, Judge, FillEvents, UsersAfter, AfterFills, BboReport, Traces, Terminal;
  }

  /** What the match leaves decides whether the order finds no room. */
  lemma RoomDecided(
    book: Book, users: map<nat, int>, config: BookConfig, order: IncomingOrder, counted: int,
    fills: Fills, rem: int, after: Book, capacity: nat)
    requires Stamped(book) && config.tickSize >= 1 && config.lotSize >= 1
    requires Gate(book, users, config, order, counted) == None
    requires fills == FillsFor(book, order, Size(users, order)) && rem == Size(users, order) - Traded(book, order, fills)
    requires after == AfterFills(book, fills)
    ensures FindsNoRoom(book, users, config, order, capacity)
            <==> Residual(after, order, Size(users, order), rem).Rested? && |after| >= capacity
    ensures Judge(book, users, config, order, counted) == (fills, Residual(after, order, Size(users, order), rem))
  {
    hide AfterFills, Size, Stamped, FillsFor, Traded, SomeCross, ValidTick, ValidLot, Reduces;
  }

  lemma EarlyHasRoom(
    book: Book, users: map<nat, int>, config: BookConfig, order: IncomingOrder, counted: int, capacity: nat)
    requires Stamped(book) && config.tickSize >= 1 && config.lotSize >= 1 && Gate(book, users, config, order, counted).Some?
    ensures !FindsNoRoom(book, users, config, order, capacity)
  {
    hide AfterFills, Size, Stamped, SomeCross, FillsFor, Traded, ValidTick, ValidLot, Reduces;
  }
}
