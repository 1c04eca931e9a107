/** What a caller reads off one call: its events and the books before and after, in the order's own terms. */
module Answers {
  import opened Types
  import opened Compression
  import opened Arena
  import opened PriceTime
  import opened Arrangement
  import opened BookFacts
  import opened MatchFacts
  import opened FokFacts
  import opened FokExact
  import opened Outcome
  import opened Laws

  /** One call: what it was given, how it was decided, and what it left. */
  datatype Call = Call(
    book: Book, users: map<nat, int>, config: BookConfig, order: IncomingOrder, counted: int,
    fills: Fills, verdict: Verdict, trace: seq<nat>, handle: nat, stamp: nat,
    after: Book, positions: map<nat, int>, events: seq<Event>)

  /** The simple book's response on a well-formed book. */
  ghost predicate Served(c: Call) {
    && Responded(c.book, c.users, c.config, c.order, c.counted, c.fills, c.verdict, c.trace, c.handle, c.stamp,
                 c.after, c.positions, c.events)
    && Positive(c.book) && Priced(c.book, c.config.tickSize) && NONE !in c.book
  }

  /** `e` is the event that tells the caller how the order ended. */
  ghost predicate Ends(c: Call, e: Event) {
    Served(c) && e in c.events && IsOutcome(e)
  }

  /** Every call has exactly one outcome event. */
  lemma OneOutcome(c: Call)
    requires Served(c)
    ensures exists k :: 0 <= k < |c.events| && IsOutcome(c.events[k])
                        && forall i | 0 <= i < |c.events| && i != k :: !IsOutcome(c.events[i])
  {
    hide Responded, Positive, Priced;
    EventsInOrder(c.book, c.users, c.config, c.order, c.counted, c.fills, c.verdict, c.trace, c.handle, c.stamp,
                  c.after, c.positions, c.events);
    OutcomePlace(c.book, c.fills, c.order, Terminal(c.order, c.verdict, c.handle), c.events);
  }

  lemma OutcomePlace(book: Book, fills: Fills, taker: IncomingOrder, outcome: Event, events: seq<Event>)
    requires InOrder(book, fills, taker, outcome, events)
    ensures exists k :: 0 <= k < |events| && events[k] == outcome && IsOutcome(events[k])
                        && forall i | 0 <= i < |events| && i != k :: !IsOutcome(events[i])
  {
    hide Reported;
    var k :| && 0 <= k < |events| && events[k] == outcome && IsOutcome(outcome)
             && (forall i | 0 <= i < k :: !IsOutcome(events[i]))
             && (forall i | k < i < |events| :: events[i].Bbo?);
    assert forall i | 0 <= i < |events| && i != k :: !IsOutcome(events[i]);
  }

  /** The outcome event is the one that reports the verdict. */
  lemma OutcomeIs(c: Call, e: Event)
    requires Ends(c, e)
    ensures e == Terminal(c.order, c.verdict, c.handle)
  {
    hide Responded, Positive, Priced, Terminal;
    EventsInOrder(c.book, c.users, c.config, c.order, c.counted, c.fills, c.verdict, c.trace, c.handle, c.stamp,
                  c.after, c.positions, c.events);
    var outcome := Terminal(c.order, c.verdict, c.handle);
    OutcomePlace(c.book, c.fills, c.order, outcome, c.events);
    var k :| 0 <= k < |c.events| && c.events[k] == outcome
             && forall i | 0 <= i < |c.events| && i != k :: !IsOutcome(c.events[i]);
    var i :| 0 <= i < |c.events| && c.events[i] == e;
  }

  lemma Decided(c: Call)
    requires Served(c)
    ensures Stamped(c.book) && Stamped(c.after) && c.config.tickSize >= 1 && c.config.lotSize >= 1
    ensures (c.fills, c.verdict) == Judge(c.book, c.users, c.config, c.order, c.counted)
    ensures c.after == Settle(AfterFills(c.book, c.fills), c.order, c.verdict, c.handle, c.stamp)
    ensures c.verdict.Rested? ==>
              c.handle !in AfterFills(c.book, c.fills) && forall h | h in c.book :: c.book[h].stamp < c.stamp
    ensures FillQty(c.events) == Traded(c.book, c.order, c.fills)
  {
    hide Stamped, Judge, FillEvents, UsersAfter, AfterFills, BboReport, Traces, Terminal, OldestFirst, Positive,
         Priced, FillQty, Traded, Settle, SideQty, Size;
    QuantityConserved(c.book, c.users, c.config, c.order, c.counted, c.fills, c.verdict, c.trace, c.handle, c.stamp,
                      c.after, c.positions, c.events);
  }

  // ---------------------------------------------------------------------
  // When an order is turned away.

  /** The price is no positive multiple of the tick. */
  predicate OffTick(config: BookConfig, order: IncomingOrder)
    requires config.tickSize >= 1
  {
    order.price <= 0 || order.price % config.tickSize != 0
  }

  /** The quantity is no positive multiple of the lot. */
  predicate OffLot(config: BookConfig, order: IncomingOrder)
    requires config.lotSize >= 1
  {
    order.qty <= 0 || order.qty % config.lotSize != 0
  }

  /** Reduce-only without a position on the other side. */
  predicate NothingToReduce(users: map<nat, int>, order: IncomingOrder) {
    && order.reduceOnly
    && (order.user !in users || if order.side == Buy then users[order.user] >= 0 else users[order.user] <= 0)
  }

  /** Something rests on the other side at the order's price or better. */
  ghost predicate Reached(book: Book, order: IncomingOrder) {
    exists h :: h in book && if order.side == Buy then book[h].side == Sell && book[h].price <= order.price
                             else book[h].side == Buy && book[h].price >= order.price
  }

  lemma ReachedMeans(book: Book, order: IncomingOrder)
    ensures Reached(book, order) <==> SomeCross(book, order.side, order.price)
  {
    if Reached(book, order) {
      var h :| h in book && if order.side == Buy then book[h].side == Sell && book[h].price <= order.price
                            else book[h].side == Buy && book[h].price >= order.price;
      assert Crosses(book[h], order.side, order.price);
    }
    if SomeCross(book, order.side, order.price) {
      var h :| h in book && Crosses(book[h], order.side, order.price);
      assert if order.side == Buy then book[h].side == Sell && book[h].price <= order.price
             else book[h].side == Buy && book[h].price >= order.price;
    }
  }

  /** Which failure a caller sees, and when a post-only order is stopped. */
  lemma FailsExactly(c: Call, e: Event)
    requires Ends(c, e)
    ensures c.config.tickSize >= 1 && c.config.lotSize >= 1
    ensures e.OrderFailed? && e.failure == InvalidTick <==> OffTick(c.config, c.order)
    ensures e.OrderFailed? && e.failure == InvalidLot <==> !OffTick(c.config, c.order) && OffLot(c.config, c.order)
    ensures e.OrderFailed? && e.failure == ReduceOnly
            <==> !OffTick(c.config, c.order) && !OffLot(c.config, c.order) && NothingToReduce(c.users, c.order)
    ensures e.OrderDone? && e.reason == PostOnly
            <==> !OffTick(c.config, c.order) && !OffLot(c.config, c.order) && !NothingToReduce(c.users, c.order)
                 && c.order.postOnly && Reached(c.book, c.order)
    ensures e.OrderFailed? ==> e.failure in {InvalidTick, InvalidLot, ReduceOnly, FillOrKill}
    ensures e.OrderFailed? && e.failure == FillOrKill ==> c.order.tif == FOK
  {
    hide Served, Reached, SomeCross, AfterFills, FillsFor, Traded, Size, Stamped, FillQty, Settle;
    OutcomeIs(c, e);
    Decided(c);
    ReachedMeans(c.book, c.order);
  }

  /** The order is neither malformed nor stopped as reduce-only or post-only. */
  ghost predicate Cleared(c: Call)
    requires c.config.tickSize >= 1 && c.config.lotSize >= 1
  {
    && !OffTick(c.config, c.order) && !OffLot(c.config, c.order) && !NothingToReduce(c.users, c.order)
    && !(c.order.postOnly && Reached(c.book, c.order))
  }

  // ---------------------------------------------------------------------
  // How much an order asks for.

  /** A plain order asks for its quantity, a reduce-only order for that or its position, whichever is less. */
  predicate Asks(users: map<nat, int>, order: IncomingOrder, w: int) {
    if !order.reduceOnly then w == order.qty
    else
      && order.user in users
      && var held := if users[order.user] < 0 then -users[order.user] else users[order.user];
         w <= order.qty && w <= held && (w == order.qty || w == held)
  }

  lemma AsksMeans(c: Call, w: int)
    requires c.config.tickSize >= 1 && c.config.lotSize >= 1 && c.order.qty <= I64_MAX
    requires !OffTick(c.config, c.order) && !OffLot(c.config, c.order) && !NothingToReduce(c.users, c.order)
    ensures Asks(c.users, c.order, w) <==> w == Size(c.users, c.order)
    ensures Size(c.users, c.order) > 0
  {
  }

  /** What the outcome event says is left of the order. */
  function Left(e: Event): int {
    if e.OrderDone? then e.remaining else if e.OrderInserted? then e.qty else 0
  }

  /**
   * Unless the order failed, what is reported filled and what is reported left make up what it asked
   * for, and the fills reported are what was filled.
   */
  lemma AnswersInFull(c: Call, e: Event)
    requires Ends(c, e) && !e.OrderFailed? && c.order.qty <= I64_MAX
    ensures Asks(c.users, c.order, FillQty(c.events) + Left(e))
    ensures 0 <= FillQty(c.events) && 0 <= Left(e) && 0 < FillQty(c.events) + Left(e)
    ensures e.OrderDone? ==> e.filled == FillQty(c.events) && (e.reason == Filled <==> e.remaining == 0)
    ensures e.OrderInserted? ==> e.qty > 0
  {
    hide Responded, SomeCross, AfterFills, FillsFor, Traded, Size, Stamped, FillQty, Settle, Asks, Reached, Priced,
         Positive, OffTick, OffLot, NothingToReduce, Fillable;
    OutcomeIs(c, e);
    FailsExactly(c, e);
    Decided(c);
    AsksMeans(c, FillQty(c.events) + Left(e));
    JudgedFills(c.book, c.users, c.config, c.order, c.counted);
    ResidualLeft(c.book, c.users, c.config, c.order, c.counted);
  }

  lemma ResidualLeft(book: Book, users: map<nat, int>, config: BookConfig, order: IncomingOrder, counted: int)
    requires Stamped(book) && Positive(book) && config.tickSize >= 1 && config.lotSize >= 1
    ensures var verdict := Judge(book, users, config, order, counted).1;
            && (verdict.Completed? ==> verdict.unfilled >= 0)
            && (verdict.Completed? && Size(users, order) > 0 ==> (verdict.reason == Filled <==> verdict.unfilled == 0))
            && (verdict.Rested? ==> verdict.resting > 0)
  {
    hide Stamped, Positive, FillsFor, Traded, AfterFills, SomeCross;
    if Gate(book, users, config, order, counted).None? { SweptFills(book, order, Size(users, order)); }
  }

  /** How an order that reached the match ends, from the fills reported and the book left behind. */
  lemma EndsExactly(c: Call, e: Event, w: int)
    requires Ends(c, e) && c.config.tickSize >= 1 && c.config.lotSize >= 1 && Cleared(c) && Asks(c.users, c.order, w)
    requires c.order.qty <= I64_MAX
    requires c.order.tif == FOK ==> w <= c.counted
    ensures e.OrderInserted? <==> c.order.tif == GTC && FillQty(c.events) < w && !Reached(c.after, c.order)
    ensures e.OrderDone? && e.reason == Expired
            <==> c.order.tif == IOC && FillQty(c.events) < w && !Reached(c.after, c.order)
    ensures e.OrderDone? && e.reason == MatchLimit <==> FillQty(c.events) < w && Reached(c.after, c.order)
    ensures e.OrderDone? && e.reason == Filled <==> FillQty(c.events) == w
    ensures e.OrderFailed? <==> c.order.tif == FOK && FillQty(c.events) < w && !Reached(c.after, c.order)
  {
    hide Responded, SomeCross, AfterFills, FillsFor, Traded, Size, Stamped, FillQty, Asks, Reached, Priced, Positive,
         OffTick, OffLot, NothingToReduce, Settle;
    OutcomeIs(c, e);
    Decided(c);
    AsksMeans(c, w);
    ReachedMeans(c.book, c.order);
    ReachedMeans(c.after, c.order);
    GateOpen(c, w);
    SweptFills(c.book, c.order, w);
    SettleReach(AfterFills(c.book, c.fills), c.order, c.verdict, c.handle, c.stamp);
  }

  lemma GateOpen(c: Call, w: int)
    requires c.config.tickSize >= 1 && c.config.lotSize >= 1 && Cleared(c) && w == Size(c.users, c.order)
    requires c.order.tif == FOK ==> w <= c.counted
    ensures Gate(c.book, c.users, c.config, c.order, c.counted).None?
  {
    hide SomeCross, Reached, Size;
    ReachedMeans(c.book, c.order);
  }

  /** What comes to rest is on the order's own side. */
  lemma SettleReach(after: Book, order: IncomingOrder, verdict: Verdict, handle: nat, stamp: nat)
    requires verdict.Rested? ==> handle !in after
    ensures SomeCross(Settle(after, order, verdict, handle, stamp), order.side, order.price)
            <==> SomeCross(after, order.side, order.price)
  {
    var book := Settle(after, order, verdict, handle, stamp);
    if SomeCross(after, order.side, order.price) {
      var h :| h in after && Crosses(after[h], order.side, order.price);
      assert h in book && book[h] == after[h];
    }
  }

  // ---------------------------------------------------------------------
  // What the outcome event says is true.

  /** The outcome names the order that was submitted. */
  lemma NamesTheOrder(c: Call, e: Event)
    requires Ends(c, e)
    ensures e.user == c.order.user && e.id == c.order.id
  {
    hide Served;
    OutcomeIs(c, e);
  }

  /** An order reported as inserted rests as reported and as submitted, younger than every other. */
  lemma InsertedRests(c: Call, e: Event)
    requires Ends(c, e) && e.OrderInserted?
    ensures e.side == c.order.side && e.price == c.order.price
    ensures e.handle in c.after && c.after[e.handle]
            == Order(e.side, e.price, e.qty, e.qty, c.order.tif, c.order.reduceOnly, c.order.user, c.order.id, c.stamp)
    ensures forall h | h in c.after && h != e.handle :: c.after[h].stamp < c.stamp
    ensures e.handle !in AfterFills(c.book, c.fills)
  {
    hide Served, Judge, Stamped, FillQty, Traded;
    OutcomeIs(c, e);
    Decided(c);
  }

  /** A call that ends in a failure or a post-only stop before the match leaves everything as it was. */
  lemma StoppedUntouched(c: Call, e: Event)
    requires Ends(c, e)
    requires || (e.OrderFailed? && e.failure != FillOrKill)
             || (e.OrderDone? && e.reason == PostOnly)
    ensures c.after == c.book && c.positions == c.users && c.events == [e]
  {
    hide SomeCross, AfterFills, FillsFor, Traded, Size, Stamped, FillQty, Asks, Reached, Priced, Positive, BestOf,
         RestingAt, Distinct;
    OutcomeIs(c, e);
    NothingFilled(c.book);
    assert c.fills == map[];
    NoTrace(c.trace, c.fills);
  }

  lemma NoTrace(trace: seq<nat>, fills: Fills)
    requires Traces(trace, fills) && fills == map[]
    ensures trace == []
  {
    TraceSize(trace, fills);
  }

  // ---------------------------------------------------------------------
  // Fill-or-kill in an order book.

  /** The pre-check of the call counted in this layout of the book. */
  ghost predicate CountedIn(
    c: Call, slots: seq<OrderSlot>, comp: CompressionMap, levels: seq<PriceLevel>, queues: seq<seq<nat>>)
  {
    && Regular(comp) && Shaped(comp) && comp.tick == c.config.tickSize
    && Arranged(slots, c.book, comp, levels, queues)
    && c.counted == CountedQty(c.book, queues, PriceAsc(comp), c.order.side, c.order.price)
  }

  /** A fill-or-kill order is killed exactly when the pre-check counts too little, and then nothing happens. */
  lemma KilledExactly(
    c: Call, e: Event, w: int,
    slots: seq<OrderSlot>, comp: CompressionMap, levels: seq<PriceLevel>, queues: seq<seq<nat>>)
    requires Ends(c, e) && CountedIn(c, slots, comp, levels, queues) && c.config.lotSize >= 1 && Cleared(c)
    requires Asks(c.users, c.order, w) && c.order.qty <= I64_MAX
    ensures e.OrderFailed? <==> c.order.tif == FOK && c.counted < w
    ensures e.OrderFailed? ==> e.failure == FillOrKill && c.after == c.book && c.positions == c.users && c.events == [e]
  {
    hide Responded, Asks, Reached, Priced, Positive, OffTick, OffLot, NothingToReduce, Arranged, Regular, Shaped,
         CountedQty, PriceAsc, Size, Judge, Gate, FillQty;
    Decided(c);
    AsksMeans(c, w);
    FailsExactly(c, e);
    OutcomeIs(c, e);
    if c.order.tif == FOK {
      GateOpen(c.(counted := w), w);
      MatchNeverRejects(slots, c.book, comp, levels, queues, c.users, c.config, c.order);
    }
    if e.OrderFailed? {
      KilledEarly(c, e, w);
    }
  }

  lemma KilledEarly(c: Call, e: Event, w: int)
    requires Ends(c, e) && e.OrderFailed? && c.counted < w == Size(c.users, c.order)
    ensures c.after == c.book && c.positions == c.users && c.events == [e]
  {
    hide SomeCross, AfterFills, FillsFor, Traded, Size, Stamped, FillQty, Priced, Positive, BestOf, RestingAt, Distinct;
    OutcomeIs(c, e);
    NothingFilled(c.book);
    assert c.fills == map[];
    NoTrace(c.trace, c.fills);
  }

  // ---------------------------------------------------------------------
  // When an order rests, from the book before the call.

  /** Fewer makers than the cap and a taker they cannot satisfy: every crossing maker is used up. */
  lemma AllUsedUp(book: Book, order: IncomingOrder, size: int)
    requires Stamped(book) && Positive(book) && size >= 0
    requires |Queue(book, order.side, order.price)| <= MAX_MAKERS_PER_ORDER
    requires Traded(book, order, FillsFor(book, order, size)) < size
    ensures var fills := FillsFor(book, order, size);
            && AllFull(book, fills) && forall h :: h in fills <==> h in Queue(book, order.side, order.price)
  {
    hide Queue, Positive, Stamped, Ladder, Sweep, InTurn, Total, Crosses, Distinct, Ordered;
    var fills, q := FillsFor(book, order, size), Queue(book, order.side, order.price);
    LadderOrdered(book, order.side.Opposite());
    SweepFair(book, Ladder(book, order.side.Opposite()), order.side, order.price, size, MAX_MAKERS_PER_ORDER);
    FullUnlessPartial(book, order.side, order.price, fills);
    QueueFacts(book, order.side, order.price);
    forall h | h in fills ensures h in q { CrossesOpposite(book, order.side, order.price, h); }
    if |fills| == MAX_MAKERS_PER_ORDER {
      KeysCover(fills, q);
    } else {
      forall h | h in q ensures h in fills { CrossesOpposite(book, order.side, order.price, h); }
    }
  }

  lemma CrossesOpposite(book: Book, taker: Side, limit: int, h: nat)
    requires Stamped(book) && h in book && Crosses(book[h], taker, limit)
    ensures book[h].side == taker.Opposite() && h in Ladder(book, taker.Opposite())
  {
  }

  lemma KeysCover(fills: Fills, q: seq<nat>)
    requires Distinct(q) && |q| <= |fills| && forall h | h in fills :: h in q
    ensures forall h | h in q :: h in fills
  {
    ListSize(q, set h | h in q);
    assert fills.Keys <= (set h | h in q);
    Covering(fills.Keys, set h | h in q);
    assert |fills.Keys| == |fills|;
  }

  lemma Covering(a: set<nat>, b: set<nat>)
    requires a <= b && |b| <= |a|
    ensures a == b
  {
    assert b == a + (b - a);
    assert |b| == |a| + |b - a|;
  }

  /** A book after its crossing makers are used up. */
  lemma UsedUpBook(book: Book, fills: Fills, taker: Side, limit: int, q: seq<nat>)
    requires AllFull(book, fills) && Distinct(q) && forall h :: h in fills <==> h in q
    requires forall h :: h in q <==> h in book && Crosses(book[h], taker, limit)
    ensures !SomeCross(AfterFills(book, fills), taker, limit) && |AfterFills(book, fills)| == |book| - |q|
  {
    hide AllFull, AfterFills, Crosses, Distinct;
    var after := AfterFills(book, fills);
    forall h ensures h in after <==> h in book && h !in fills { AfterFull(book, fills, h); }
    forall h | h in after ensures !Crosses(after[h], taker, limit) { AfterFull(book, fills, h); }
    ListSize(q, fills.Keys);
    assert after.Keys == book.Keys - fills.Keys && fills.Keys <= book.Keys;
    assert |after| == |after.Keys| && |book| == |book.Keys|;
    assert |book.Keys - fills.Keys| == |book.Keys| - |fills.Keys|;
  }

  lemma ManyCross(book: Book, order: IncomingOrder, size: int)
    requires Stamped(book) && Positive(book) && size >= 0
    requires |Queue(book, order.side, order.price)| > MAX_MAKERS_PER_ORDER
    ensures SomeCross(AfterFills(book, FillsFor(book, order, size)), order.side, order.price)
  {
    hide Queue, Positive, Stamped, FillsFor, Traded, SomeCross;
    SweptFills(book, order, size);
    CrossingLeft(book, order, FillsFor(book, order, size));
  }

  /**
   * An order comes to rest, and finds every handle in use, exactly when it is good till cancelled and
   * passes the checks, at most the cap of makers cross it, they hold less than it asks for, and what
   * rests without them fills the slab.
   */
  lemma NoRoomExactly(c: Call, w: int, capacity: nat)
    requires Stamped(c.book) && Positive(c.book) && c.config.tickSize >= 1 && c.config.lotSize >= 1
    requires c.order.qty <= I64_MAX && (Cleared(c) ==> Asks(c.users, c.order, w))
    ensures FindsNoRoom(c.book, c.users, c.config, c.order, capacity)
            <==> && Cleared(c) && c.order.tif == GTC
                 && var q := Queue(c.book, c.order.side, c.order.price);
                    |q| <= MAX_MAKERS_PER_ORDER && Fillable(c.book, c.order.side, c.order.price) < w
                    && |c.book| - |q| >= capacity
  {
    hide Queue, Positive, Stamped, FillsFor, Traded, SomeCross, Reached, Size, Asks, OffTick, OffLot, NothingToReduce,
         AfterFills, Fillable, Crosses, Distinct, AllFull, Ordered;
    ReachedMeans(c.book, c.order);
    GateShut(c);
    if Cleared(c) && c.order.tif == GTC {
      AsksMeans(c, w);
      GateOpen(c.(counted := 0), w);
      FillsTotal(c.book, c.order, w);
      var fills := FillsFor(c.book, c.order, w);
      QueueFacts(c.book, c.order.side, c.order.price);
      if |Queue(c.book, c.order.side, c.order.price)| > MAX_MAKERS_PER_ORDER {
        ManyCross(c.book, c.order, w);
      } else if Traded(c.book, c.order, fills) < w {
        AllUsedUp(c.book, c.order, w);
        UsedUpBook(c.book, fills, c.order.side, c.order.price, Queue(c.book, c.order.side, c.order.price));
      }
    }
  }

  /** An order that is not cleared is stopped by a check, and one that is not good till cancelled never rests. */
  lemma GateShut(c: Call)
    requires Stamped(c.book) && c.config.tickSize >= 1 && c.config.lotSize >= 1
    ensures Judge(c.book, c.users, c.config, c.order, 0).1.Rested? ==> Cleared(c) && c.order.tif == GTC
  {
    hide SomeCross, Reached, Size, Stamped, FillsFor, Traded, AfterFills;
    ReachedMeans(c.book, c.order);
  }
}
