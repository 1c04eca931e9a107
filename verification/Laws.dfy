/** What follows for every order from the response the simple book prescribes. */
module Laws {
  import opened Types
  import opened Compression
  import opened Arena
  import opened PriceTime
  import opened Arrangement
  import opened BookFacts
  import opened MatchFacts
  import opened FokFacts
  import opened FokExact
  import opened FokGap
  import opened Outcome

  // ---------------------------------------------------------------------
  // Quantity is conserved.

  /** The resting quantities of one side. */
  ghost function Quantities(book: Book, side: Side): Fills {
    map h | h in book && book[h].side == side :: book[h].qty
  }

  /** The total resting on one side. */
  ghost function SideQty(book: Book, side: Side): int
    requires Stamped(book)
  {
    Total(Quantities(book, side), Ladder(book, side))
  }

  lemma AfterStamped(book: Book, fills: Fills)
    requires Stamped(book)
    ensures Stamped(AfterFills(book, fills))
  {
  }

  lemma MakerLoses(book: Book, taker: Side, limit: int, fills: Fills, h: nat)
    requires FillsWithin(book, taker, limit, fills)
    ensures var opp := taker.Opposite();
            && Got(Quantities(book, opp), h) == Got(Quantities(AfterFills(book, fills), opp), h) + Got(fills, h)
            && Got(Quantities(book, taker), h) == Got(Quantities(AfterFills(book, fills), taker), h)
  {
  }

  lemma KeptKeys(book: Book, fills: Fills, side: Side)
    ensures forall h | h in Quantities(AfterFills(book, fills), side) :: h in Quantities(book, side)
  {
  }

  lemma QuantityKeys(book: Book, side: Side)
    requires Stamped(book)
    ensures forall h | h in Quantities(book, side) :: h in Ladder(book, side)
    ensures Distinct(Ladder(book, side))
  {
    LadderOrdered(book, side);
  }

  /** The makers lose exactly what the taker fills; the taker's own side is untouched. */
  lemma FillsConserve(book: Book, taker: Side, limit: int, fills: Fills)
    requires Stamped(book) && Stamped(AfterFills(book, fills)) && FillsWithin(book, taker, limit, fills)
    ensures SideQty(AfterFills(book, fills), taker.Opposite())
            == SideQty(book, taker.Opposite()) - Total(fills, Ladder(book, taker.Opposite()))
    ensures SideQty(AfterFills(book, fills), taker) == SideQty(book, taker)
  {
    hide Ladder, Stamped, Total, AfterFills, FillsWithin, Quantities, Got, Distinct;
    var after, opp := AfterFills(book, fills), taker.Opposite();
    forall side ensures Total(Quantities(after, side), Ladder(after, side)) == Total(Quantities(after, side), Ladder(book, side)) {
      QuantityKeys(book, side);
      QuantityKeys(after, side);
      KeptKeys(book, fills, side);
      TotalReorder(Quantities(after, side), Ladder(after, side), Ladder(book, side));
    }
    forall h ensures Got(Quantities(book, opp), h) == Got(Quantities(after, opp), h) + Got(fills, h)
                     && Got(Quantities(book, taker), h) == Got(Quantities(after, taker), h) {
      MakerLoses(book, taker, limit, fills, h);
    }
    TotalSum(Quantities(book, opp), Quantities(after, opp), fills, Ladder(book, opp));
    TotalSame(Quantities(book, taker), Quantities(after, taker), Ladder(book, taker));
  }

  lemma RestAdds(after: Book, h: nat, o: Order, side: Side)
    requires Stamped(after) && Stamped(after[h := o]) && h !in after
    ensures SideQty(after[h := o], side) == SideQty(after, side) + if side == o.side then o.qty else 0
  {
    hide Ladder, Stamped, Total;
    var book := after[h := o];
    var m := Quantities(after, side);
    LadderOrdered(after, side);
    LadderOrdered(book, side);
    TotalReorder(m, Ladder(book, side), Ladder(after, side));
    if side == o.side {
      assert Quantities(book, side) == m[h := o.qty];
      TotalAdd(m, Ladder(book, side), h, o.qty);
    } else {
      assert Quantities(book, side) == m;
    }
  }

  /** The quantity of the fills reported. */
  function FillQty(events: seq<Event>): int {
    if events == [] then 0
    else FillQty(events[..|events| - 1]) + (if events[|events| - 1].Fill? then events[|events| - 1].qty else 0)
  }

  lemma {:induction false} FillQtyAppend(a: seq<Event>, b: seq<Event>)
    ensures FillQty(a + b) == FillQty(a) + FillQty(b)
  {
    if b == [] {
      assert a + b == a;
    } else {
      var n := |b| - 1;
      assert (a + b)[..|a + b| - 1] == a + b[..n];
      FillQtyAppend(a, b[..n]);
    }
  }

  lemma MakerEventsQty(o: Order, h: nat, qty: int, taker: IncomingOrder)
    ensures FillQty(MakerEvents(o, h, qty, taker)) == qty
  {
    var e := MakerEvents(o, h, qty, taker);
    assert FillQty([e[0]]) == qty by { assert [e[0]][..0] == []; }
    if |e| == 2 { assert e[..1] == [e[0]]; } else { assert e == [e[0]]; }
  }

  lemma {:induction false} FillEventsQty(book: Book, trace: seq<nat>, fills: Fills, taker: IncomingOrder)
    requires forall h | h in trace :: h in book && h in fills
    ensures FillQty(FillEvents(book, trace, fills, taker)) == Total(fills, trace)
  {
    hide MakerEvents, FillQty;
    if trace == [] {
      assert FillQty([]) == 0 by { NoFillQty(); }
    } else {
      var n := |trace| - 1;
      var h := trace[n];
      FillEventsQty(book, trace[..n], fills, taker);
      MakerEventsQty(book[h], h, fills[h], taker);
      FillQtyAppend(FillEvents(book, trace[..n], fills, taker), MakerEvents(book[h], h, fills[h], taker));
      assert trace == trace[..n] + [h];
      TotalAppend(fills, trace[..n], [h]);
      assert [h][1..] == [];
    }
  }

  lemma NoFillQty()
    ensures FillQty([]) == 0
  {
  }

  lemma TailFillQty(e: Event, report: seq<Event>)
    requires !e.Fill? && |report| <= 1 && forall r | r in report :: !r.Fill?
    ensures FillQty([e] + report) == 0
  {
    var t := [e] + report;
    assert [e][..0] == [];
    assert FillQty([e]) == 0;
    if |report| == 1 { assert t[..1] == [e]; } else { assert t == [e]; }
  }

  /** What the simple matcher guarantees of an order's fills. */
  lemma JudgedFills(book: Book, users: map<nat, int>, config: BookConfig, order: IncomingOrder, counted: int)
    requires Stamped(book) && Positive(book) && config.tickSize >= 1 && config.lotSize >= 1
    ensures var (fills, verdict) := Judge(book, users, config, order, counted);
            && FillsWithin(book, order.side, order.price, fills)
            && |fills| <= MAX_MAKERS_PER_ORDER
            && Traded(book, order, fills) >= 0
            && (verdict.Completed? ==> verdict.filled == Traded(book, order, fills)
                                       && verdict.filled + verdict.unfilled == Size(users, order))
            && (verdict.Rested? ==> Traded(book, order, fills) + verdict.resting == Size(users, order))
            && (fills == map[] || Traded(book, order, fills) <= Size(users, order))
  {
    hide Positive, Stamped, Ladder, SomeCross, Total, FillsFor, AfterFills, Crosses;
    TotalEmpty(Ladder(book, order.side.Opposite()));
    if Gate(book, users, config, order, counted).None? { SweptFills(book, order, Size(users, order)); }
  }

  lemma SweptFills(book: Book, order: IncomingOrder, size: int)
    requires Stamped(book) && Positive(book) && size >= 0
    ensures var fills := FillsFor(book, order, size);
            && FillsWithin(book, order.side, order.price, fills) && |fills| <= MAX_MAKERS_PER_ORDER
            && 0 <= Traded(book, order, fills) <= size
  {
    hide Sweep, Positive, Stamped, Ladder, InTurn, Stopped, Crosses;
    var q := Ladder(book, order.side.Opposite());
    LadderOrdered(book, order.side.Opposite());
    SweepFair(book, q, order.side, order.price, size, MAX_MAKERS_PER_ORDER);
    TotalNonNeg(FillsFor(book, order, size), q);
  }

  /**
   * The fills reported sum to what the verdict says was filled and to the drop of the opposite
   * side, and the order's own side grows by what rests.
   */
  lemma QuantityConserved(
    book: Book, users: map<nat, int>, config: BookConfig, order: IncomingOrder, counted: int,
    fills: Fills, verdict: Verdict, trace: seq<nat>, handle: nat, stamp: nat,
    book': Book, users': map<nat, int>, events: seq<Event>)
    requires Responded(book, users, config, order, counted, fills, verdict, trace, handle, stamp, book', users', events)
    requires Positive(book)
    ensures FillQty(events) == Traded(book, order, fills)
    ensures verdict.Completed? ==>
              verdict.filled == FillQty(events) && verdict.filled + verdict.unfilled == Size(users, order)
    ensures verdict.Rested? ==> FillQty(events) + verdict.resting == Size(users, order)
    ensures SideQty(book', order.side.Opposite()) == SideQty(book, order.side.Opposite()) - FillQty(events)
    ensures SideQty(book', order.side)
            == SideQty(book, order.side) + if verdict.Rested? then verdict.resting else 0
  {
    hide Stamped, Judge, FillEvents, UsersAfter, FillsWithin, AfterFills, SideQty, FillQty, Total, BboReport, Traces,
         Terminal, Positive, Size;
    var after := AfterFills(book, fills);
    JudgedFills(book, users, config, order, counted);
    AfterStamped(book, fills);
    FillsConserve(book, order.side, order.price, fills);
    if verdict.Rested? {
      RestAdds(after, handle, Remnant(order, verdict.resting, stamp), order.side);
      RestAdds(after, handle, Remnant(order, verdict.resting, stamp), order.side.Opposite());
    }
    EventsQty(book, users, order, fills, verdict, trace, handle, book', events);
  }

  lemma EventsQty(
    book: Book, users: map<nat, int>, order: IncomingOrder, fills: Fills, verdict: Verdict, trace: seq<nat>, handle: nat,
    book': Book, events: seq<Event>)
    requires Stamped(book) && Stamped(book') && FillsWithin(book, order.side, order.price, fills) && Traces(trace, fills)
    requires forall h | h in trace :: h in book && h in fills
    requires events == FillEvents(book, trace, fills, order) + [Terminal(order, verdict, handle)] + BboReport(book, book')
    ensures FillQty(events) == Traded(book, order, fills)
  {
    hide Stamped, FillEvents, FillQty, Total, BestOf, RestingAt, Ladder;
    var q := Ladder(book, order.side.Opposite());
    LadderOrdered(book, order.side.Opposite());
    TotalReorder(fills, trace, q);
    FillEventsQty(book, trace, fills, order);
    var tail := [Terminal(order, verdict, handle)] + BboReport(book, book');
    TailFillQty(Terminal(order, verdict, handle), BboReport(book, book'));
    assert events == FillEvents(book, trace, fills, order) + tail;
    FillQtyAppend(FillEvents(book, trace, fills, order), tail);
  }

  // ---------------------------------------------------------------------
  // The order of the events.

  /** The report of one maker's fill: its own price, its own identity, its own share. */
  predicate FillReport(book: Book, fills: Fills, taker: IncomingOrder, e: Event) {
    && e.Fill? && e.maker in book && e.maker in fills
    && var o := book[e.maker];
       e == Fill(e.maker, o.user, taker.user, o.price, fills[e.maker], taker.side, o.id, taker.id)
  }

  /** The completion of a maker, right after the fill that used it up. */
  predicate DoneReport(book: Book, fills: Fills, taker: IncomingOrder, fill: Event, e: Event) {
    && FillReport(book, fills, taker, fill)
    && FullyFilled(book, fills, fill.maker)
    && var o := book[fill.maker];
       e == OrderDone(fill.maker, o.user, Filled, o.original, 0, o.id)
  }

  /** Fills of distinct makers, each followed by its completion exactly when the maker is used up. */
  predicate Reported(book: Book, fills: Fills, taker: IncomingOrder, events: seq<Event>) {
    && (forall i | 0 <= i < |events| ::
          || FillReport(book, fills, taker, events[i])
          || (i > 0 && DoneReport(book, fills, taker, events[i - 1], events[i])))
    && (forall i | 0 <= i < |events| && events[i].Fill? && FullyFilled(book, fills, events[i].maker) ::
          i + 1 < |events| && DoneReport(book, fills, taker, events[i], events[i + 1]))
    && (forall i, j | 0 <= i < j < |events| && events[i].Fill? && events[j].Fill? :: events[i].maker != events[j].maker)
  }

  lemma ReportedAppend(book: Book, fills: Fills, taker: IncomingOrder, events: seq<Event>, h: nat)
    requires Reported(book, fills, taker, events) && h in book && h in fills
    requires forall i | 0 <= i < |events| && events[i].Fill? :: events[i].maker != h
    ensures Reported(book, fills, taker, events + MakerEvents(book[h], h, fills[h], taker))
  {
    hide FillReport;
    var m := MakerEvents(book[h], h, fills[h], taker);
    var all := events + m;
    assert FillReport(book, fills, taker, m[0]) by { IsFillReport(book, fills, taker, h); }
    forall i | 0 <= i < |all|
      ensures || FillReport(book, fills, taker, all[i])
              || (i > 0 && DoneReport(book, fills, taker, all[i - 1], all[i]))
    {
      if i < |events| {
        assert all[i] == events[i] && (i > 0 ==> all[i - 1] == events[i - 1]);
      } else {
        assert all[i] == m[i - |events|];
        if i > |events| { assert all[i - 1] == m[0]; }
      }
    }
    forall i | 0 <= i < |all| && all[i].Fill? && FullyFilled(book, fills, all[i].maker)
      ensures i + 1 < |all| && DoneReport(book, fills, taker, all[i], all[i + 1])
    {
      if i < |events| {
        assert all[i] == events[i];
        assert all[i + 1] == events[i + 1];
      } else {
        assert all[i] == m[0] && all[i + 1] == m[1];
      }
    }
  }

  lemma IsFillReport(book: Book, fills: Fills, taker: IncomingOrder, h: nat)
    requires h in book && h in fills
    ensures FillReport(book, fills, taker, MakerEvents(book[h], h, fills[h], taker)[0])
  {
  }

  lemma {:induction false} FillsReported(book: Book, trace: seq<nat>, fills: Fills, taker: IncomingOrder)
    requires Distinct(trace) && forall h | h in trace :: h in book && h in fills
    ensures Reported(book, fills, taker, FillEvents(book, trace, fills, taker))
    ensures forall e | e in FillEvents(book, trace, fills, taker) && e.Fill? :: e.maker in trace
    ensures forall h | h in trace :: exists e :: e in FillEvents(book, trace, fills, taker) && e.Fill? && e.maker == h
  {
    hide Reported, MakerEvents;
    if trace == [] {
      NothingReported(book, fills, taker);
    } else {
      var n := |trace| - 1;
      var h := trace[n];
      var events := FillEvents(book, trace[..n], fills, taker);
      FillsReported(book, trace[..n], fills, taker);
      ReportedAppend(book, fills, taker, events, h);
      MakerNamed(book[h], h, fills[h], taker);
      var m := MakerEvents(book[h], h, fills[h], taker);
      assert m[0] in events + m;
      assert forall g | g in trace :: g in trace[..n] || g == h;
    }
  }

  lemma MakerNamed(o: Order, h: nat, qty: int, taker: IncomingOrder)
    ensures var m := MakerEvents(o, h, qty, taker);
            m != [] && m[0].Fill? && m[0].maker == h && forall e | e in m && e.Fill? :: e.maker == h
  {
  }

  lemma NothingReported(book: Book, fills: Fills, taker: IncomingOrder)
    ensures Reported(book, fills, taker, [])
  {
  }

  /** An event that ends the incoming order's call: failed, resting, or done without ever resting. */
  predicate IsOutcome(e: Event) {
    e.OrderFailed? || e.OrderInserted? || (e.OrderDone? && e.handle == NONE)
  }

  /**
   * One call reports its fills, maker by maker, then exactly one outcome of the incoming order,
   * then at most a best-price report.
   */
  ghost predicate InOrder(book: Book, fills: Fills, taker: IncomingOrder, outcome: Event, events: seq<Event>) {
    exists k :: && 0 <= k < |events| && events[k] == outcome && IsOutcome(outcome)
                && Reported(book, fills, taker, events[..k])
                && (forall i | 0 <= i < k :: !IsOutcome(events[i]))
                && (forall i | k < i < |events| :: events[i].Bbo?)
                && |events| <= k + 2
  }

  lemma EventsInOrder(
    book: Book, users: map<nat, int>, config: BookConfig, order: IncomingOrder, counted: int,
    fills: Fills, verdict: Verdict, trace: seq<nat>, handle: nat, stamp: nat,
    book': Book, users': map<nat, int>, events: seq<Event>)
    requires Responded(book, users, config, order, counted, fills, verdict, trace, handle, stamp, book', users', events)
    requires NONE !in book
    ensures InOrder(book, fills, order, Terminal(order, verdict, handle), events)
    ensures forall h | h in fills :: exists e :: e in events && e.Fill? && e.maker == h
    ensures forall e | e in events && e.Fill? :: FillReport(book, fills, order, e)
  {
    hide Stamped, Judge, FillEvents, UsersAfter, AfterFills, Distinct, RestingAt, BestOf, Settle, Reported, FillReport;
    var first := FillEvents(book, trace, fills, order);
    FillsReported(book, trace, fills, order);
    ReportedOnly(book, fills, order, first);
    var k := |first|;
    assert events[..k] == first;
    assert forall i | 0 <= i < k :: events[i] == first[i] && first[i] in first;
    forall e | e in events && e.Fill? ensures e in first {
      var i :| 0 <= i < |events| && events[i] == e;
      assert i < k;
    }
    assert forall e | e in first :: e in events;
  }

  /** Fill reports speak of makers only. */
  lemma ReportedOnly(book: Book, fills: Fills, taker: IncomingOrder, events: seq<Event>)
    requires Reported(book, fills, taker, events) && NONE !in book
    ensures forall e | e in events :: !IsOutcome(e) && (e.Fill? ==> FillReport(book, fills, taker, e))
  {
    forall e | e in events ensures !IsOutcome(e) && (e.Fill? ==> FillReport(book, fills, taker, e)) {
      var i :| 0 <= i < |events| && events[i] == e;
      assert FillReport(book, fills, taker, events[i])
             || (i > 0 && DoneReport(book, fills, taker, events[i - 1], events[i]));
    }
  }

  // ---------------------------------------------------------------------
  // Prices, positions and post-only.

  /** Every fill is at the maker's own price, within the limit, for no more than the maker had. */
  lemma FillsAtMakerPrice(
    book: Book, users: map<nat, int>, config: BookConfig, order: IncomingOrder, counted: int,
    fills: Fills, verdict: Verdict, trace: seq<nat>, handle: nat, stamp: nat,
    book': Book, users': map<nat, int>, events: seq<Event>, e: Event)
    requires Responded(book, users, config, order, counted, fills, verdict, trace, handle, stamp, book', users', events)
    requires Positive(book) && NONE !in book && e in events && e.Fill?
    ensures && e.maker in book && e.price == book[e.maker].price && 0 < e.qty <= book[e.maker].qty
            && book[e.maker].side != order.side
            && if order.side == Buy then e.price <= order.price else e.price >= order.price
  {
    hide Stamped, Judge, FillEvents, UsersAfter, AfterFills, Positive, Traces, BboReport, Settle;
    hide InOrder;
    EventsInOrder(book, users, config, order, counted, fills, verdict, trace, handle, stamp, book', users', events);
    JudgedFills(book, users, config, order, counted);
    assert FillReport(book, fills, order, e);
  }

  /** A reduce-only order trades at most the position its user holds, and only against it. */
  lemma ReduceOnlyBounded(
    book: Book, users: map<nat, int>, config: BookConfig, order: IncomingOrder, counted: int,
    fills: Fills, verdict: Verdict, trace: seq<nat>, handle: nat, stamp: nat,
    book': Book, users': map<nat, int>, events: seq<Event>)
    requires Responded(book, users, config, order, counted, fills, verdict, trace, handle, stamp, book', users', events)
    requires Positive(book) && order.reduceOnly
    ensures fills != map[] || verdict.Rested? ==> Reduces(users, order)
    ensures Reduces(users, order) ==> FillQty(events) <= Magnitude(users[order.user])
    ensures !Reduces(users, order) ==> FillQty(events) == 0 && book' == book
  {
    hide Stamped, FillEvents, UsersAfter, Positive, Traces, BboReport, Terminal, FillQty, Sweep, Total, Ladder, AfterFills,
         SomeCross, Residual;
    JudgedFills(book, users, config, order, counted);
    QuantityConserved(book, users, config, order, counted, fills, verdict, trace, handle, stamp, book', users', events);
    TotalEmpty(Ladder(book, order.side.Opposite()));
    NothingFilled(book);
  }

  /** A post-only order never fills. */
  lemma PostOnlyNeverFills(
    book: Book, users: map<nat, int>, config: BookConfig, order: IncomingOrder, counted: int,
    fills: Fills, verdict: Verdict, trace: seq<nat>, handle: nat, stamp: nat,
    book': Book, users': map<nat, int>, events: seq<Event>)
    requires Responded(book, users, config, order, counted, fills, verdict, trace, handle, stamp, book', users', events)
    requires Positive(book) && order.postOnly
    ensures fills == map[] && FillQty(events) == 0
    ensures SomeCross(book, order.side, order.price) ==> book' == book
  {
    hide Stamped, FillEvents, UsersAfter, Positive, Traces, BboReport, Terminal, FillQty, Sweep, Total, Ladder, AfterFills,
         Residual, Crosses;
    JudgedFills(book, users, config, order, counted);
    QuantityConserved(book, users, config, order, counted, fills, verdict, trace, handle, stamp, book', users', events);
    NothingFilled(book);
    forall h | h in fills ensures SomeCross(book, order.side, order.price) {
      assert Crosses(book[h], order.side, order.price);
    }
    assert fills == map[];
    TotalEmpty(Ladder(book, order.side.Opposite()));
  }

  // ---------------------------------------------------------------------
  // Fill-or-kill.

  lemma {:induction false} OneUnfilled(q: seq<nat>, hs: set<nat>)
    requires Distinct(q) && |q| > |hs|
    ensures exists h :: h in q && h !in hs
  {
    if q[0] in hs {
      TailDistinct(q);
      OneUnfilled(q[1..], hs - {q[0]});
      var h :| h in q[1..] && h !in hs - {q[0]};
      assert h in q && h !in hs;
    } else {
      assert q[0] in q;
    }
  }

  /** More crossing makers than fills leave a crossing maker behind. */
  lemma CrossingLeft(book: Book, order: IncomingOrder, fills: Fills)
    requires Stamped(book) && |fills| < |Queue(book, order.side, order.price)|
    ensures SomeCross(AfterFills(book, fills), order.side, order.price)
  {
    hide Queue, Stamped, Crosses, Ordered, Distinct;
    QueueFacts(book, order.side, order.price);
    OneUnfilled(Queue(book, order.side, order.price), fills.Keys);
    var h :| h in Queue(book, order.side, order.price) && h !in fills.Keys;
    assert h in AfterFills(book, fills) && AfterFills(book, fills)[h] == book[h];
  }

  /** The sizes between what the cap's slot holds by priority and what it holds by arrival. */
  ghost predicate InGap(
    book: Book, queues: seq<seq<nat>>, comp: CompressionMap, taker: Side, limit: int, size: int)
    requires Stamped(book)
  {
    var ahead := AheadQty(book, queues, comp, taker, limit);
    && |Queue(book, taker, limit)| > MAX_MAKERS_PER_ORDER
    && ahead + ByPriority(book, queues, comp, taker, limit) < size <= ahead + ByArrival(book, queues, comp, taker, limit)
  }

  lemma GapMeans(
    slots: seq<OrderSlot>, book: Book, comp: CompressionMap, levels: seq<PriceLevel>, queues: seq<seq<nat>>,
    taker: Side, limit: int, size: int)
    requires Regular(comp) && Shaped(comp) && Arranged(slots, book, comp, levels, queues)
    requires Stamped(book) && Priced(book, comp.tick) && Positive(book)
    ensures InGap(book, queues, comp, taker, limit, size)
            <==> Fillable(book, taker, limit) < size <= CountedQty(book, queues, PriceAsc(comp), taker, limit)
  {
    hide Arranged, Regular, Shaped, Stamped, Priced, Positive, CountedQty, PriceAsc, Queue, Fillable, AheadQty, ByArrival,
         ByPriority;
    if |Queue(book, taker, limit)| <= MAX_MAKERS_PER_ORDER {
      PreCheckExact(slots, book, comp, levels, queues, taker, limit);
    } else {
      GapInSlot(slots, book, comp, levels, queues, taker, limit);
    }
  }

  /**
   * A fill-or-kill order that a check stops changes nothing. One that reaches the match fills
   * completely, or is cut off by the maker cap, and the latter exactly when its size lies in the gap.
   * The branch that would reject it after the match is never taken.
   */
  lemma FokAllOrNothing(
    slots: seq<OrderSlot>, book: Book, comp: CompressionMap, levels: seq<PriceLevel>, queues: seq<seq<nat>>,
    users: map<nat, int>, config: BookConfig, order: IncomingOrder)
    requires Regular(comp) && Shaped(comp) && Arranged(slots, book, comp, levels, queues)
    requires Stamped(book) && Priced(book, comp.tick) && Positive(book)
    requires config.tickSize >= 1 && config.lotSize >= 1 && order.tif == FOK
    ensures var counted := CountedQty(book, queues, PriceAsc(comp), order.side, order.price);
            var (fills, verdict) := Judge(book, users, config, order, counted);
            var size := Size(users, order);
            if Gate(book, users, config, order, counted).Some? then fills == map[] && AfterFills(book, fills) == book
            else if InGap(book, queues, comp, order.side, order.price, size) then
              verdict == Completed(MatchLimit, Fillable(book, order.side, order.price),
                                   size - Fillable(book, order.side, order.price))
            else
              verdict == Completed(Filled, size, 0)
  {
    hide Arranged, Regular, Shaped, Stamped, Priced, Positive, CountedQty, PriceAsc, Queue, AfterFills, FillsFor,
         SomeCross, Fillable, Reduces, Total, InGap, Traded;
    var counted := CountedQty(book, queues, PriceAsc(comp), order.side, order.price);
    var size := Size(users, order);
    NothingFilled(book);
    if Gate(book, users, config, order, counted).None? {
      FillsTotal(book, order, size);
      SweptFills(book, order, size);
      GapMeans(slots, book, comp, levels, queues, order.side, order.price, size);
      if InGap(book, queues, comp, order.side, order.price, size) {
        GapCrowded(book, queues, comp, order.side, order.price, size);
        CrossingLeft(book, order, FillsFor(book, order, size));
      }
    }
  }

  lemma GapCrowded(
    book: Book, queues: seq<seq<nat>>, comp: CompressionMap, taker: Side, limit: int, size: int)
    requires Stamped(book) && InGap(book, queues, comp, taker, limit, size)
    ensures |Queue(book, taker, limit)| > MAX_MAKERS_PER_ORDER
  {
  }

  /**
   * A fill-or-kill order that only the pre-check stops, although the match would fill it: exactly
   * when its size lies above what the cap's slot holds by arrival and not above what it holds by priority.
   */
  lemma FokKilledInVain(
    slots: seq<OrderSlot>, book: Book, comp: CompressionMap, levels: seq<PriceLevel>, queues: seq<seq<nat>>,
    users: map<nat, int>, config: BookConfig, order: IncomingOrder)
    requires Regular(comp) && Shaped(comp) && Arranged(slots, book, comp, levels, queues)
    requires Stamped(book) && Priced(book, comp.tick) && Positive(book)
    requires config.tickSize >= 1 && config.lotSize >= 1 && order.tif == FOK
    requires Gate(book, users, config, order, Size(users, order)).None?
    ensures var counted := CountedQty(book, queues, PriceAsc(comp), order.side, order.price);
            var size := Size(users, order);
            var ahead := AheadQty(book, queues, comp, order.side, order.price);
            (Judge(book, users, config, order, counted).1 == Rejected(FillOrKill)
             && Traded(book, order, FillsFor(book, order, size)) == size)
            <==> |Queue(book, order.side, order.price)| > MAX_MAKERS_PER_ORDER
                 && ahead + ByArrival(book, queues, comp, order.side, order.price) < size
                    <= ahead + ByPriority(book, queues, comp, order.side, order.price)
  {
    hide Arranged, Regular, Shaped, Stamped, Priced, Positive, CountedQty, PriceAsc, Queue, AfterFills, FillsFor,
         SomeCross, Fillable, Reduces, Total, Traded, AheadQty, ByArrival, ByPriority, ValidTick, ValidLot;
    var counted := CountedQty(book, queues, PriceAsc(comp), order.side, order.price);
    var size := Size(users, order);
    SizeNonNeg(book, users, config, order);
    FillsTotal(book, order, size);
    if |Queue(book, order.side, order.price)| <= MAX_MAKERS_PER_ORDER {
      PreCheckExact(slots, book, comp, levels, queues, order.side, order.price);
    } else {
      GapInSlot(slots, book, comp, levels, queues, order.side, order.price);
    }
    MatchNeverRejects(slots, book, comp, levels, queues, users, config, order);
  }

  lemma SizeNonNeg(book: Book, users: map<nat, int>, config: BookConfig, order: IncomingOrder)
    requires config.tickSize >= 1 && config.lotSize >= 1 && Gate(book, users, config, order, Size(users, order)).None?
    ensures Size(users, order) >= 0
  {
  }

  /** A fill-or-kill order is rejected for its size before the match or not at all. */
  lemma MatchNeverRejects(
    slots: seq<OrderSlot>, book: Book, comp: CompressionMap, levels: seq<PriceLevel>, queues: seq<seq<nat>>,
    users: map<nat, int>, config: BookConfig, order: IncomingOrder)
    requires Regular(comp) && Shaped(comp) && Arranged(slots, book, comp, levels, queues)
    requires Stamped(book) && Priced(book, comp.tick) && Positive(book)
    requires config.tickSize >= 1 && config.lotSize >= 1 && order.tif == FOK
    requires Gate(book, users, config, order, Size(users, order)).None?
    ensures var counted := CountedQty(book, queues, PriceAsc(comp), order.side, order.price);
            Judge(book, users, config, order, counted).1 == Rejected(FillOrKill) <==> counted < Size(users, order)
  {
    hide Arranged, Regular, Shaped, Stamped, Priced, Positive, CountedQty, PriceAsc, AfterFills, FillsFor, Residual,
         SomeCross, Fillable, Reduces, InGap, Traded, Size;
    FokAllOrNothing(slots, book, comp, levels, queues, users, config, order);
  }

  lemma FillsTotal(book: Book, order: IncomingOrder, size: int)
    requires Stamped(book) && Positive(book) && size >= 0
    ensures Traded(book, order, FillsFor(book, order, size)) == Least(size, Fillable(book, order.side, order.price))
  {
    hide Sweep, Total, Ladder, Fillable, Stamped, Positive;
    FillsWhenFillable(book, order.side, order.price, size);
  }

  /** Only a good-till-cancelled order rests, and nothing it could trade with is left. */
  lemma OnlyGtcRests(
    book: Book, users: map<nat, int>, config: BookConfig, order: IncomingOrder, counted: int,
    fills: Fills, verdict: Verdict, trace: seq<nat>, handle: nat, stamp: nat,
    book': Book, users': map<nat, int>, events: seq<Event>)
    requires Responded(book, users, config, order, counted, fills, verdict, trace, handle, stamp, book', users', events)
    requires Positive(book) && Uncrossed(book)
    ensures Uncrossed(book')
    ensures verdict.Rested? ==> order.tif == GTC && !SomeCross(AfterFills(book, fills), order.side, order.price)
  {
    hide Stamped, FillEvents, UsersAfter, Traces, BboReport, Terminal, Sweep, Total, Ladder;
    var after := AfterFills(book, fills);
    assert Uncrossed(after);
    hide AfterFills;
    if verdict.Rested? {
      forall g | g in after ensures !Crosses(after[g], order.side, order.price) {
        assert Crosses(after[g], order.side, order.price) ==> SomeCross(after, order.side, order.price);
      }
      UncrossedInsert(after, handle, Remnant(order, verdict.resting, stamp));
    }
  }
}
