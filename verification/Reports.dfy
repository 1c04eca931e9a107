/** The events of one call against the books before and after: best prices, makers and positions. */
module Reports {
  import opened Types
  import opened Arena
  import opened PriceTime
  import opened Levels
  import opened Arrangement
  import opened BookFacts
  import opened MatchFacts
  import opened Outcome
  import opened Positions
  import opened Laws
  import opened Answers

  // ---------------------------------------------------------------------
  // The best-price report.

  /** The best price resting on a side, none if nothing rests there. */
  ghost predicate Best(book: Book, side: Side, px: Option<int>) {
    match px
    case None => forall h | h in book :: book[h].side != side
    case Some(p) =>
      && (exists h :: h in book && book[h].side == side && book[h].price == p)
      && forall h | h in book && book[h].side == side :: if side == Buy then book[h].price <= p else book[h].price >= p
  }

  /** How a report writes a best price. */
  function Written(px: Option<int>): int {
    match px
    case None => 0
    case Some(p) => p
  }

  /** Every side has a best price, or none. */
  lemma BestExists(book: Book, side: Side) returns (px: Option<int>)
    requires Stamped(book)
    ensures Best(book, side, px)
  {
    var q := Ladder(book, side);
    LadderOrdered(book, side);
    if q == [] {
      forall h | h in book ensures book[h].side != side { assert h !in q; }
      px := None;
    } else {
      assert q[0] in q;
      px := Some(book[q[0]].price);
      forall h | h in book && book[h].side == side
        ensures if side == Buy then book[h].price <= px.value else book[h].price >= px.value
      {
        var i :| 0 <= i < |q| && q[i] == h;
        assert i == 0 || Before(book[q[0]], book[q[i]]);
      }
    }
  }

  lemma BestIs(book: Book, side: Side, px: Option<int>)
    requires Stamped(book) && Best(book, side, px)
    ensures BestOf(book, side) == Written(px)
  {
    LadderOrdered(book, side);
    var q := Ladder(book, side);
    if q != [] {
      assert q[0] in q;
      var h :| h in book && book[h].side == side && book[h].price == px.value;
      var i :| 0 <= i < |q| && q[i] == h;
      assert i == 0 || Before(book[q[0]], book[q[i]]);
    } else {
      assert forall h | h in book :: h !in q;
    }
  }

  lemma PositivePrices(c: Call)
    requires Served(c)
    ensures forall h | h in c.after :: c.after[h].price > 0
    ensures forall h | h in c.book :: c.book[h].price > 0
  {
    hide Responded, Positive, FillsFor, Traded, Size, SomeCross, Stamped, FillQty;
    Decided(c);
  }

  lemma WrittenApart(book: Book, book': Book, side: Side, p: Option<int>, q: Option<int>)
    requires Best(book, side, p) && Best(book', side, q)
    requires (forall h | h in book :: book[h].price > 0) && forall h | h in book' :: book'[h].price > 0
    ensures Written(p) == Written(q) <==> p == q
  {
  }

  /**
   * The last event of a call is a best-price report if and only if the highest buy or the lowest
   * sell moved, and it then gives both as they are now. No other event is such a report.
   */
  lemma BboExactly(c: Call, bid: Option<int>, ask: Option<int>, bid': Option<int>, ask': Option<int>)
    requires Served(c) && Best(c.book, Buy, bid) && Best(c.book, Sell, ask)
    requires Best(c.after, Buy, bid') && Best(c.after, Sell, ask')
    ensures c.events != []
    ensures var last := c.events[|c.events| - 1];
            && (last.Bbo? <==> bid != bid' || ask != ask')
            && (last.Bbo? ==> last.bidPx == Written(bid') && last.askPx == Written(ask'))
            && forall i | 0 <= i < |c.events| - 1 :: !c.events[i].Bbo?
  {
    hide Best, Judge, Settle, AfterFills, UsersAfter, FillEvents, Positive, Priced, BestOf, RestingAt, Stamped,
         OldestFirst, Traces;
    PositivePrices(c);
    BestIs(c.book, Buy, bid);
    BestIs(c.book, Sell, ask);
    BestIs(c.after, Buy, bid');
    BestIs(c.after, Sell, ask');
    WrittenApart(c.book, c.after, Buy, bid, bid');
    WrittenApart(c.book, c.after, Sell, ask, ask');
    FillsNoBbo(c.book, c.trace, c.fills, c.order);
  }

  lemma {:induction false} FillsNoBbo(book: Book, trace: seq<nat>, fills: Fills, taker: IncomingOrder)
    requires forall h | h in trace :: h in book && h in fills
    ensures forall i | 0 <= i < |FillEvents(book, trace, fills, taker)| :: !FillEvents(book, trace, fills, taker)[i].Bbo?
  {
    if trace != [] { FillsNoBbo(book, trace[..|trace| - 1], fills, taker); }
  }

  /** The quantity reported with a best price is the sum of all orders resting at it. */
  lemma BboQuantity(c: Call, side: Side, q: seq<nat>)
    requires Served(c) && c.events != [] && c.events[|c.events| - 1].Bbo?
    requires var last := c.events[|c.events| - 1];
             var px := if side == Buy then last.bidPx else last.askPx;
             Distinct(q) && forall h :: h in q <==> h in c.after && c.after[h].side == side && c.after[h].price == px
    ensures var last := c.events[|c.events| - 1];
            Tally(Quantity, c.after, q) == if side == Buy then last.bidQty else last.askQty
  {
    hide Judge, Settle, AfterFills, UsersAfter, FillEvents, Positive, Priced, BestOf, Stamped, OldestFirst, Traces,
         Tally, Distinct, RestingAt;
    FillsNoBbo(c.book, c.trace, c.fills, c.order);
    var last := c.events[|c.events| - 1];
    ListedAt(c.after, side, if side == Buy then last.bidPx else last.askPx, q);
  }

  lemma ListedAt(book: Book, side: Side, px: int, q: seq<nat>)
    requires Stamped(book) && Distinct(q)
    requires forall h :: h in q <==> h in book && book[h].side == side && book[h].price == px
    ensures Tally(Quantity, book, q) == RestingAt(book, side, px)
  {
    hide Stamped, Distinct, Tally;
    LadderOrdered(book, side);
    TallyReorder(QuantityAt(side, px), book, q, Ladder(book, side));
    AllWeigh(book, side, px, q);
  }

  lemma {:induction false} AllWeigh(book: Book, side: Side, px: int, q: seq<nat>)
    requires forall h | h in q :: h in book && book[h].side == side && book[h].price == px
    ensures Tally(Quantity, book, q) == Tally(QuantityAt(side, px), book, q)
  {
    if q != [] { AllWeigh(book, side, px, q[1..]); }
  }

  // ---------------------------------------------------------------------
  // The makers.

  /** The quantity the events report as taken from one maker. */
  function Took(events: seq<Event>, h: nat): int {
    if events == [] then 0
    else
      var e := events[|events| - 1];
      Took(events[..|events| - 1], h) + if e.Fill? && e.maker == h then e.qty else 0
  }

  lemma {:induction false} TookAppend(a: seq<Event>, b: seq<Event>, h: nat)
    ensures Took(a + b, h) == Took(a, h) + Took(b, h)
  {
    if b == [] {
      assert a + b == a;
    } else {
      var n := |b| - 1;
      assert (a + b)[..|a + b| - 1] == a + b[..n];
      TookAppend(a, b[..n], h);
    }
  }

  lemma {:induction false} TookNothing(events: seq<Event>, h: nat)
    requires forall i | 0 <= i < |events| :: !events[i].Fill?
    ensures Took(events, h) == 0
  {
    if events != [] { TookNothing(events[..|events| - 1], h); }
  }

  lemma MakerTook(o: Order, g: nat, qty: int, taker: IncomingOrder, h: nat)
    ensures Took(MakerEvents(o, g, qty, taker), h) == if g == h then qty else 0
  {
    var m := MakerEvents(o, g, qty, taker);
    assert m[..1] == [m[0]] && [m[0]][..0] == [];
    assert Took([m[0]], h) == if g == h then qty else 0;
    if |m| == 1 { assert m == [m[0]]; }
  }

  lemma {:induction false} FillsTook(book: Book, trace: seq<nat>, fills: Fills, taker: IncomingOrder, h: nat)
    requires Distinct(trace) && forall g | g in trace :: g in book && g in fills
    ensures Took(FillEvents(book, trace, fills, taker), h) == if h in trace then fills[h] else 0
  {
    hide MakerEvents, Took;
    if trace == [] {
      TookNothing([], h);
    } else {
      var n := |trace| - 1;
      var g, first := trace[n], trace[..n];
      FillsTook(book, first, fills, taker, h);
      MakerTook(book[g], g, fills[g], taker, h);
      TookAppend(FillEvents(book, first, fills, taker), MakerEvents(book[g], g, fills[g], taker), h);
      assert trace == first + [g];
      assert h in first ==> h != g;
    }
  }

  lemma EventsTook(c: Call, h: nat)
    requires Served(c)
    ensures Took(c.events, h) == Got(c.fills, h)
  {
    hide Judge, Settle, AfterFills, UsersAfter, FillEvents, Positive, Priced, BestOf, RestingAt, Stamped, OldestFirst,
         Took, Distinct;
    var first := FillEvents(c.book, c.trace, c.fills, c.order);
    var tail := [Terminal(c.order, c.verdict, c.handle)] + BboReport(c.book, c.after);
    FillsTook(c.book, c.trace, c.fills, c.order, h);
    TookNothing(tail, h);
    assert c.events == first + tail;
    TookAppend(first, tail, h);
  }

  /** The events report an order inserted at the handle. */
  predicate Inserts(events: seq<Event>, h: nat) {
    exists e | e in events :: e.OrderInserted? && e.handle == h
  }

  /**
   * The book afterwards, from the events alone: a maker keeps everything but what was taken from it
   * and is gone once all is taken; beside the makers only an inserted order is new.
   */
  lemma BookFollowsEvents(c: Call, h: nat)
    requires Served(c)
    ensures h in c.book ==> 0 <= Took(c.events, h) <= c.book[h].qty
    ensures h in c.after <==> (h in c.book && Took(c.events, h) < c.book[h].qty) || Inserts(c.events, h)
    ensures h in c.book && Took(c.events, h) < c.book[h].qty ==>
              !Inserts(c.events, h) && c.after[h] == c.book[h].(qty := c.book[h].qty - Took(c.events, h))
    ensures h !in c.book ==> Took(c.events, h) == 0
  {
    hide Served, Took, Judge, Stamped, FillQty, Traded, Inserts;
    EventsTook(c, h);
    Decided(c);
    ServedFills(c);
    InsertsMeans(c, h);
  }

  lemma ServedFills(c: Call)
    requires Served(c)
    ensures FillsWithin(c.book, c.order.side, c.order.price, c.fills) && Positive(c.book)
  {
    hide Judge, FillEvents, UsersAfter, AfterFills, BboReport, Traces, Terminal, OldestFirst, Positive, Priced,
         FillsWithin, Traded, Settle, Size, Stamped;
    JudgedFills(c.book, c.users, c.config, c.order, c.counted);
  }

  lemma InsertsMeans(c: Call, h: nat)
    requires Served(c)
    ensures Inserts(c.events, h) <==> c.verdict.Rested? && c.handle == h
  {
    hide Served, Judge, Stamped, FillQty, Traded, Settle, AfterFills;
    if Inserts(c.events, h) {
      var e :| e in c.events && e.OrderInserted? && e.handle == h;
      OutcomeIs(c, e);
    }
    if c.verdict.Rested? && c.handle == h { TerminalThere(c); }
  }

  lemma TerminalThere(c: Call)
    requires Served(c)
    ensures Terminal(c.order, c.verdict, c.handle) in c.events
  {
    hide Judge, Settle, AfterFills, UsersAfter, FillEvents, Positive, Priced, BboReport, Stamped, OldestFirst, Traces,
         Terminal;
    var k := |FillEvents(c.book, c.trace, c.fills, c.order)|;
    assert c.events[k] == Terminal(c.order, c.verdict, c.handle);
  }

  // ---------------------------------------------------------------------
  // The order of the fills.

  /** Of two fills reported at one price, the maker of the first is the older order. */
  lemma FillsOldestFirst(c: Call, i: nat, j: nat)
    requires Served(c) && i < j < |c.events| && c.events[i].Fill? && c.events[j].Fill?
    requires c.events[i].price == c.events[j].price
    ensures c.events[i].maker in c.book && c.events[j].maker in c.book
    ensures c.book[c.events[i].maker].stamp < c.book[c.events[j].maker].stamp
  {
    hide Judge, Settle, AfterFills, UsersAfter, FillEvents, Positive, Priced, BestOf, RestingAt, FillsWithin, Crosses;
    var first := FillEvents(c.book, c.trace, c.fills, c.order);
    assert c.events[i] == first[i] && c.events[j] == first[j];
    ServedFills(c);
    FillPlaces(c.book, c.trace, c.fills, c.order, i, j);
    var a, b :| 0 <= a < b < |c.trace| && first[i].maker == c.trace[a] && first[j].maker == c.trace[b]
                && first[i].price == c.book[c.trace[a]].price && first[j].price == c.book[c.trace[b]].price;
    OneSideFilled(c.book, c.order.side, c.order.price, c.fills, c.trace[a], c.trace[b]);
  }

  lemma OneSideFilled(book: Book, taker: Side, limit: int, fills: Fills, g: nat, h: nat)
    requires FillsWithin(book, taker, limit, fills) && g in fills && h in fills
    ensures g in book && h in book && book[g].side == book[h].side
  {
  }

  /** The fill events follow the trace. */
  lemma {:induction false} FillPlaces(book: Book, trace: seq<nat>, fills: Fills, taker: IncomingOrder, i: nat, j: nat)
    requires forall h | h in trace :: h in book && h in fills
    requires var first := FillEvents(book, trace, fills, taker);
             i < j < |first| && first[i].Fill? && first[j].Fill?
    ensures var first := FillEvents(book, trace, fills, taker);
            exists a, b | 0 <= a < b < |trace| ::
              && first[i].maker == trace[a] && first[j].maker == trace[b]
              && first[i].price == book[trace[a]].price && first[j].price == book[trace[b]].price
  {
    var n := |trace| - 1;
    var init := FillEvents(book, trace[..n], fills, taker);
    if j < |init| {
      FillPlaces(book, trace[..n], fills, taker, i, j);
      var a, b :| 0 <= a < b < n && init[i].maker == trace[..n][a] && init[j].maker == trace[..n][b]
                  && init[i].price == book[trace[..n][a]].price && init[j].price == book[trace[..n][b]].price;
      assert trace[a] == trace[..n][a] && trace[b] == trace[..n][b];
    } else {
      FillPlace(book, trace[..n], fills, taker, i);
      var a :| 0 <= a < n && init[i].maker == trace[..n][a] && init[i].price == book[trace[..n][a]].price;
      assert trace[a] == trace[..n][a];
    }
  }

  lemma {:induction false} FillPlace(book: Book, trace: seq<nat>, fills: Fills, taker: IncomingOrder, i: nat)
    requires forall h | h in trace :: h in book && h in fills
    requires var first := FillEvents(book, trace, fills, taker);
             i < |first| && first[i].Fill?
    ensures var first := FillEvents(book, trace, fills, taker);
            exists a | 0 <= a < |trace| :: first[i].maker == trace[a] && first[i].price == book[trace[a]].price
  {
    var n := |trace| - 1;
    var init := FillEvents(book, trace[..n], fills, taker);
    if i < |init| {
      FillPlace(book, trace[..n], fills, taker, i);
      var a :| 0 <= a < n && init[i].maker == trace[..n][a] && init[i].price == book[trace[..n][a]].price;
      assert trace[a] == trace[..n][a];
    }
  }

  // ---------------------------------------------------------------------
  // The positions.

  /** How the fills reported move a user's position: up for what it bought, down for what it sold. */
  function Moved(events: seq<Event>, u: nat): int {
    if events == [] then 0
    else
      var e := events[|events| - 1];
      Moved(events[..|events| - 1], u)
      + if !e.Fill? then 0
        else
          var bought := if e.side == Buy then e.qty else -e.qty;
          (if e.takerUser == u then bought else 0) - (if e.makerUser == u then bought else 0)
  }

  /** The fills reported name the user. */
  predicate Trades(events: seq<Event>, u: nat) {
    exists e | e in events :: e.Fill? && (e.takerUser == u || e.makerUser == u)
  }

  lemma {:induction false} MovedAppend(a: seq<Event>, b: seq<Event>, u: nat)
    ensures Moved(a + b, u) == Moved(a, u) + Moved(b, u)
  {
    if b == [] {
      assert a + b == a;
    } else {
      var n := |b| - 1;
      assert (a + b)[..|a + b| - 1] == a + b[..n];
      MovedAppend(a, b[..n], u);
    }
  }

  lemma {:induction false} MovedNothing(events: seq<Event>, u: nat)
    requires forall i | 0 <= i < |events| :: !events[i].Fill?
    ensures Moved(events, u) == 0
  {
    if events != [] { MovedNothing(events[..|events| - 1], u); }
  }

  lemma MakerMoved(o: Order, g: nat, qty: int, taker: IncomingOrder, u: nat)
    ensures Moved(MakerEvents(o, g, qty, taker), u)
            == (if u == taker.user then Signed(taker.side, qty) else 0) - (if u == o.user then Signed(taker.side, qty) else 0)
    ensures Trades(MakerEvents(o, g, qty, taker), u) <==> u == taker.user || u == o.user
  {
    var m := MakerEvents(o, g, qty, taker);
    assert m[..1] == [m[0]] && [m[0]][..0] == [] && m[0] in m;
    assert Moved([m[0]], u)
           == (if u == taker.user then Signed(taker.side, qty) else 0) - (if u == o.user then Signed(taker.side, qty) else 0);
    if |m| == 1 { assert m == [m[0]]; }
  }

  lemma TradesAppend(a: seq<Event>, b: seq<Event>, u: nat)
    ensures Trades(a + b, u) <==> Trades(a, u) || Trades(b, u)
  {
  }

  lemma {:induction false} FillsMoved(
    users: map<nat, int>, book: Book, trace: seq<nat>, fills: Fills, taker: IncomingOrder, u: nat)
    requires forall h | h in trace :: h in book && h in fills
    ensures var events, after := FillEvents(book, trace, fills, taker), UsersAfter(users, book, trace, fills, taker);
            && Net(after, u) == Net(users, u) + Moved(events, u)
            && (u in after <==> u in users || Trades(events, u))
  {
    hide MakerEvents, Moved, Trades, ApplyFill, Net;
    if trace == [] {
      MovedNothing([], u);
      NoTrades(u);
    } else {
      var n := |trace| - 1;
      var g, first := trace[n], trace[..n];
      FillsMoved(users, book, first, fills, taker, u);
      MakerMoved(book[g], g, fills[g], taker, u);
      MovedAppend(FillEvents(book, first, fills, taker), MakerEvents(book[g], g, fills[g], taker), u);
      TradesAppend(FillEvents(book, first, fills, taker), MakerEvents(book[g], g, fills[g], taker), u);
      FillNet(UsersAfter(users, book, first, fills, taker), taker.user, book[g].user, taker.side, fills[g], u);
    }
  }

  lemma NoTrades(u: nat)
    ensures !Trades([], u)
  {
  }

  /** Every position moves by the fills reported; only users who traded or whose order rests are new. */
  lemma PositionsFollowEvents(c: Call, u: nat)
    requires Served(c)
    ensures Net(c.positions, u) == Net(c.users, u) + Moved(c.events, u)
    ensures u in c.positions
            <==> u in c.users || Trades(c.events, u) || exists e | e in c.events :: e.OrderInserted? && e.user == u
  {
    hide Judge, Settle, AfterFills, UsersAfter, FillEvents, Positive, Priced, BestOf, RestingAt, Stamped, OldestFirst,
         Moved, Traces, Trades;
    var first := FillEvents(c.book, c.trace, c.fills, c.order);
    var tail := [Terminal(c.order, c.verdict, c.handle)] + BboReport(c.book, c.after);
    FillsMoved(c.users, c.book, c.trace, c.fills, c.order, u);
    MovedNothing(tail, u);
    assert c.events == first + tail;
    MovedAppend(first, tail, u);
    TradesAppend(first, tail, u);
    TailNoTrades(tail, u);
    InsertsUser(c, u);
  }

  lemma TailNoTrades(tail: seq<Event>, u: nat)
    requires forall i | 0 <= i < |tail| :: !tail[i].Fill?
    ensures !Trades(tail, u)
  {
  }

  lemma InsertsUser(c: Call, u: nat)
    requires Served(c)
    ensures (exists e | e in c.events :: e.OrderInserted? && e.user == u) <==> c.verdict.Rested? && c.order.user == u
  {
    hide Served, Judge, Stamped, FillQty, Traded, Settle, AfterFills;
    if e :| e in c.events && e.OrderInserted? && e.user == u { OutcomeIs(c, e); }
    if c.verdict.Rested? { TerminalThere(c); }
  }
}
