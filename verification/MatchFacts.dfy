/** Fills as they accumulate: what each pass keeps and how passes compose. */
module MatchFacts {
  import opened Types
  import opened Compression
  import opened Arena
  import opened PriceTime
  import opened Levels
  import opened Arrangement
  import opened BookFacts

  /** The book after the fills: filled makers gone, the last one reduced. */
  function AfterFills(book: Book, fills: Fills): Book {
    map h | h in book && !FullyFilled(book, fills, h) ::
      if h in fills then book[h].(qty := book[h].qty - fills[h]) else book[h]
  }

  /** The fills of two rounds together. */
  function Joined(first: Fills, second: Fills): Fills { first + second }

  predicate AllFull(book: Book, fills: Fills) {
    forall h | h in fills :: FullyFilled(book, fills, h)
  }

  /** No maker of `pool` waits while a crossing maker behind it has filled. */
  ghost predicate Prior(book: Book, pool: set<nat>, taker: Side, limit: int, fills: Fills) {
    forall g, h | g in pool && g in book && h in fills && h in book
                  && Crosses(book[g], taker, limit) && Before(book[g], book[h]) ::
      FullyFilled(book, fills, g)
  }

  /** `trace` lists the filled makers in the order of their events. */
  predicate Traces(trace: seq<nat>, fills: Fills) {
    && Distinct(trace)
    && (forall h | h in trace :: h in fills)
    && (forall h | h in fills :: h in trace)
  }

  /** Among makers of one side and price, `trace` lists the older first. */
  predicate OldestFirst(book: Book, trace: seq<nat>) {
    forall i, j | 0 <= i < j < |trace| && trace[i] in book && trace[j] in book
                  && book[trace[i]].side == book[trace[j]].side && book[trace[i]].price == book[trace[j]].price ::
      book[trace[i]].stamp <= book[trace[j]].stamp
  }

  /** The fills so far respect priority among `pool` and account for the taker's quantity. */
  ghost predicate Progress(
    book: Book, pool: set<nat>, taker: Side, limit: int, rem0: int, rem: int, room: int, fills: Fills, trace: seq<nat>)
  {
    && FillsWithin(book, taker, limit, fills)
    && (forall h | h in fills :: h in pool)
    && Prior(book, pool, taker, limit, fills)
    && Traces(trace, fills) && OldestFirst(book, trace)
    && rem == rem0 - Total(fills, trace)
    && rem >= 0
    && |fills| <= room
    && (rem > 0 ==> AllFull(book, fills))
  }

  lemma NoProgress(book: Book, pool: set<nat>, taker: Side, limit: int, rem: int, room: int)
    requires rem >= 0 && room >= 0
    ensures Progress(book, pool, taker, limit, rem, rem, room, map[], [])
    ensures AfterFills(book, map[]) == book
  {
  }

  // ---------------------------------------------------------------------
  // Composing two passes.

  /** What a full pass leaves is the rest of the book, untouched. */
  lemma AfterFull(book: Book, fills: Fills, h: nat)
    requires AllFull(book, fills)
    ensures h in AfterFills(book, fills) <==> h in book && h !in fills
    ensures h in AfterFills(book, fills) ==> AfterFills(book, fills)[h] == book[h]
  {
    assert h in fills ==> FullyFilled(book, fills, h);
  }

  lemma ComposeBooks(book: Book, first: Fills, second: Fills)
    requires AllFull(book, first)
    requires forall h | h in second :: h in AfterFills(book, first)
    ensures AfterFills(book, Joined(first, second)) == AfterFills(AfterFills(book, first), second)
    ensures forall h | h in second :: h !in first
    ensures |Joined(first, second)| == |first| + |second|
  {
    var mid, both := AfterFills(book, first), Joined(first, second);
    forall h | h in second ensures h !in first { AfterFull(book, first, h); }
    UnionSize(first, second);
    var a, b := AfterFills(book, both), AfterFills(mid, second);
    forall h ensures h in a <==> h in b { AfterFull(book, first, h); }
    forall h | h in a ensures a[h] == b[h] { AfterFull(book, first, h); }
  }

  lemma UnionSize(first: Fills, second: Fills)
    requires forall h | h in second :: h !in first
    ensures |Joined(first, second)| == |first| + |second|
  {
    assert Joined(first, second).Keys == first.Keys + second.Keys;
    assert first.Keys !! second.Keys;
    assert |first.Keys + second.Keys| == |first.Keys| + |second.Keys|;
  }

  lemma ComposeTrace(first: Fills, second: Fills, p: seq<nat>, q: seq<nat>)
    requires Traces(p, first) && Traces(q, second) && forall h | h in second :: h !in first
    ensures Traces(p + q, Joined(first, second))
    ensures Total(Joined(first, second), p + q) == Total(first, p) + Total(second, q)
  {
    TotalAppend(Joined(first, second), p, q);
    TotalSame(Joined(first, second), first, p);
    TotalSame(Joined(first, second), second, q);
    JoinDistinct(p, q);
  }

  lemma JoinDistinct(p: seq<nat>, q: seq<nat>)
    requires Distinct(p) && Distinct(q) && forall h | h in q :: h !in p
    ensures Distinct(p + q)
  {
    forall i, j | 0 <= i < j < |p + q| ensures (p + q)[i] != (p + q)[j] {
      if i < |p| && j >= |p| { assert q[j - |p|] in q; }
    }
  }

  /** A second round fills no maker older than one of the first at the same price. */
  lemma ComposeOldest(
    book: Book, pool: set<nat>, taker: Side, limit: int, first: Fills, second: Fills, p: seq<nat>, q: seq<nat>)
    requires AllFull(book, first) && Prior(book, pool, taker, limit, first) && Traces(p, first) && Traces(q, second)
    requires FillsWithin(AfterFills(book, first), taker, limit, second) && forall h | h in second :: h in pool
    requires OldestFirst(book, p) && OldestFirst(AfterFills(book, first), q)
    ensures OldestFirst(book, p + q)
  {
    hide AfterFills, AllFull, Prior, Distinct;
    var t := p + q;
    forall i, j | 0 <= i < j < |t| && t[i] in book && t[j] in book
                  && book[t[i]].side == book[t[j]].side && book[t[i]].price == book[t[j]].price
      ensures book[t[i]].stamp <= book[t[j]].stamp
    {
      if i >= |p| { AfterFull(book, first, t[i]); }
      if j >= |p| {
        assert t[j] == q[j - |p|] && t[j] in second;
        AfterFull(book, first, t[j]);
        if i < |p| {
          assert t[i] == p[i] && t[i] in first;
          NotBehind(book, pool, taker, limit, first, t[j], t[i]);
        }
      }
    }
  }

  /** A crossing maker left unfilled is not ahead of one that filled. */
  lemma NotBehind(book: Book, pool: set<nat>, taker: Side, limit: int, fills: Fills, g: nat, h: nat)
    requires Prior(book, pool, taker, limit, fills) && g in pool && g in book && h in fills && h in book
    requires Crosses(book[g], taker, limit) && g !in fills
    ensures !Before(book[g], book[h])
  {
  }

  lemma ComposePrior(book: Book, pool: set<nat>, taker: Side, limit: int, first: Fills, second: Fills)
    requires AllFull(book, first) && Prior(book, pool, taker, limit, first)
    requires forall h | h in second :: h in AfterFills(book, first)
    requires Prior(AfterFills(book, first), pool, taker, limit, second)
    ensures Prior(book, pool, taker, limit, Joined(first, second))
  {
    var mid, both := AfterFills(book, first), Joined(first, second);
    forall g, h | g in pool && g in book && h in both && h in book
                  && Crosses(book[g], taker, limit) && Before(book[g], book[h])
      ensures FullyFilled(book, both, g)
    {
      if g in first {
        assert FullyFilled(book, first, g);
        assert g !in mid;
      } else {
        assert g in mid && mid[g] == book[g];
        if h in second {
          assert mid[h] == book[h];
          assert FullyFilled(mid, second, g);
        }
      }
    }
  }

  lemma ComposeWithin(book: Book, taker: Side, limit: int, first: Fills, second: Fills)
    requires AllFull(book, first) && FillsWithin(book, taker, limit, first)
    requires forall h | h in second :: h in AfterFills(book, first)
    requires FillsWithin(AfterFills(book, first), taker, limit, second)
    ensures FillsWithin(book, taker, limit, Joined(first, second))
    ensures AllFull(AfterFills(book, first), second) ==> AllFull(book, Joined(first, second))
  {
    var mid, both := AfterFills(book, first), Joined(first, second);
    forall h | h in both
      ensures h in book && Crosses(book[h], taker, limit) && 0 < both[h] <= book[h].qty
    {
      if h in second {
        assert h in first ==> FullyFilled(book, first, h);
        assert mid[h] == book[h];
      } else {
        assert h in first;
      }
    }
    if AllFull(mid, second) {
      forall h | h in both ensures FullyFilled(book, both, h) {
        if h in second {
          assert FullyFilled(mid, second, h);
          assert h in first ==> FullyFilled(book, first, h);
          assert mid[h] == book[h];
        } else {
          assert FullyFilled(book, first, h);
        }
      }
    }
  }

  /** A pass on the book another pass left behind continues that pass. */
  lemma Compose(
    book: Book, pool: set<nat>, taker: Side, limit: int, rem0: int, rem: int, room: int, first: Fills, p: seq<nat>,
    rem': int, second: Fills, q: seq<nat>)
    requires Progress(book, pool, taker, limit, rem0, rem, room, first, p) && rem > 0
    requires Progress(AfterFills(book, first), pool, taker, limit, rem, rem', room - |first|, second, q)
    ensures Progress(book, pool, taker, limit, rem0, rem', room, Joined(first, second), p + q)
    ensures AfterFills(book, Joined(first, second)) == AfterFills(AfterFills(book, first), second)
    ensures |Joined(first, second)| == |first| + |second|
  {
    hide Prior, FillsWithin, AllFull, Traces, AfterFills, Total, OldestFirst;
    WithinBook(AfterFills(book, first), taker, limit, second);
    ComposeOldest(book, pool, taker, limit, first, second, p, q);
    ComposeBooks(book, first, second);
    ComposeTrace(first, second, p, q);
    ComposePrior(book, pool, taker, limit, first, second);
    ComposeWithin(book, taker, limit, first, second);
  }

  lemma WithinBook(book: Book, taker: Side, limit: int, fills: Fills)
    requires FillsWithin(book, taker, limit, fills)
    ensures forall h | h in fills :: h in book
  {
  }

  // ---------------------------------------------------------------------
  // A walk of one queue as a pass.

  /** The crossing makers of the queue all have one price. */
  predicate OnePrice(book: Book, q: seq<nat>, taker: Side, limit: int)
    requires forall h | h in q :: h in book
  {
    forall g, h | g in q && h in q && Crosses(book[g], taker, limit) && Crosses(book[h], taker, limit) ::
      book[g].price == book[h].price
  }

  ghost function Elements(q: seq<nat>): set<nat> { set h | h in q }

  /** Among makers of one price, queue order is priority order. */
  lemma OnePricePrior(book: Book, q: seq<nat>, taker: Side, limit: int, fills: Fills)
    requires (forall h | h in q :: h in book) && Fifo(book, q) && OnePrice(book, q, taker, limit)
    requires (forall h | h in fills :: h in q) && FillsWithin(book, taker, limit, fills)
    requires InTurn(book, q, taker, limit, fills)
    ensures Prior(book, Elements(q), taker, limit, fills)
  {
    forall g, h | g in q && h in fills && Crosses(book[g], taker, limit) && Before(book[g], book[h])
      ensures FullyFilled(book, fills, g)
    {
      var i :| 0 <= i < |q| && q[i] == g;
      var j :| 0 <= j < |q| && q[j] == h;
      OneSide(book[g], book[h], taker, limit);
      assert i < j;
    }
  }

  lemma OneSide(a: Order, b: Order, taker: Side, limit: int)
    requires Crosses(a, taker, limit) && Crosses(b, taker, limit)
    ensures a.side == b.side
  {
  }

  lemma AllFullPrior(book: Book, q: seq<nat>, taker: Side, limit: int, fills: Fills)
    requires forall h | h in q :: h in book
    requires forall h | h in q && Crosses(book[h], taker, limit) :: FullyFilled(book, fills, h)
    ensures Prior(book, Elements(q), taker, limit, fills)
  {
  }

  /** A taker and a cap that cover every crossing maker fill them all. */
  lemma {:induction false} SweepAll(book: Book, q: seq<nat>, taker: Side, limit: int, rem: int, room: nat)
    requires Distinct(q) && (forall h | h in q :: h in book) && Positive(book)
    requires Tally(CrossQty(taker, limit), book, q) <= rem && Tally(CrossCount(taker, limit), book, q) <= room
    ensures var fills := Sweep(book, q, taker, limit, rem, room);
            forall h | h in q && Crosses(book[h], taker, limit) :: FullyFilled(book, fills, h)
  {
    if q != [] {
      TailDistinct(q);
      CrossNonNeg(book, q[1..], taker, limit);
      if !Crosses(book[q[0]], taker, limit) {
        SweepAll(book, q[1..], taker, limit, rem, room);
      } else {
        SweepAll(book, q[1..], taker, limit, rem - book[q[0]].qty, room - 1);
      }
      hide Distinct, Tally, Crosses, Positive;
    }
  }

  lemma {:induction false} CrossNonNeg(book: Book, q: seq<nat>, taker: Side, limit: int)
    requires (forall h | h in q :: h in book) && Positive(book)
    ensures Tally(CrossQty(taker, limit), book, q) >= 0 && Tally(CrossCount(taker, limit), book, q) >= 0
    ensures (exists h :: h in q && Crosses(book[h], taker, limit)) ==>
              Tally(CrossQty(taker, limit), book, q) > 0 && Tally(CrossCount(taker, limit), book, q) > 0
    ensures Tally(CrossCount(taker, limit), book, q) > 0 ==> exists h :: h in q && Crosses(book[h], taker, limit)
  {
    if q != [] {
      CrossNonNeg(book, q[1..], taker, limit);
      assert q[0] in q;
      assert forall h | h in q :: h == q[0] || h in q[1..];
      assert forall h | h in q[1..] :: h in q;
    }
  }

  /** The pass could not go on: taker done, room used up, or no crossing maker left in `pool`. */
  ghost predicate Halted(book: Book, pool: set<nat>, taker: Side, limit: int, rem: int, room: int, fills: Fills) {
    || rem == 0
    || |fills| == room
    || forall h | h in pool && h in book && Crosses(book[h], taker, limit) :: h in fills
  }

  /** Either reason makes a walk in queue order a walk in priority order. */
  predicate WalkIsFair(book: Book, q: seq<nat>, taker: Side, limit: int, rem: int, room: int)
    requires forall h | h in q :: h in book
  {
    || OnePrice(book, q, taker, limit)
    || (Tally(CrossQty(taker, limit), book, q) <= rem && Tally(CrossCount(taker, limit), book, q) <= room)
  }

  lemma SweepProgress(
    book: Book, q: seq<nat>, taker: Side, limit: int, rem: int, room: nat, fills: Fills, trace: seq<nat>)
    requires Distinct(q) && (forall h | h in q :: h in book) && Positive(book) && Fifo(book, q) && rem >= 0
    requires WalkIsFair(book, q, taker, limit, rem, room)
    requires fills == Sweep(book, q, taker, limit, rem, room) && Traces(trace, fills) && OldestFirst(book, trace)
    ensures Progress(book, Elements(q), taker, limit, rem, rem - Total(fills, trace), room, fills, trace)
    ensures Halted(book, Elements(q), taker, limit, rem - Total(fills, trace), room, fills)
  {
    hide Sweep, Positive, Fifo, OnePrice, InTurn, FillsWithin, Prior, Total, Tally, Crosses, Distinct, OldestFirst;
    SweepFair(book, q, taker, limit, rem, room);
    SweepPrior(book, q, taker, limit, rem, room);
    TracesDistinct(trace, fills);
    TotalReorder(fills, trace, q);
    FullUnlessPartial(book, taker, limit, fills);
  }

  lemma FullUnlessPartial(book: Book, taker: Side, limit: int, fills: Fills)
    requires FillsWithin(book, taker, limit, fills)
    ensures AllFull(book, fills) || exists h :: h in fills && h in book && fills[h] < book[h].qty
  {
  }

  lemma TracesDistinct(trace: seq<nat>, fills: Fills)
    requires Traces(trace, fills)
    ensures Distinct(trace) && forall h | h in fills :: h in trace
  {
  }

  lemma SweepPrior(book: Book, q: seq<nat>, taker: Side, limit: int, rem: int, room: nat)
    requires Distinct(q) && (forall h | h in q :: h in book) && Positive(book) && Fifo(book, q) && rem >= 0
    requires WalkIsFair(book, q, taker, limit, rem, room)
    ensures Prior(book, Elements(q), taker, limit, Sweep(book, q, taker, limit, rem, room))
  {
    hide Sweep, Positive, Fifo, OnePrice, InTurn, FillsWithin, Prior, Total, Tally, Crosses, Distinct;
    var fills := Sweep(book, q, taker, limit, rem, room);
    if OnePrice(book, q, taker, limit) {
      SweepFair(book, q, taker, limit, rem, room);
      OnePricePrior(book, q, taker, limit, fills);
    } else {
      SweepAll(book, q, taker, limit, rem, room);
      AllFullPrior(book, q, taker, limit, fills);
    }
  }

  /** Filling under a tighter limit is filling under the taker's limit. */
  lemma LimitLift(
    book: Book, pool: set<nat>, taker: Side, tight: int, limit: int, rem0: int, rem: int, room: int,
    fills: Fills, trace: seq<nat>)
    requires Progress(book, pool, taker, tight, rem0, rem, room, fills, trace)
    requires Key(taker.Opposite(), tight) <= Key(taker.Opposite(), limit)
    ensures Progress(book, pool, taker, limit, rem0, rem, room, fills, trace)
  {
    hide Traces, Total, AllFull, OldestFirst;
    forall g, h | g in pool && g in book && h in fills && h in book
                  && Crosses(book[g], taker, limit) && Before(book[g], book[h])
      ensures FullyFilled(book, fills, g)
    {
      assert Crosses(book[h], taker, tight);
      assert Crosses(book[g], taker, tight);
    }
  }

  // ---------------------------------------------------------------------
  // From the best slot to the whole side.

  /** Prices between two prices of one slot are in that slot. */
  lemma SlotConvex(comp: CompressionMap, p: int, q: int, r: int)
    requires Regular(comp) && p <= q <= r && PriceToIndex(comp, p) == PriceToIndex(comp, r)
    ensures PriceToIndex(comp, q) == PriceToIndex(comp, p)
  {
    hide PriceToIndex, BandOf, Regular;
    if p < q < r {
      WalkFollowsPrice(comp, p, q);
      WalkFollowsPrice(comp, q, r);
    }
  }

  /** A crossing maker ahead of one in the best slot is itself in the best slot. */
  lemma AheadIsInSlot(book: Book, comp: CompressionMap, side: Side, tick: nat, px: int, g: nat, h: nat)
    requires Regular(comp) && BestOk(book, comp, side, tick, px) && tick != NONE
    requires g in book && h in book && book[g].side == side && book[h].side == side
    requires PriceToIndex(comp, book[h].price) == tick && Before(book[g], book[h])
    ensures PriceToIndex(comp, book[g].price) == tick
  {
    hide PriceToIndex, Regular;
    if side == Sell {
      SlotConvex(comp, px, book[g].price, book[h].price);
    } else {
      SlotConvex(comp, book[h].price, book[g].price, px);
    }
  }

  lemma SlotToBook(
    slots: seq<OrderSlot>, book: Book, comp: CompressionMap, levels: seq<PriceLevel>, queues: seq<seq<nat>>,
    taker: Side, tick: nat, px: int, limit: int, rem0: int, rem: int, room: int, fills: Fills, trace: seq<nat>)
    requires Regular(comp) && Arranged(slots, book, comp, levels, queues)
    requires BestOk(book, comp, taker.Opposite(), tick, px) && tick < |queues| && tick != NONE
    requires Progress(book, Elements(queues[tick]), taker, limit, rem0, rem, room, fills, trace)
    ensures Progress(book, book.Keys, taker, limit, rem0, rem, room, fills, trace)
  {
    hide Regular, Arranged, PriceToIndex, BestOk, Traces, Total, AllFull, LevelOk, Stores, Before, OldestFirst;
    ArrangedLevel(slots, book, comp, levels, queues, tick);
    forall g, h | g in book && h in fills && Crosses(book[g], taker, limit) && Before(book[g], book[h])
      ensures FullyFilled(book, fills, g)
    {
      AheadIsInSlot(book, comp, taker.Opposite(), tick, px, g, h);
      ArrangedOrder(slots, book, comp, levels, queues, g);
      assert g in Elements(queues[tick]);
    }
  }

  /** If nothing in the best slot crosses, nothing crosses. */
  lemma BestSlotDecides(
    slots: seq<OrderSlot>, book: Book, comp: CompressionMap, levels: seq<PriceLevel>, queues: seq<seq<nat>>,
    taker: Side, tick: nat, px: int, limit: int)
    requires Arranged(slots, book, comp, levels, queues)
    requires BestOk(book, comp, taker.Opposite(), tick, px) && tick < |queues| && tick != NONE
    requires forall h | h in queues[tick] && h in book :: !Crosses(book[h], taker, limit)
    ensures forall h | h in book :: !Crosses(book[h], taker, limit)
  {
    hide Arranged, PriceToIndex, Stores;
    var g :| g in book && book[g].side == taker.Opposite() && book[g].price == px;
    ArrangedOrder(slots, book, comp, levels, queues, g);
  }

  // ---------------------------------------------------------------------
  // The whole match is the simple matcher's.

  lemma ProgressIsSweep(
    book: Book, taker: Side, limit: int, rem0: int, rem: int, room: nat, fills: Fills, trace: seq<nat>)
    requires Stamped(book) && Positive(book) && rem0 >= 0
    requires Progress(book, book.Keys, taker, limit, rem0, rem, room, fills, trace)
    requires Halted(book, book.Keys, taker, limit, rem, room, fills)
    ensures fills == Sweep(book, Ladder(book, taker.Opposite()), taker, limit, rem0, room)
    ensures rem == rem0 - Total(fills, Ladder(book, taker.Opposite()))
  {
    hide Stamped, Positive, Ladder, Sweep, Prior, FillsWithin, Total, AllFull, Distinct, Ordered, InTurn, OldestFirst;
    var q := Ladder(book, taker.Opposite());
    LadderOrdered(book, taker.Opposite());
    FilledOnLadder(book, taker, limit, fills);
    TracesDistinct(trace, fills);
    TotalReorder(fills, trace, q);
    PriorInTurn(book, q, taker, limit, fills);
    PartialMeansDone(book, fills);
    FairIsSweep(book, q, taker, limit, rem0, room, fills);
  }

  lemma PartialMeansDone(book: Book, fills: Fills)
    ensures AllFull(book, fills) ==> !exists h :: h in fills && h in book && fills[h] < book[h].qty
  {
    if h :| h in fills && h in book && fills[h] < book[h].qty {
      assert !FullyFilled(book, fills, h);
    }
  }

  lemma FilledOnLadder(book: Book, taker: Side, limit: int, fills: Fills)
    requires Stamped(book) && FillsWithin(book, taker, limit, fills)
    ensures forall h | h in fills :: h in Ladder(book, taker.Opposite())
    ensures forall h | h in fills :: h in book
  {
  }

  lemma PriorInTurn(book: Book, q: seq<nat>, taker: Side, limit: int, fills: Fills)
    requires Ordered(book, q) && Prior(book, book.Keys, taker, limit, fills)
    ensures InTurn(book, q, taker, limit, fills)
  {
  }

  // ---------------------------------------------------------------------
  // One fill.

  /** The events of one fill: the fill, then the maker's completion if nothing is left of it. */
  function MakerEvents(o: Order, h: nat, qty: int, taker: IncomingOrder): seq<Event> {
    [Fill(h, o.user, taker.user, o.price, qty, taker.side, o.id, taker.id)]
    + if qty == o.qty then [OrderDone(h, o.user, Filled, o.original, 0, o.id)] else []
  }

  /** What one fill does to the orders, the queues, the events and the positions. */
  ghost predicate FilledOne(
    book: Book, book': Book, queues: seq<seq<nat>>, queues': seq<seq<nat>>, comp: CompressionMap,
    events: seq<Event>, events': seq<Event>, users: map<nat, int>, users': map<nat, int>,
    taker: IncomingOrder, h: nat, qty: int)
  {
    && h in book
    && book' == AfterFills(book, map[h := qty])
    && queues' == (if qty < book[h].qty then queues else Dequeued(queues, SlotOf(comp, book[h].price), h))
    && events' == events + MakerEvents(book[h], h, qty, taker)
    && users' == ApplyFill(users, taker.user, book[h].user, taker.side, qty)
  }

  lemma OneFillBook(book: Book, h: nat, qty: int)
    requires h in book && 0 < qty <= book[h].qty
    ensures AfterFills(book, map[h := qty])
            == if qty == book[h].qty then book - {h} else book[h := book[h].(qty := book[h].qty - qty)]
    ensures qty == book[h].qty ==> AfterFills(book, map[h := qty]) == book[h := book[h].(qty := 0)] - {h}
  {
  }

  lemma AfterFillsKeeps(book: Book, fills: Fills)
    requires Positive(book) && Uncrossed(book)
    requires forall h | h in fills :: h in book && 0 < fills[h] <= book[h].qty
    ensures Positive(AfterFills(book, fills)) && Uncrossed(AfterFills(book, fills))
  {
  }

  /** Fills on one side leave the best of the other alone. */
  lemma BestOtherSide(book: Book, comp: CompressionMap, side: Side, tick: nat, px: int, fills: Fills)
    requires Shaped(comp) && BestOk(book, comp, side, tick, px)
    requires forall h | h in fills :: h in book && book[h].side != side
    ensures BestOk(AfterFills(book, fills), comp, side, tick, px)
  {
    hide PriceToIndex;
    var after := AfterFills(book, fills);
    if tick != NONE {
      var g :| g in book && book[g].side == side && book[g].price == px;
      assert g in after && after[g] == book[g];
    }
  }

  lemma OwnedFilled(
    slots: seq<OrderSlot>, bumpNext: nat, free: seq<nat>, book: Book, left: Book,
    mid: seq<OrderSlot>, slots': seq<OrderSlot>, free': seq<nat>, h: nat)
    requires Owned(slots, bumpNext, free, book, left) && h in book && h < |slots|
    requires LinksOnly(slots[h := slots[h].(remaining := 0)], mid, book[h := book[h].(qty := 0)], h)
    requires |mid| == |slots'| && free' == [h] + free && !slots'[h].active
    requires forall g | 0 <= g < |mid| && g != h :: slots'[g] == mid[g]
    ensures Owned(slots', bumpNext, free', book - {h}, left)
  {
    hide Owned, LinksOnly;
    OwnedRequantify(slots, bumpNext, free, book, left, h, 0);
    var zero := book[h := book[h].(qty := 0)];
    OwnedUnlink(slots[h := slots[h].(remaining := 0)], bumpNext, free, zero, left, mid, slots', free', h);
    assert zero - {h} == book - {h};
  }

  // ---------------------------------------------------------------------
  // What a pass does, event by event.

  /** The events of the fills, in the order of `trace`. */
  function FillEvents(book: Book, trace: seq<nat>, fills: Fills, taker: IncomingOrder): seq<Event>
    requires forall h | h in trace :: h in book && h in fills
  {
    if trace == [] then []
    else
      var h := trace[|trace| - 1];
      FillEvents(book, trace[..|trace| - 1], fills, taker) + MakerEvents(book[h], h, fills[h], taker)
  }

  /** Positions after the fills. */
  function UsersAfter(users: map<nat, int>, book: Book, trace: seq<nat>, fills: Fills, taker: IncomingOrder)
    : map<nat, int>
    requires forall h | h in trace :: h in book && h in fills
  {
    if trace == [] then users
    else
      var h := trace[|trace| - 1];
      ApplyFill(UsersAfter(users, book, trace[..|trace| - 1], fills, taker), taker.user, book[h].user, taker.side,
                fills[h])
  }

  /** A pass turned `book` into `book'`, reported the fills and settled the positions. */
  ghost predicate Passed(
    book: Book, book': Book, events: seq<Event>, events': seq<Event>, users: map<nat, int>, users': map<nat, int>,
    taker: IncomingOrder, fills: Fills, trace: seq<nat>)
  {
    && (forall h | h in trace :: h in book && h in fills)
    && book' == AfterFills(book, fills)
    && events' == events + FillEvents(book, trace, fills, taker)
    && users' == UsersAfter(users, book, trace, fills, taker)
  }

  lemma NothingPassed(book: Book, events: seq<Event>, users: map<nat, int>, taker: IncomingOrder)
    ensures Passed(book, book, events, events, users, users, taker, map[], [])
  {
  }

  lemma OnePassed(
    book: Book, book': Book, queues: seq<seq<nat>>, queues': seq<seq<nat>>, comp: CompressionMap,
    events: seq<Event>, events': seq<Event>, users: map<nat, int>, users': map<nat, int>,
    taker: IncomingOrder, h: nat, qty: int)
    requires FilledOne(book, book', queues, queues', comp, events, events', users, users', taker, h, qty)
    ensures Passed(book, book', events, events', users, users', taker, map[h := qty], [h])
  {
    hide AfterFills, ApplyFill, Dequeued, SlotOf, MakerEvents;
    var f := map[h := qty];
    assert [h][..0] == [];
    assert FillEvents(book, [h], f, taker) == [] + MakerEvents(book[h], h, qty, taker);
    assert UsersAfter(users, book, [], f, taker) == users;
  }

  /** Each share comes from its own round. */
  lemma JoinedShares(p: seq<nat>, q: seq<nat>, first: Fills, second: Fills)
    requires (forall h | h in p :: h in first && h !in second) && forall h | h in q :: h in second
    ensures forall h | h in p :: h in Joined(first, second) && Joined(first, second)[h] == first[h]
    ensures forall h | h in q :: h in Joined(first, second) && Joined(first, second)[h] == second[h]
  {
  }

  lemma {:induction false} EventsSame(
    book: Book, mid: Book, trace: seq<nat>, f: Fills, g: Fills, taker: IncomingOrder)
    requires forall h | h in trace :: h in book && h in f && h in mid && h in g && mid[h] == book[h] && g[h] == f[h]
    ensures FillEvents(book, trace, f, taker) == FillEvents(mid, trace, g, taker)
  {
    hide MakerEvents;
    if trace != [] { EventsSame(book, mid, trace[..|trace| - 1], f, g, taker); }
  }

  lemma {:induction false} EventsAppend(book: Book, p: seq<nat>, q: seq<nat>, f: Fills, taker: IncomingOrder)
    requires forall h | h in p + q :: h in book && h in f
    ensures (forall h | h in p :: h in book && h in f) && (forall h | h in q :: h in book && h in f)
    ensures FillEvents(book, p + q, f, taker) == FillEvents(book, p, f, taker) + FillEvents(book, q, f, taker)
    decreases |q|
  {
    hide MakerEvents;
    if q == [] {
      assert p + q == p;
    } else {
      var n := |q| - 1;
      assert (p + q)[..|p + q| - 1] == p + q[..n];
      EventsAppend(book, p, q[..n], f, taker);
    }
    assert forall h | h in p || h in q :: h in p + q;
  }

  lemma EventsJoin(
    book: Book, mid: Book, p: seq<nat>, q: seq<nat>, first: Fills, second: Fills, taker: IncomingOrder)
    requires forall h | h in p :: h in book && h in first && h !in second
    requires forall h | h in q :: h in book && h in mid && mid[h] == book[h] && h in second
    ensures forall h | h in p + q :: h in book && h in Joined(first, second)
    ensures FillEvents(book, p + q, Joined(first, second), taker)
            == FillEvents(book, p, first, taker) + FillEvents(mid, q, second, taker)
  {
    hide Joined, FillEvents;
    JoinedShares(p, q, first, second);
    EventsAppend(book, p, q, Joined(first, second), taker);
    EventsSame(book, book, p, Joined(first, second), first, taker);
    EventsSame(book, mid, q, Joined(first, second), second, taker);
  }

  lemma {:induction false} UsersSame(
    users: map<nat, int>, book: Book, mid: Book, trace: seq<nat>, f: Fills, g: Fills, taker: IncomingOrder)
    requires forall h | h in trace :: h in book && h in f && h in mid && h in g && mid[h] == book[h] && g[h] == f[h]
    ensures UsersAfter(users, book, trace, f, taker) == UsersAfter(users, mid, trace, g, taker)
  {
    hide ApplyFill;
    if trace != [] { UsersSame(users, book, mid, trace[..|trace| - 1], f, g, taker); }
  }

  lemma {:induction false} UsersAppend(
    users: map<nat, int>, book: Book, p: seq<nat>, q: seq<nat>, f: Fills, taker: IncomingOrder)
    requires forall h | h in p + q :: h in book && h in f
    ensures (forall h | h in p :: h in book && h in f) && (forall h | h in q :: h in book && h in f)
    ensures UsersAfter(users, book, p + q, f, taker) == UsersAfter(UsersAfter(users, book, p, f, taker), book, q, f, taker)
    decreases |q|
  {
    hide ApplyFill;
    if q == [] {
      assert p + q == p;
    } else {
      var n := |q| - 1;
      assert (p + q)[..|p + q| - 1] == p + q[..n];
      UsersAppend(users, book, p, q[..n], f, taker);
    }
    assert forall h | h in p || h in q :: h in p + q;
  }

  lemma UsersJoin(
    users: map<nat, int>, book: Book, mid: Book, p: seq<nat>, q: seq<nat>, first: Fills, second: Fills,
    taker: IncomingOrder)
    requires forall h | h in p :: h in book && h in first && h !in second
    requires forall h | h in q :: h in book && h in mid && mid[h] == book[h] && h in second
    ensures forall h | h in p + q :: h in book && h in Joined(first, second)
    ensures UsersAfter(users, book, p + q, Joined(first, second), taker)
            == UsersAfter(UsersAfter(users, book, p, first, taker), mid, q, second, taker)
  {
    hide Joined, UsersAfter;
    JoinedShares(p, q, first, second);
    UsersAppend(users, book, p, q, Joined(first, second), taker);
    UsersSame(users, book, book, p, Joined(first, second), first, taker);
    UsersSame(UsersAfter(users, book, p, first, taker), book, mid, q, Joined(first, second), second, taker);
  }

  /** Two passes in a row are one pass. */
  lemma PassedJoin(
    book: Book, mid: Book, book': Book, e0: seq<Event>, e1: seq<Event>, e2: seq<Event>,
    u0: map<nat, int>, u1: map<nat, int>, u2: map<nat, int>,
    taker: IncomingOrder, first: Fills, p: seq<nat>, second: Fills, q: seq<nat>)
    requires Passed(book, mid, e0, e1, u0, u1, taker, first, p) && AllFull(book, first)
    requires Passed(mid, book', e1, e2, u1, u2, taker, second, q) && Traces(q, second)
    ensures Passed(book, book', e0, e2, u0, u2, taker, Joined(first, second), p + q)
  {
    hide FillEvents, UsersAfter, Joined, AfterFills, AllFull, Traces;
    SecondRound(book, mid, first, p, second, q);
    ComposeBooks(book, first, second);
    EventsJoin(book, mid, p, q, first, second, taker);
    UsersJoin(u0, book, mid, p, q, first, second, taker);
    assert e0 + (FillEvents(book, p, first, taker) + FillEvents(mid, q, second, taker))
           == (e0 + FillEvents(book, p, first, taker)) + FillEvents(mid, q, second, taker);
  }

  /** Makers of a second round were untouched by the first. */
  lemma SecondRound(book: Book, mid: Book, first: Fills, p: seq<nat>, second: Fills, q: seq<nat>)
    requires mid == AfterFills(book, first) && AllFull(book, first) && Traces(q, second)
    requires (forall h | h in p :: h in first) && forall h | h in q :: h in mid && h in second
    ensures forall h | h in p :: h !in second
    ensures forall h | h in q :: h in book && mid[h] == book[h]
    ensures forall h | h in second :: h in mid
  {
    hide AfterFills, AllFull, Distinct;
    forall h | h in second ensures h in mid && h !in first { AfterFull(book, first, h); }
    forall h | h in q ensures h in book && mid[h] == book[h] { AfterFull(book, first, h); }
  }

  /** Two events per filled maker, one for a maker only reduced. */
  lemma {:induction false} EventCount(book: Book, trace: seq<nat>, fills: Fills, taker: IncomingOrder)
    requires forall h | h in trace :: h in book && h in fills
    ensures |FillEvents(book, trace, fills, taker)| <= 2 * |trace|
    ensures AllFull(book, fills) ==> |FillEvents(book, trace, fills, taker)| == 2 * |trace|
  {
    if trace != [] {
      var h := trace[|trace| - 1];
      EventCount(book, trace[..|trace| - 1], fills, taker);
      assert h in trace;
      assert AllFull(book, fills) ==> FullyFilled(book, fills, h);
    }
  }

  lemma TraceSize(trace: seq<nat>, fills: Fills)
    requires Traces(trace, fills)
    ensures |trace| == |fills|
  {
    assert |fills.Keys| == |fills|;
    ListSize(trace, fills.Keys);
  }

  lemma {:induction false} ListSize(q: seq<nat>, hs: set<nat>)
    requires Distinct(q) && forall h :: h in q <==> h in hs
    ensures |q| == |hs|
    decreases |q|
  {
    if q == [] {
      assert hs == {};
    } else {
      TailDistinct(q);
      ListSize(q[1..], hs - {q[0]});
    }
  }

  // ---------------------------------------------------------------------
  // The walk inside one level.

  /** The fills so far account for what the taker has left. */
  ghost predicate Accounted(book: Book, rem0: int, rem: int, room: int, fills: Fills, trace: seq<nat>) {
    && Traces(trace, fills) && OldestFirst(book, trace)
    && rem == rem0 - Total(fills, trace)
    && rem >= 0 && |fills| <= room
    && (rem > 0 ==> AllFull(book, fills))
  }

  predicate FilledUpTo(q: seq<nat>, i: nat, fills: Fills)
    requires i <= |q|
  {
    forall h | h in fills :: h in q[..i]
  }

  /** The simple walk of `q` is `fills`, then the simple walk of the rest of `q`. */
  ghost predicate Split(
    book: Book, q: seq<nat>, i: nat, taker: Side, limit: int, rem0: int, room: int, rem: int, fills: Fills)
  {
    && i <= |q| && Resting(book, q) && Resting(book, q[i..]) && |fills| <= room
    && FilledUpTo(q, i, fills)
    && Sweep(book, q, taker, limit, rem0, room)
       == Joined(fills, Sweep(book, q[i..], taker, limit, rem, room - |fills|))
  }

  ghost predicate Sweeping(
    book: Book, q: seq<nat>, i: nat, taker: Side, limit: int, rem0: int, room: int, rem: int,
    fills: Fills, trace: seq<nat>)
  {
    Accounted(book, rem0, rem, room, fills, trace) && Split(book, q, i, taker, limit, rem0, room, rem, fills)
  }

  lemma SweepingStart(book: Book, q: seq<nat>, taker: Side, limit: int, rem: int, room: int)
    requires Resting(book, q) && rem >= 0 && room >= 0
    ensures Sweeping(book, q, 0, taker, limit, rem, room, rem, map[], [])
  {
    hide Sweep, Joined;
    assert q[0..] == q;
    JoinedFirst(Sweep(book, q, taker, limit, rem, room));
  }

  lemma SweepingSkip(
    book: Book, q: seq<nat>, i: nat, taker: Side, limit: int, rem0: int, room: int, rem: int,
    fills: Fills, trace: seq<nat>)
    requires Sweeping(book, q, i, taker, limit, rem0, room, rem, fills, trace) && i < |q| && q[i] in book
    requires !Crosses(book[q[i]], taker, limit)
    ensures Sweeping(book, q, i + 1, taker, limit, rem0, room, rem, fills, trace)
  {
    hide Accounted, Crosses;
    assert q[i..][1..] == q[i + 1..];
    assert q[..i + 1] == q[..i] + [q[i]];
  }

  lemma AccountedTake(book: Book, rem0: int, rem: int, room: int, fills: Fills, trace: seq<nat>, h: nat, f: int)
    requires Accounted(book, rem0, rem, room, fills, trace) && h !in fills && rem > 0 && |fills| < room
    requires h in book && f == Least(rem, book[h].qty) && OldestFirst(book, trace + [h])
    ensures Accounted(book, rem0, rem - f, room, Joined(fills, map[h := f]), trace + [h])
  {
    hide Total, Traces, OldestFirst;
    OneTotal(h, f);
    ComposeTrace(fills, map[h := f], trace, [h]);
    UnionSize(fills, map[h := f]);
    if rem - f > 0 {
      forall g | g in Joined(fills, map[h := f]) ensures FullyFilled(book, Joined(fills, map[h := f]), g) {
        assert g != h ==> FullyFilled(book, fills, g);
      }
    }
  }

  /** The next handle of a queue is younger than what its walk has filled at the same price. */
  lemma NextIsYounger(book: Book, q: seq<nat>, i: nat, fills: Fills, trace: seq<nat>)
    requires Resting(book, q) && Fifo(book, q) && i < |q| && FilledUpTo(q, i, fills) && Traces(trace, fills)
    requires OldestFirst(book, trace)
    ensures OldestFirst(book, trace + [q[i]])
  {
    hide Distinct;
    forall k | 0 <= k < |trace| ensures trace[k] in q[..i] { assert trace[k] in fills; }
    var t := trace + [q[i]];
    forall a, b | 0 <= a < b < |t| && t[a] in book && t[b] in book
                  && book[t[a]].side == book[t[b]].side && book[t[a]].price == book[t[b]].price
      ensures book[t[a]].stamp <= book[t[b]].stamp
    {
      if b == |trace| {
        var k :| 0 <= k < i && q[k] == trace[a];
      } else {
        assert t[a] == trace[a] && t[b] == trace[b];
      }
    }
  }

  lemma SplitTake(
    book: Book, q: seq<nat>, i: nat, taker: Side, limit: int, rem0: int, room: int, rem: int, fills: Fills)
    requires Split(book, q, i, taker, limit, rem0, room, rem, fills) && i < |q| && Distinct(q) && q[i] in book
    requires Crosses(book[q[i]], taker, limit) && rem > 0 && |fills| < room
    ensures var f := Least(rem, book[q[i]].qty);
            && q[i] !in fills
            && Split(book, q, i + 1, taker, limit, rem0, room, rem - f, fills[q[i] := f])
  {
    hide Sweep, Crosses, Distinct, Least, FilledUpTo, Resting, Joined;
    RestingSlices(book, q, i);
    var h, f := q[i], Least(rem, book[q[i]].qty);
    NotYetFilled(q, i, fills);
    SplitStep(book, q, i, taker, limit, rem, room - |fills|);
    JoinFills(Sweep(book, q, taker, limit, rem0, room), fills, Sweep(book, q[i..], taker, limit, rem, room - |fills|),
              Sweep(book, q[i + 1..], taker, limit, rem - f, room - |fills| - 1), h, f);
    KeysGrow(q, i, fills, f);
  }

  lemma RestingSlices(book: Book, q: seq<nat>, i: nat)
    requires Resting(book, q) && i < |q|
    ensures Resting(book, q[i..]) && Resting(book, q[i + 1..]) && q[i] in book
  {
  }

  lemma NotYetFilled(q: seq<nat>, i: nat, fills: Fills)
    requires Distinct(q) && i < |q| && FilledUpTo(q, i, fills)
    ensures q[i] !in fills
  {
    DistinctSplit(q, i);
  }

  lemma KeysGrow(q: seq<nat>, i: nat, fills: Fills, f: int)
    requires i < |q| && FilledUpTo(q, i, fills)
    ensures FilledUpTo(q, i + 1, fills[q[i] := f])
  {
    assert q[..i + 1] == q[..i] + [q[i]];
  }

  lemma DistinctSplit(q: seq<nat>, i: nat)
    requires Distinct(q) && i < |q|
    ensures q[i] !in q[..i] && q[i] !in q[i + 1..]
  {
  }

  lemma SplitStep(book: Book, q: seq<nat>, i: nat, taker: Side, limit: int, rem: int, room: int)
    requires Resting(book, q) && i < |q| && Distinct(q)
    requires Resting(book, q[i..]) && Resting(book, q[i + 1..]) && q[i] in book
    requires Crosses(book[q[i]], taker, limit) && rem > 0 && room > 0
    ensures var f := Least(rem, book[q[i]].qty);
            var rest := Sweep(book, q[i + 1..], taker, limit, rem - f, room - 1);
            q[i] !in rest && Sweep(book, q[i..], taker, limit, rem, room) == rest[q[i] := f]
  {
    hide Crosses;
    var f := Least(rem, book[q[i]].qty);
    assert q[i..][1..] == q[i + 1..];
    SweepKeys(book, q[i + 1..], taker, limit, rem - f, room - 1);
    DistinctSplit(q, i);
  }

  lemma JoinFills(whole: Fills, fills: Fills, tail: Fills, rest: Fills, h: nat, f: int)
    requires whole == Joined(fills, tail) && tail == rest[h := f] && h !in rest
    ensures whole == Joined(fills[h := f], rest)
  {
  }

  lemma SweepingTake(
    book: Book, q: seq<nat>, i: nat, taker: Side, limit: int, rem0: int, room: int, rem: int,
    fills: Fills, trace: seq<nat>)
    requires Sweeping(book, q, i, taker, limit, rem0, room, rem, fills, trace) && i < |q| && Distinct(q)
    requires q[i] in book && Crosses(book[q[i]], taker, limit) && rem > 0 && |fills| < room
    requires Resting(book, q) && Fifo(book, q)
    ensures var f := Least(rem, book[q[i]].qty);
            && q[i] !in fills
            && Sweeping(book, q, i + 1, taker, limit, rem0, room, rem - f, Joined(fills, map[q[i] := f]), trace + [q[i]])
  {
    hide Accounted, Split, Crosses, Distinct;
    SplitTake(book, q, i, taker, limit, rem0, room, rem, fills);
    SweepingOldest(book, q, i, taker, limit, rem0, room, rem, fills, trace);
    AccountedTake(book, rem0, rem, room, fills, trace, q[i], Least(rem, book[q[i]].qty));
    assert Joined(fills, map[q[i] := Least(rem, book[q[i]].qty)]) == fills[q[i] := Least(rem, book[q[i]].qty)];
  }

  lemma SweepingOldest(
    book: Book, q: seq<nat>, i: nat, taker: Side, limit: int, rem0: int, room: int, rem: int,
    fills: Fills, trace: seq<nat>)
    requires Sweeping(book, q, i, taker, limit, rem0, room, rem, fills, trace) && i < |q|
    requires Resting(book, q) && Fifo(book, q)
    ensures OldestFirst(book, trace + [q[i]])
  {
    hide Traces, Total, Sweep, OldestFirst, Fifo, AllFull, FilledUpTo;
    NextIsYounger(book, q, i, fills, trace);
  }

  lemma OneTotal(h: nat, f: int)
    ensures Traces([h], map[h := f]) && Total(map[h := f], [h]) == f
  {
    assert [h][1..] == [];
  }

  lemma {:induction false} SweepKeys(book: Book, q: seq<nat>, taker: Side, limit: int, rem: int, room: nat)
    requires forall h | h in q :: h in book
    ensures forall h | h in Sweep(book, q, taker, limit, rem, room) :: h in q
  {
    if !(q == [] || rem <= 0 || room == 0) {
      if !Crosses(book[q[0]], taker, limit) {
        SweepKeys(book, q[1..], taker, limit, rem, room);
      } else {
        SweepKeys(book, q[1..], taker, limit, rem - Least(rem, book[q[0]].qty), room - 1);
      }
    }
  }

  lemma SweepingEnd(
    book: Book, q: seq<nat>, i: nat, taker: Side, limit: int, rem0: int, room: int, rem: int,
    fills: Fills, trace: seq<nat>)
    requires Sweeping(book, q, i, taker, limit, rem0, room, rem, fills, trace)
    requires i == |q| || rem == 0 || |fills| == room
    ensures fills == Sweep(book, q, taker, limit, rem0, room)
  {
    hide Accounted, Crosses;
    assert Sweep(book, q[i..], taker, limit, rem, room - |fills|) == map[];
    JoinedNone(fills);
  }

  /** An unfilled handle still rests as it did. */
  lemma UntouchedBy(book: Book, fills: Fills, h: nat)
    requires h in book && h !in fills
    ensures h in AfterFills(book, fills) && AfterFills(book, fills)[h] == book[h]
  {
  }

  /** While the taker has quantity left, the events are twice the makers consumed. */
  lemma EventsSpent(
    book: Book, book': Book, events: seq<Event>, events': seq<Event>, users: map<nat, int>, users': map<nat, int>,
    taker: IncomingOrder, fills: Fills, trace: seq<nat>, rem0: int, rem: int, room: int)
    requires Passed(book, book', events, events', users, users', taker, fills, trace)
    requires Accounted(book, rem0, rem, room, fills, trace)
    ensures |events'| <= |events| + 2 * |fills|
    ensures rem > 0 ==> |events'| == |events| + 2 * |fills|
  {
    hide AfterFills, Total, UsersAfter, FillEvents, AllFull;
    EventCount(book, trace, fills, taker);
    TraceSize(trace, fills);
  }

  // ---------------------------------------------------------------------
  // The queue while it is walked.

  lemma SuffixAt(queue: seq<nat>, kept: seq<nat>, q: seq<nat>, i: nat)
    requires i < |q| && queue == kept + q[i..]
    ensures |kept| < |queue| && queue[|kept|] == q[i]
    ensures queue[|kept| + 1..] == q[i + 1..]
    ensures queue == (kept + [q[i]]) + q[i + 1..]
    ensures Without(queue, |kept|) == kept + q[i + 1..]
  {
  }

  lemma SuffixEnd(slots: seq<OrderSlot>, book: Book, queue: seq<nat>, kept: seq<nat>, q: seq<nat>, i: nat)
    requires i <= |q| && queue == kept + q[i..] && HeadOf(q[i..]) == NONE && Walkable(slots, book, queue)
    ensures i == |q|
  {
    assert forall j | i <= j < |q| :: q[j] == queue[|kept| + (j - i)] < |slots|;
  }

  lemma RemovedAt(queue: seq<nat>, k: nat)
    requires Distinct(queue) && k < |queue|
    ensures Removed(queue, queue[k]) == Without(queue, k)
  {
    var j := IndexOf(queue, queue[k]);
    assert j == k;
  }

  lemma QueueAfterTake(queues: seq<seq<nat>>, tick: nat, kept: seq<nat>, q: seq<nat>, i: nat)
    requires tick < |queues| && i < |q| && queues[tick] == kept + q[i..] && Distinct(queues[tick])
    ensures |Dequeued(queues, tick, q[i])| == |queues|
    ensures Dequeued(queues, tick, q[i])[tick] == kept + q[i + 1..]
    ensures queues[tick] == (kept + [q[i]]) + q[i + 1..]
  {
    hide Distinct, Without, Removed;
    SuffixAt(queues[tick], kept, q, i);
    RemovedAt(queues[tick], |kept|);
  }

  /** What a step of the walk can rely on while the taker has quantity and the cap room left. */
  lemma SweepingFacts(
    book: Book, book': Book, events: seq<Event>, events': seq<Event>, users: map<nat, int>, users': map<nat, int>,
    taker: IncomingOrder, q: seq<nat>, i: nat, limit: int, rem0: int, room: int, rem: int,
    fills: Fills, trace: seq<nat>)
    requires Passed(book, book', events, events', users, users', taker, fills, trace)
    requires Sweeping(book, q, i, taker.side, limit, rem0, room, rem, fills, trace)
    requires rem > 0 && i < |q| && Distinct(q)
    ensures |events'| == |events| + 2 * |fills| && AllFull(book, fills)
    ensures q[i] in book && q[i] !in fills && q[i] in book' && book'[q[i]] == book[q[i]]
  {
    hide Sweep, FillEvents, UsersAfter, Total, Distinct, AfterFills, AllFull;
    EventsSpent(book, book', events, events', users, users', taker, fills, trace, rem0, rem, room);
    NotYetFilled(q, i, fills);
    RestingSlices(book, q, i);
    UntouchedBy(book, fills, q[i]);
  }

  lemma SweepingFinish(
    book: Book, book': Book, events: seq<Event>, events': seq<Event>, users: map<nat, int>, users': map<nat, int>,
    taker: IncomingOrder, q: seq<nat>, i: nat, limit: int, rem0: int, room: int, rem: int,
    fills: Fills, trace: seq<nat>)
    requires Passed(book, book', events, events', users, users', taker, fills, trace)
    requires Sweeping(book, q, i, taker.side, limit, rem0, room, rem, fills, trace)
    requires i == |q| || rem <= 0 || |events'| >= |events| + 2 * room
    ensures Resting(book, q) && fills == Sweep(book, q, taker.side, limit, rem0, room)
    ensures Accounted(book, rem0, rem, room, fills, trace)
  {
    hide Sweep, FillEvents, UsersAfter, Total, Distinct, AfterFills, AllFull, Passed, Resting, FilledUpTo;
    EventsSpent(book, book', events, events', users, users', taker, fills, trace, rem0, rem, room);
    SweepingEnd(book, q, i, taker.side, limit, rem0, room, rem, fills, trace);
  }

  // ---------------------------------------------------------------------
  // Scanning a slot for crossing makers.

  /** The answer of a scan over `q`: crossing quantity, crossing makers and their best price. */
  ghost predicate Scanned(book: Book, q: seq<nat>, taker: Side, limit: int, best: int, qty: int, makers: int) {
    && Resting(book, q)
    && qty == Tally(CrossQty(taker, limit), book, q)
    && makers == Tally(CrossCount(taker, limit), book, q)
    && makers >= 0
    && Key(taker.Opposite(), best) <= Key(taker.Opposite(), limit)
    && (forall h | h in q && Crosses(book[h], taker, limit) ::
          Key(taker.Opposite(), best) <= Key(taker.Opposite(), book[h].price))
    && (makers > 0 ==> exists h :: h in q && Crosses(book[h], taker, limit) && book[h].price == best)
    && (makers == 0 ==> best == limit && forall h | h in q :: !Crosses(book[h], taker, limit))
  }

  lemma ScanStart(book: Book, taker: Side, limit: int)
    ensures Scanned(book, [], taker, limit, limit, 0, 0)
  {
  }

  lemma ScanStep(book: Book, q: seq<nat>, taker: Side, limit: int, best: int, qty: int, makers: int, h: nat)
    requires Scanned(book, q, taker, limit, best, qty, makers) && h in book
    ensures var o := book[h];
            if Crosses(o, taker, limit) then
              Scanned(book, q + [h], taker, limit,
                      if Key(taker.Opposite(), o.price) < Key(taker.Opposite(), best) then o.price else best,
                      qty + o.qty, makers + 1)
            else Scanned(book, q + [h], taker, limit, best, qty, makers)
  {
    hide Tally;
    ScanSums(book, q, taker, limit, h);
    assert forall g :: g in q + [h] <==> g in q || g == h;
    if Crosses(book[h], taker, limit) { ScanBest(book, q, taker, limit, best, qty, makers, h); }
  }

  lemma ScanSums(book: Book, q: seq<nat>, taker: Side, limit: int, h: nat)
    requires Resting(book, q) && h in book
    ensures Resting(book, q + [h])
    ensures Tally(CrossQty(taker, limit), book, q + [h])
            == Tally(CrossQty(taker, limit), book, q) + Weight(CrossQty(taker, limit), book[h])
    ensures Tally(CrossCount(taker, limit), book, q + [h])
            == Tally(CrossCount(taker, limit), book, q) + Weight(CrossCount(taker, limit), book[h])
  {
    TallyAppend(CrossQty(taker, limit), book, q, [h]);
    TallyAppend(CrossCount(taker, limit), book, q, [h]);
    assert [h][1..] == [];
  }

  lemma ScanBest(book: Book, q: seq<nat>, taker: Side, limit: int, best: int, qty: int, makers: int, h: nat)
    requires Scanned(book, q, taker, limit, best, qty, makers) && h in book && Crosses(book[h], taker, limit)
    ensures var b := if Key(taker.Opposite(), book[h].price) < Key(taker.Opposite(), best) then book[h].price else best;
            exists g :: (g in q || g == h) && Crosses(book[g], taker, limit) && book[g].price == b
  {
    hide Tally;
  }

  /** Under the best crossing price the queue has one price. */
  lemma BestIsOnePrice(book: Book, q: seq<nat>, taker: Side, limit: int, best: int, qty: int, makers: int)
    requires Scanned(book, q, taker, limit, best, qty, makers)
    ensures OnePrice(book, q, taker, best)
    ensures makers > 0 ==> exists h :: h in q && Crosses(book[h], taker, best)
  {
    hide Tally;
    forall g | g in q && Crosses(book[g], taker, best) ensures book[g].price == best {
      assert Crosses(book[g], taker, limit);
    }
    if makers > 0 {
      var h :| h in q && Crosses(book[h], taker, limit) && book[h].price == best;
      assert Crosses(book[h], taker, best);
    }
  }

  // ---------------------------------------------------------------------
  // The makers of one slot, whatever queue they are in.

  ghost function SlotPool(book: Book, comp: CompressionMap, tick: nat): set<nat> {
    set h | h in book && SlotOf(comp, book[h].price) == tick
  }

  lemma PoolIsQueue(
    slots: seq<OrderSlot>, book: Book, comp: CompressionMap, levels: seq<PriceLevel>, queues: seq<seq<nat>>, t: nat)
    requires Arranged(slots, book, comp, levels, queues) && t < |queues|
    ensures Elements(queues[t]) == SlotPool(book, comp, t)
  {
    hide Arranged, PriceToIndex, LevelOk, Stores;
    ArrangedShaped(slots, book, comp, levels, queues);
    ArrangedLevel(slots, book, comp, levels, queues, t);
    forall h | h in SlotPool(book, comp, t) ensures h in queues[t] {
      ArrangedOrder(slots, book, comp, levels, queues, h);
    }
  }

  lemma PoolAfter(book: Book, comp: CompressionMap, tick: nat, fills: Fills, h: nat)
    ensures h in SlotPool(AfterFills(book, fills), comp, tick)
            <==> h in SlotPool(book, comp, tick) && h in AfterFills(book, fills)
  {
    hide PriceToIndex;
  }

  /** Only makers still in the book matter to a pass. */
  lemma PoolSwap(
    book: Book, pool: set<nat>, wide: set<nat>, taker: Side, limit: int, rem0: int, rem: int, room: int,
    fills: Fills, trace: seq<nat>)
    requires Progress(book, pool, taker, limit, rem0, rem, room, fills, trace)
    requires forall h | h in book && h in wide :: h in pool
    requires forall h | h in pool :: h in wide
    ensures Progress(book, wide, taker, limit, rem0, rem, room, fills, trace)
  {
    hide Traces, Total, AllFull, FillsWithin, Crosses, Before, OldestFirst;
  }

  /** One price round on a slot, added to the rounds before it. */
  lemma Round(
    b0: Book, comp: CompressionMap, tick: nat, taker: Side, limit: int, best: int, rem0: int, rem: int, room: int,
    fills: Fills, trace: seq<nat>, q: seq<nat>, qty: int, makers: int, rem': int, f: Fills, t: seq<nat>)
    requires Progress(b0, SlotPool(b0, comp, tick), taker, limit, rem0, rem, room, fills, trace) && rem > 0
    requires var mid := AfterFills(b0, fills);
             && Elements(q) == SlotPool(mid, comp, tick) && Distinct(q) && Resting(mid, q) && Fifo(mid, q)
             && Positive(mid) && Scanned(mid, q, taker, limit, best, qty, makers) && makers > 0
             && f == Sweep(mid, q, taker, best, rem, room - |fills|)
             && Accounted(mid, rem, rem', room - |fills|, f, t)
    ensures Progress(b0, SlotPool(b0, comp, tick), taker, limit, rem0, rem', room, Joined(fills, f), trace + t)
    ensures AfterFills(b0, Joined(fills, f)) == AfterFills(AfterFills(b0, fills), f)
    ensures |Joined(fills, f)| == |fills| + |f|
    ensures rem' == 0 || |Joined(fills, f)| == room || |f| > 0
  {
    hide AfterFills, SlotPool, Distinct, Fifo, Positive, Sweep, Tally, Total, Prior, FillsWithin, Crosses, AllFull,
         OnePrice, Elements, Traces, OldestFirst;
    var mid := AfterFills(b0, fills);
    var pool := SlotPool(b0, comp, tick);
    BestIsOnePrice(mid, q, taker, limit, best, qty, makers);
    SweepProgress(mid, q, taker, best, rem, room - |fills|, f, t);
    LimitLift(mid, Elements(q), taker, best, limit, rem, rem', room - |fills|, f, t);
    forall h ensures h in Elements(q) <==> h in pool && h in mid { PoolAfter(b0, comp, tick, fills, h); }
    PoolSwap(mid, Elements(q), pool, taker, limit, rem, rem', room - |fills|, f, t);
    Compose(b0, pool, taker, limit, rem0, rem, room, fills, trace, rem', f, t);
    HaltedEmpty(mid, q, taker, best, rem', room - |fills|, f);
  }

  lemma HaltedEmpty(book: Book, q: seq<nat>, taker: Side, limit: int, rem: int, room: int, fills: Fills)
    requires Halted(book, Elements(q), taker, limit, rem, room, fills) && Resting(book, q)
    requires exists h :: h in q && Crosses(book[h], taker, limit)
    ensures rem == 0 || |fills| == room || |fills| > 0
  {
    var h :| h in q && Crosses(book[h], taker, limit);
    assert h in fills ==> fills != map[];
  }

  /** With no crossing maker left in the slot, all of them have filled. */
  lemma SlotExhausted(b0: Book, comp: CompressionMap, tick: nat, taker: Side, limit: int, rem: int, room: int,
                      fills: Fills, q: seq<nat>)
    requires Elements(q) == SlotPool(AfterFills(b0, fills), comp, tick)
    requires forall h | h in q && h in AfterFills(b0, fills) :: !Crosses(AfterFills(b0, fills)[h], taker, limit)
    ensures Halted(b0, SlotPool(b0, comp, tick), taker, limit, rem, room, fills)
  {
    hide SlotPool;
    forall h | h in SlotPool(b0, comp, tick) && h in b0 && Crosses(b0[h], taker, limit) ensures h in fills {
      PoolAfter(b0, comp, tick, fills, h);
      if h !in fills { UntouchedBy(b0, fills, h); }
      assert h in Elements(q) ==> h in q;
    }
  }

  lemma PassedBook(
    book: Book, book': Book, events: seq<Event>, events': seq<Event>, users: map<nat, int>, users': map<nat, int>,
    taker: IncomingOrder, fills: Fills, trace: seq<nat>)
    requires Passed(book, book', events, events', users, users', taker, fills, trace)
    ensures book' == AfterFills(book, fills)
  {
  }

  lemma ScannedSums(book: Book, q: seq<nat>, taker: Side, limit: int, best: int, qty: int, makers: int)
    requires Scanned(book, q, taker, limit, best, qty, makers)
    ensures Resting(book, q)
    ensures qty == Tally(CrossQty(taker, limit), book, q) && makers == Tally(CrossCount(taker, limit), book, q)
  {
  }

  lemma ScannedNone(book: Book, q: seq<nat>, taker: Side, limit: int, best: int, qty: int)
    requires Scanned(book, q, taker, limit, best, qty, 0)
    ensures forall h | h in q && h in book :: !Crosses(book[h], taker, limit)
  {
  }

  lemma ProgressFull(
    book: Book, pool: set<nat>, taker: Side, limit: int, rem0: int, rem: int, room: int, fills: Fills, trace: seq<nat>)
    requires Progress(book, pool, taker, limit, rem0, rem, room, fills, trace) && rem > 0
    ensures AllFull(book, fills)
  {
  }

  lemma ProgressRange(
    book: Book, pool: set<nat>, taker: Side, limit: int, rem0: int, rem: int, room: int, fills: Fills, trace: seq<nat>)
    requires Progress(book, pool, taker, limit, rem0, rem, room, fills, trace)
    ensures 0 <= rem && |fills| <= room && Traces(trace, fills)
  {
  }

  lemma HaltedNow(book: Book, pool: set<nat>, taker: Side, limit: int, rem: int, room: int, fills: Fills)
    requires rem == 0 || |fills| == room
    ensures Halted(book, pool, taker, limit, rem, room, fills)
  {
  }

  /** A pass that leaves the taker's quantity as it was filled nobody. */
  lemma NoFills(book: Book, pool: set<nat>, taker: Side, limit: int, rem: int, room: int, f: Fills, t: seq<nat>)
    requires Progress(book, pool, taker, limit, rem, rem, room, f, t)
    ensures f == map[]
  {
    hide Prior, Distinct, OldestFirst;
    forall h | h in f ensures Total(f, t) > 0 { TotalGrows(f, t, h); }
  }

  lemma ElementsOf(q: seq<nat>)
    ensures forall h :: h in Elements(q) <==> h in q
  {
  }

  /** What a pass over one slot establishes. */
  ghost predicate SlotPass(
    book: Book, comp: CompressionMap, tick: nat, taker: IncomingOrder, rem0: int, rem: int, room: int,
    fills: Fills, trace: seq<nat>)
  {
    && Progress(book, SlotPool(book, comp, tick), taker.side, taker.price, rem0, rem, room, fills, trace)
    && Halted(book, SlotPool(book, comp, tick), taker.side, taker.price, rem, room, fills)
  }

  /** A pass over the best slot is a pass over the whole side. */
  lemma TouchPass(
    slots: seq<OrderSlot>, book: Book, comp: CompressionMap, levels: seq<PriceLevel>, queues: seq<seq<nat>>,
    tick: nat, px: int, taker: IncomingOrder, rem: int, rem': int, room: int, f: Fills, t: seq<nat>)
    requires Regular(comp) && Arranged(slots, book, comp, levels, queues)
    requires BestOk(book, comp, taker.side.Opposite(), tick, px) && tick < |queues| && tick != NONE
    requires SlotPass(book, comp, tick, taker, rem, rem', room, f, t)
    ensures Progress(book, book.Keys, taker.side, taker.price, rem, rem', room, f, t)
    ensures rem' == rem && rem > 0 ==>
              f == map[] && Halted(book, book.Keys, taker.side, taker.price, rem', room, f)
  {
    hide Regular, Arranged, Progress, BestOk, SlotPool, Elements, Crosses;
    PoolIsQueue(slots, book, comp, levels, queues, tick);
    SlotToBook(slots, book, comp, levels, queues, taker.side, tick, px, taker.price, rem, rem', room, f, t);
    if rem' == rem && rem > 0 {
      NoFills(book, book.Keys, taker.side, taker.price, rem, room, f, t);
      if |f| != room {
        ElementsOf(queues[tick]);
        BestSlotDecides(slots, book, comp, levels, queues, taker.side, tick, px, taker.price);
      }
    }
  }

  /** One round on the best slot, added to the rounds before it. */
  lemma TouchRound(
    slots: seq<OrderSlot>, mid: Book, comp: CompressionMap, levels: seq<PriceLevel>, queues: seq<seq<nat>>,
    tick: nat, px: int, b0: Book, taker: IncomingOrder, rem0: int, rem: int, room: int,
    fills: Fills, trace: seq<nat>, rem': int, f: Fills, t: seq<nat>)
    requires Regular(comp) && Arranged(slots, mid, comp, levels, queues)
    requires BestOk(mid, comp, taker.side.Opposite(), tick, px) && tick < |queues| && tick != NONE
    requires SlotPass(mid, comp, tick, taker, rem, rem', room - |fills|, f, t)
    requires Progress(b0, b0.Keys, taker.side, taker.price, rem0, rem, room, fills, trace) && rem > 0
    requires mid == AfterFills(b0, fills)
    ensures Progress(b0, b0.Keys, taker.side, taker.price, rem0, rem', room, Joined(fills, f), trace + t)
    ensures AfterFills(b0, Joined(fills, f)) == AfterFills(mid, f) && |Joined(fills, f)| == |fills| + |f|
    ensures 0 <= rem' <= rem && Traces(t, f)
    ensures rem' == rem ==> Halted(b0, b0.Keys, taker.side, taker.price, rem', room, Joined(fills, f))
  {
    hide Regular, Arranged, Progress, BestOk, AfterFills, Halted, SlotPass, Joined, Traces;
    TouchPass(slots, mid, comp, levels, queues, tick, px, taker, rem, rem', room - |fills|, f, t);
    MidKeys(b0, fills);
    PoolSwap(mid, mid.Keys, b0.Keys, taker.side, taker.price, rem, rem', room - |fills|, f, t);
    Compose(b0, b0.Keys, taker.side, taker.price, rem0, rem, room, fills, trace, rem', f, t);
    ProgressSpends(mid, b0.Keys, taker.side, taker.price, rem, rem', room - |fills|, f, t);
    if rem' == rem {
      JoinedNone(fills);
      HaltedLift(b0, taker.side, taker.price, rem', room, fills);
    }
  }

  lemma JoinedFirst(fills: Fills)
    ensures Joined(map[], fills) == fills
  {
  }

  lemma JoinedNone(fills: Fills)
    ensures Joined(fills, map[]) == fills
  {
  }

  lemma MidKeys(b0: Book, fills: Fills)
    ensures AfterFills(b0, fills).Keys <= b0.Keys
  {
  }

  lemma ProgressSpends(
    book: Book, pool: set<nat>, taker: Side, limit: int, rem0: int, rem: int, room: int, fills: Fills, trace: seq<nat>)
    requires Progress(book, pool, taker, limit, rem0, rem, room, fills, trace)
    ensures 0 <= rem <= rem0 && Traces(trace, fills)
    ensures Accounted(book, rem0, rem, room, fills, trace)
  {
    hide Prior, Distinct, OldestFirst;
    TotalNonNeg(fills, trace);
  }

  lemma HaltedLift(b0: Book, taker: Side, limit: int, rem: int, room: int, fills: Fills)
    requires Halted(AfterFills(b0, fills), AfterFills(b0, fills).Keys, taker, limit, rem, room - |fills|, map[])
    ensures Halted(b0, b0.Keys, taker, limit, rem, room, fills)
  {
    var mid := AfterFills(b0, fills);
    if rem != 0 && |fills| != room {
      forall h | h in b0 && Crosses(b0[h], taker, limit) ensures h in fills {
        if h !in fills { UntouchedBy(b0, fills, h); }
      }
    }
  }

  lemma TouchEvents(
    book: Book, book': Book, events: seq<Event>, events': seq<Event>, users: map<nat, int>, users': map<nat, int>,
    comp: CompressionMap, tick: nat, taker: IncomingOrder, rem: int, rem': int, room: int, f: Fills, t: seq<nat>)
    requires Passed(book, book', events, events', users, users', taker, f, t)
    requires SlotPass(book, comp, tick, taker, rem, rem', room, f, t)
    ensures |events'| <= |events| + 2 * |f| && |f| <= room
    ensures rem' > 0 ==> |events'| == |events| + 2 * |f|
    ensures book' == AfterFills(book, f)
  {
    hide Progress, Passed, SlotPool;
    var pool := SlotPool(book, comp, tick);
    ProgressSpends(book, pool, taker.side, taker.price, rem, rem', room, f, t);
    ProgressRange(book, pool, taker.side, taker.price, rem, rem', room, f, t);
    EventsSpent(book, book', events, events', users, users', taker, f, t, rem, rem', room);
    PassedBook(book, book', events, events', users, users', taker, f, t);
  }

  /** Where the match stands between two rounds. */
  ghost predicate Between(
    b0: Book, live: Book, events: seq<Event>, users0: map<nat, int>, users: map<nat, int>, taker: IncomingOrder,
    rem0: int, rem: int, fills: Fills, trace: seq<nat>)
  {
    && 0 <= rem <= rem0
    && Progress(b0, b0.Keys, taker.side, taker.price, rem0, rem, MAX_MAKERS_PER_ORDER, fills, trace)
    && live == AfterFills(b0, fills)
    && |events| <= 2 * MAX_MAKERS_PER_ORDER && (rem > 0 ==> |events| == 2 * |fills|)
    && Passed(b0, live, [], events, users0, users, taker, fills, trace)
  }

  lemma BetweenStart(b0: Book, users: map<nat, int>, taker: IncomingOrder, rem: int)
    requires rem >= 0
    ensures Between(b0, b0, [], users, users, taker, rem, rem, map[], [])
  {
    hide Progress, Passed, AfterFills;
    NoProgress(b0, b0.Keys, taker.side, taker.price, rem, MAX_MAKERS_PER_ORDER);
    NothingPassed(b0, [], users, taker);
    UntouchedBook(b0);
  }

  lemma UntouchedBook(b0: Book)
    ensures AfterFills(b0, map[]) == b0
  {
  }

  lemma OppositeTwice(side: Side)
    ensures side.Opposite().Opposite() == side
  {
  }

  // ---------------------------------------------------------------------
  // The finished match.

  /** The match gave exactly the simple matcher's fills. */
  ghost predicate Matched(book: Book, taker: IncomingOrder, rem0: int, rem: int, fills: Fills, trace: seq<nat>)
    requires Stamped(book)
  {
    var q := Ladder(book, taker.side.Opposite());
    && fills == Sweep(book, q, taker.side, taker.price, rem0, MAX_MAKERS_PER_ORDER)
    && rem == rem0 - Total(fills, q)
    && 0 <= rem <= rem0
    && Traces(trace, fills) && OldestFirst(book, trace)
    && |fills| <= MAX_MAKERS_PER_ORDER
    && FillsWithin(book, taker.side, taker.price, fills)
    && (rem > 0 && |fills| < MAX_MAKERS_PER_ORDER ==>
          forall h | h in AfterFills(book, fills) :: !Crosses(AfterFills(book, fills)[h], taker.side, taker.price))
  }

  lemma MatchFinished(book: Book, taker: IncomingOrder, rem0: int, rem: int, fills: Fills, trace: seq<nat>)
    requires Stamped(book) && Positive(book) && rem0 >= 0
    requires Progress(book, book.Keys, taker.side, taker.price, rem0, rem, MAX_MAKERS_PER_ORDER, fills, trace)
    requires Halted(book, book.Keys, taker.side, taker.price, rem, MAX_MAKERS_PER_ORDER, fills)
    ensures Matched(book, taker, rem0, rem, fills, trace)
  {
    hide Stamped, Positive, Sweep, Total, AllFull, AfterFills, Traces, FillsWithin, Prior, OldestFirst;
    ProgressIsSweep(book, taker.side, taker.price, rem0, rem, MAX_MAKERS_PER_ORDER, fills, trace);
    ProgressSpends(book, book.Keys, taker.side, taker.price, rem0, rem, MAX_MAKERS_PER_ORDER, fills, trace);
    if rem > 0 && |fills| < MAX_MAKERS_PER_ORDER {
      NothingCrosses(book, taker.side, taker.price, fills);
    }
  }

  lemma NothingCrosses(book: Book, taker: Side, limit: int, fills: Fills)
    requires AllFull(book, fills) && forall h | h in book && Crosses(book[h], taker, limit) :: h in fills
    ensures forall h | h in AfterFills(book, fills) :: !Crosses(AfterFills(book, fills)[h], taker, limit)
  {
    forall h | h in AfterFills(book, fills) ensures !Crosses(AfterFills(book, fills)[h], taker, limit) {
      AfterFull(book, fills, h);
    }
  }

  lemma HaltedWithoutSide(b0: Book, taker: Side, limit: int, rem: int, room: int, fills: Fills)
    requires forall h | h in AfterFills(b0, fills) :: AfterFills(b0, fills)[h].side != taker.Opposite()
    ensures Halted(b0, b0.Keys, taker, limit, rem, room, fills)
  {
    forall h | h in b0 && Crosses(b0[h], taker, limit) ensures h in fills {
      if h !in fills { UntouchedBy(b0, fills, h); }
    }
  }

  lemma BetweenFacts(
    b0: Book, live: Book, events: seq<Event>, users0: map<nat, int>, users: map<nat, int>, taker: IncomingOrder,
    rem0: int, rem: int, fills: Fills, trace: seq<nat>)
    requires Between(b0, live, events, users0, users, taker, rem0, rem, fills, trace)
    ensures 0 <= rem <= rem0 && live == AfterFills(b0, fills)
    ensures Passed(b0, live, [], events, users0, users, taker, fills, trace)
    ensures |events| <= 2 * MAX_MAKERS_PER_ORDER && (rem > 0 ==> |events| == 2 * |fills|)
  {
    hide Progress, Passed, AfterFills;
  }

  /** A match that has halted between two rounds is finished. */
  lemma BetweenEnd(
    b0: Book, live: Book, events: seq<Event>, users0: map<nat, int>, users: map<nat, int>, taker: IncomingOrder,
    rem0: int, rem: int, fills: Fills, trace: seq<nat>)
    requires Between(b0, live, events, users0, users, taker, rem0, rem, fills, trace) && Stamped(b0) && Positive(b0)
    requires Halted(b0, b0.Keys, taker.side, taker.price, rem, MAX_MAKERS_PER_ORDER, fills)
    ensures Matched(b0, taker, rem0, rem, fills, trace)
  {
    hide Progress, Passed, AfterFills, Halted, Matched, Stamped, Positive;
    MatchFinished(b0, taker, rem0, rem, fills, trace);
  }
}
