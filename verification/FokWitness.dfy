/** A fill-or-kill order that the pre-check lets through and the match cannot fill. */
module FokWitness {
  import opened Types
  import opened Compression
  import opened Bitmap
  import opened Arena
  import opened PriceTime
  import opened Levels
  import opened Arrangement
  import opened BookFacts
  import opened OrderBook
  import opened MatchFacts
  import opened Matching
  import opened FokFacts
  import opened FokExact
  import opened Outcome
  import opened FillOrKill
  import opened NewOrder
  import opened Laws

  const CAP: nat := MAX_MAKERS_PER_ORDER
  const MID := 100_000
  const FAR_PRICE := 105_009
  const NEAR_PRICE := 105_001
  const WANTED := 10 * CAP

  lemma WideEnough()
    ensures Fits(MID, 1) && Regular(NewMap(MID, 1)) && Shaped(NewMap(MID, 1))
  {
    hide NewMap, Regular;
    RegularWhenWide(MID, 1);
    RegularShaped(NewMap(MID, 1));
  }

  /** Both prices fall into the same ten-tick slot. */
  lemma OneSlot()
    ensures Regular(NewMap(MID, 1)) && Shaped(NewMap(MID, 1)) && NewMap(MID, 1).tick == 1
    ensures SlotOf(NewMap(MID, 1), FAR_PRICE) == SlotOf(NewMap(MID, 1), NEAR_PRICE)
    ensures 0 <= SlotOf(NewMap(MID, 1), FAR_PRICE) < TotalSlots(NewMap(MID, 1))
  {
    hide NewMap, Regular, PriceToIndex;
    WideEnough();
    NewMapPlain(MID, 1);
    SameSlot(NewMap(MID, 1));
    IndexInBand(NewMap(MID, 1), FAR_PRICE);
  }

  lemma SameSlot(m: CompressionMap)
    requires Shaped(m) && m.mid == MID && m.tick == 1 && m.thresholds == [5_000, 15_000, 30_000, 50_000]
    requires m.compressions == [1, 10, 100, 1000, 1]
    ensures PriceToIndex(m, FAR_PRICE) == PriceToIndex(m, NEAR_PRICE)
  {
  }

  predicate IsFar(o: Order) { o.side == Sell && o.price == FAR_PRICE && o.qty == 10 }

  /** The sells of the far price, ten lots each. */
  ghost predicate Stack(book: Book, q: seq<nat>) {
    Distinct(q) && (forall h :: h in book <==> h in q) && forall h | h in q :: h in book && IsFar(book[h])
  }

  /** The queue of one slot; every other slot is empty. */
  ghost predicate OnlySlot(queues: seq<seq<nat>>, t: int, q: seq<nat>) {
    0 <= t < |queues| && queues[t] == q && forall s | 0 <= s < |queues| && s != t :: queues[s] == []
  }

  /** As many far sells as the cap allows, then one sell of a single lot at the near price. */
  ghost predicate Overfull(book: Book, q: seq<nat>, last: nat) {
    && |q| == CAP && last !in q && last in book
    && Stack(book - {last}, q)
    && book[last].side == Sell && book[last].price == NEAR_PRICE && book[last].qty == 1
  }

  lemma StackGrows(book: Book, q: seq<nat>, h: nat, o: Order)
    requires Stack(book, q) && h !in book && IsFar(o)
    ensures Stack(book[h := o], q + [h])
  {
  }

  lemma SellsOnly(book: Book, q: seq<nat>)
    requires Stack(book, q)
    ensures forall limit :: !SomeCross(book, Sell, limit)
  {
  }

  lemma FarOrder(o: Order)
    ensures o.side == Sell && o.price == FAR_PRICE && o.qty == 10 ==> IsFar(o)
  {
  }

  lemma OnlySlotGrows(queues: seq<seq<nat>>, t: int, q: seq<nat>, h: nat)
    requires OnlySlot(queues, t, q)
    ensures OnlySlot(Enqueued(queues, t, h), t, q + [h])
  {
  }

  // ---------------------------------------------------------------------
  // What the pre-check counts.

  lemma {:induction false} OnlySlotUp(
    book: Book, queues: seq<seq<nat>>, t: nat, q: seq<nat>, lo: nat, hi: nat, taker: Side, limit: int)
    requires OnlySlot(queues, t, q)
    ensures VisitUp(book, queues, lo, hi, taker, limit)
            == if lo <= t < hi then CrossingAt(book, queues, t, taker, limit) else []
    decreases hi - lo
  {
    hide CrossingAt, OnlySlot;
    if lo < hi {
      OtherSlot(book, queues, t, q, lo, taker, limit);
      OnlySlotUp(book, queues, t, q, lo + 1, hi, taker, limit);
    }
  }

  lemma OtherSlot(book: Book, queues: seq<seq<nat>>, t: nat, q: seq<nat>, s: nat, taker: Side, limit: int)
    requires OnlySlot(queues, t, q)
    ensures s != t ==> CrossingAt(book, queues, s, taker, limit) == []
  {
  }

  lemma {:induction false} OnlySlotRanges(
    book: Book, queues: seq<seq<nat>>, t: nat, q: seq<nat>, comp: CompressionMap, k: nat, taker: Side, limit: int)
    requires OnlySlot(queues, t, q) && Regular(comp) && Shaped(comp) && t < TotalSlots(comp)
    requires |PriceAsc(comp)| == 10 && k <= 10
    ensures VisitRangesUp(book, queues, PriceAsc(comp), k, taker, limit)
            == if BandOf(comp, t) >= k then CrossingAt(book, queues, t, taker, limit) else []
    decreases 10 - k
  {
    hide OnlySlot, VisitUp, CrossingAt, BandOf, Regular, Shaped, PriceAsc, TotalSlots;
    if k < 10 {
      var r := PriceAsc(comp)[k];
      OnlySlotUp(book, queues, t, q, r.0, r.1, taker, limit);
      OnlySlotRanges(book, queues, t, q, comp, k + 1, taker, limit);
      RangesPartition(comp, t);
      assert InRange(r, t) <==> k == BandOf(comp, t);
    }
  }

  lemma {:induction false} SumFar(book: Book, q: seq<nat>, n: nat)
    requires Resting(book, q) && (forall h | h in q :: book[h].qty == 10) && n <= |q|
    ensures SumFirst(book, q, n) == 10 * n
  {
    if n > 0 { SumFar(book, q[1..], n - 1); }
  }

  lemma AllCross(book: Book, q: seq<nat>, last: nat)
    requires Overfull(book, q, last)
    ensures Resting(book, q + [last])
    ensures forall h | h in book :: h in q + [last] && Crosses(book[h], Buy, FAR_PRICE)
    ensures forall h | h in q :: book[h].qty == 10
  {
    forall h | h in q ensures h in book && book[h].qty == 10 && Crosses(book[h], Buy, FAR_PRICE) {
      assert h in book - {last};
    }
    forall h | h in book ensures h in q + [last] && Crosses(book[h], Buy, FAR_PRICE) {
      if h != last { assert h in book - {last}; }
    }
  }

  lemma CountsTooMuch(book: Book, queues: seq<seq<nat>>, comp: CompressionMap, t: nat, q: seq<nat>, last: nat)
    requires Overfull(book, q, last) && Positive(book)
    requires OnlySlot(queues, t, q + [last]) && Regular(comp) && Shaped(comp) && t < TotalSlots(comp)
    ensures CountedQty(book, queues, PriceAsc(comp), Buy, FAR_PRICE) == WANTED
  {
    hide Regular, Shaped, PriceAsc, TotalSlots, Overfull, Crosses, BandOf, SumFirst, Positive;
    AllCross(book, q, last);
    CrossingWhole(book, q + [last], Buy, FAR_PRICE);
    PriceAscBounds(comp, 0);
    OnlySlotRanges(book, queues, t, q + [last], comp, 0, Buy, FAR_PRICE);
    OverfullSize(book, q, last);
    assert Resting(book, q) && Resting(book, [last]);
    SumAppend(book, q, [last], CAP);
    SumFar(book, q, CAP);
  }

  lemma OverfullSize(book: Book, q: seq<nat>, last: nat)
    requires Overfull(book, q, last)
    ensures |q| == CAP && last in book && last !in q && forall h | h in q :: h in book
  {
    forall h | h in q ensures h in book { assert h in book - {last}; }
  }

  // ---------------------------------------------------------------------
  // What the match fills.

  lemma NearFirst(book: Book, q: seq<nat>, last: nat)
    requires Overfull(book, q, last) && Stamped(book)
    ensures var l := Queue(book, Buy, FAR_PRICE);
            && |l| == CAP + 1 && l[0] == last && Distinct(l) && Resting(book, l)
            && forall h | h in l && h != last :: book[h].qty == 10 && h in q
  {
    hide Stamped, Queue, Crosses;
    AllCross(book, q, last);
    QueueFacts(book, Buy, FAR_PRICE);
    var l := Queue(book, Buy, FAR_PRICE);
    var all := q + [last];
    assert Distinct(all);
    SameMakers(book, all, l);
    var i :| 0 <= i < |l| && l[i] == last;
    assert l[0] in l && l[0] in all;
  }

  lemma FillsTooLittle(book: Book, q: seq<nat>, last: nat)
    requires Overfull(book, q, last) && Stamped(book)
    ensures Fillable(book, Buy, FAR_PRICE) == WANTED - 9
    ensures |Queue(book, Buy, FAR_PRICE)| > CAP
  {
    hide Queue, Stamped;
    NearFirst(book, q, last);
    var l := Queue(book, Buy, FAR_PRICE);
    TailDistinct(l);
    SumFar(book, l[1..], CAP - 1);
    assert SumFirst(book, l, CAP) == book[last].qty + SumFirst(book, l[1..], CAP - 1);
  }

  // ---------------------------------------------------------------------
  // The run.

  /** Rest one sell of the far price. */
  method AddFar(book: Orderbook, ghost q: seq<nat>, t: nat) returns (h: nat)
    requires book.Valid() && book.config.tickSize == 1 && |book.live| < |book.orders.slots|
    requires Stack(book.live, q) && OnlySlot(book.queues, t, q) && SlotOf(book.comp, FAR_PRICE) == t
    modifies book`activeLevels, book`queues, book`live, book`bestBidTick, book`bestBidPx, book`bestAskTick,
             book`bestAskPx, book`sequence, book`users, book.orders, book.bidOcc, book.askOcc
    ensures book.Valid() && |book.orders.slots| == |old(book.orders.slots)| && |book.live| == |old(book.live)| + 1
    ensures Stack(book.live, q + [h]) && OnlySlot(book.queues, t, q + [h])
  {
    hide SlotOf, OnlySlot, Enqueued, Stack, IsFar, SomeCross;
    hide Orderbook.Valid;
    SlabPartition(book);
    SellsOnly(book.live, q);
    h := Rest(book, Sale(FAR_PRICE), 10);
    FarOrder(book.live[h]);
    StackGrows(old(book.live), q, h, book.live[h]);
    OnlySlotGrows(old(book.queues), t, q, h);
  }

  lemma EmptyQueues(book: Orderbook, t: nat)
    requires book.Valid() && book.live == map[] && t < TotalSlots(book.comp)
    ensures OnlySlot(book.queues, t, []) && Stack(book.live, [])
  {
    hide Represents, PriceAsc, Marked, Owned, Uncrossed, Positive, SlabOk, PriceToIndex, Regular, BestOk, Recorded,
         Linked, Counts, Fifo;
    forall s | 0 <= s < |book.queues| ensures book.queues[s] == [] {
      ArrangedLevel(book.orders.slots, book.live, book.comp, book.activeLevels, book.queues, s);
      NoMembers(book.queues[s]);
    }
  }

  lemma NowOverfull(book: Book, q: seq<nat>, last: nat, o: Order)
    requires Stack(book, q) && |q| == CAP && last !in book
    requires o.side == Sell && o.price == NEAR_PRICE && o.qty == 1
    ensures Overfull(book[last := o], q, last)
  {
    assert book[last := o] - {last} == book;
  }

  /** On such a book the order for everything the pre-check counted stops nine short. */
  lemma StopsShort(book: Book, users: map<nat, int>, config: BookConfig, order: IncomingOrder, q: seq<nat>, last: nat)
    requires Overfull(book, q, last) && Stamped(book) && Positive(book)
    requires config == BookConfig(1, 1) && order == TheOrder()
    ensures Judge(book, users, config, order, WANTED).1 == Completed(MatchLimit, WANTED - 9, 9)
  {
    hide Overfull, Stamped, Positive, Queue, Fillable, AfterFills, FillsFor, SomeCross, Total, Traded;
    FillsTooLittle(book, q, last);
    FillsTotal(book, order, WANTED);
    SweptFills(book, order, WANTED);
    CrossingLeft(book, order, FillsFor(book, order, WANTED));
  }

  /** It never rests, so it needs no handle. */
  lemma ShortHasRoom(
    book: Book, users: map<nat, int>, config: BookConfig, order: IncomingOrder, q: seq<nat>, last: nat, capacity: nat)
    requires Overfull(book, q, last) && Stamped(book) && Positive(book)
    requires config == BookConfig(1, 1) && order == TheOrder()
    ensures !FindsNoRoom(book, users, config, order, capacity)
  {
    hide Overfull, Stamped, Positive, AfterFills, FillsFor, SomeCross, Total, Traded;
  }

  function Sale(price: int): IncomingOrder {
    IncomingOrder(price, 10, 10, Sell, GTC, 1, false, false, OrderId(0, 0))
  }

  function TheOrder(): IncomingOrder {
    IncomingOrder(FAR_PRICE, WANTED, WANTED, Buy, FOK, 2, false, false, OrderId(0, 1))
  }

  /** A book of the far sells alone. */
  method BuildStack() returns (book: Orderbook, t: nat, ghost q: seq<nat>)
    ensures fresh(book.Repr()) && book.Valid() && book.config == BookConfig(1, 1) && book.comp == NewMap(MID, 1)
    ensures |book.live| == |q| == CAP && |book.orders.slots| == CAP + 2
    ensures t == SlotOf(book.comp, FAR_PRICE) && Stack(book.live, q) && OnlySlot(book.queues, t, q)
  {
    hide SlotOf, OnlySlot, Stack, Regular, NewMap, Shaped;
    hide Orderbook.Valid;
    OneSlot();
    book := new Orderbook(BookConfig(1, 1), CAP + 2, MID);
    t := SlotOf(book.comp, FAR_PRICE);
    EmptyQueues(book, t);
    q := [];
    ghost var bids, asks := book.bidOcc, book.askOcc;
    for i := 0 to CAP
      invariant book.bidOcc == bids && book.askOcc == asks && book.comp == NewMap(MID, 1) && book.Valid()
      invariant |book.live| == i == |q| && |book.orders.slots| == CAP + 2
      invariant Stack(book.live, q) && OnlySlot(book.queues, t, q)
    {
      var h := AddFar(book, q, t);
      q := q + [h];
    }
  }

  /** The near sell arrives last. */
  method AddNear(book: Orderbook, t: nat, ghost q: seq<nat>) returns (last: nat)
    requires book.Valid() && book.config == BookConfig(1, 1) && book.comp == NewMap(MID, 1)
    requires |book.live| == |q| == CAP && |book.orders.slots| == CAP + 2
    requires t == SlotOf(book.comp, FAR_PRICE) && Stack(book.live, q) && OnlySlot(book.queues, t, q)
    modifies book`activeLevels, book`queues, book`live, book`bestBidTick, book`bestBidPx, book`bestAskTick,
             book`bestAskPx, book`sequence, book`users, book.orders, book.bidOcc, book.askOcc
    ensures |book.live| < |book.orders.slots| && Overfull(book.live, q, last)
    ensures CountedQty(book.live, book.queues, book.priceAsc, Buy, FAR_PRICE) == WANTED
    ensures book.Valid()
  {
    hide SlotOf, OnlySlot, Enqueued, Stack, Regular, NewMap, Shaped, CountedQty, Overfull, Positive, Arranged, Marked, PriceAsc;
    hide Orderbook.Valid, Orderbook.Steady;
    OneSlot();
    SlabPartition(book);
    SellsOnly(book.live, q);
    last := Rest(book, Sale(NEAR_PRICE), 1);
    OnlySlotGrows(old(book.queues), t, q, last);
    NowOverfull(old(book.live), q, last, book.live[last]);
    PreCheckFacts(book);
    CountsTooMuch(book.live, book.queues, book.comp, t, q, last);
  }

  /** A fill-or-kill order on a reachable book that fills in part. */
  method FokPartiallyFills() returns (book: Orderbook, remaining: int, ghost verdict: Verdict)
    ensures TheOrder().tif == FOK && 0 < remaining < TheOrder().qty
    ensures verdict == Completed(MatchLimit, TheOrder().qty - remaining, remaining)
    ensures FillQty(book.events) == TheOrder().qty - remaining && book.Valid()
  {
    hide SlotOf, OnlySlot, Stack, NewMap, Responded, CountedQty, FillQty, Overfull, SideQty, Traded, Judge, Stamped,
         Positive, Uncrossed, BestOk, Regular, Shaped, Priced, BestOf;
    hide Orderbook.Valid;
    var t, exhausted;
    ghost var q, fills, trace, handle;
    book, t, q := BuildStack();
    var last := AddNear(book, t, q);
    ValidFacts(book);
    AllPositive(book);
    ghost var b0, u0 := book.live, book.users;
    StopsShort(b0, u0, book.config, TheOrder(), q, last);
    exhausted, remaining, fills, verdict, trace, handle := ProcessNewOrder(book, TheOrder());
    ShortHasRoom(b0, u0, book.config, TheOrder(), q, last, |book.orders.slots|);
    JudgedAs(b0, u0, book.config, TheOrder(), WANTED, fills, verdict, trace, handle, book.sequence,
             book.live, book.users, book.events);
    QuantityConserved(b0, u0, book.config, TheOrder(), WANTED, fills, verdict, trace, handle, book.sequence,
                      book.live, book.users, book.events);
  }
}
