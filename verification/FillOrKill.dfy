/** The fill-or-kill pre-check. */
module FillOrKill {
  import opened Types
  import opened Compression
  import opened Bitmap
  import opened Arena
  import opened PriceTime
  import opened Levels
  import opened Arrangement
  import opened BookFacts
  import opened OrderBook
  import opened Matching
  import opened FokFacts

  /** Sum of the first `count` orders of a level. */
  method SumQty(book: Orderbook, head: nat, count: nat, ghost tick: nat) returns (total: int)
    requires book.Steady() && tick < |book.queues| && head == HeadOf(book.queues[tick])
    requires count <= |book.queues[tick]| && Resting(book.live, book.queues[tick])
    ensures total == SumFirst(book.live, book.queues[tick], count)
  {
    hide Walkable, HeadOf, Stores, SumFirst, Resting;
    hide Orderbook.Sound, Orderbook.Holds;
    LevelWalkable(book, tick);
    ghost var q := book.queues[tick];
    total := 0;
    var cursor := head;
    assert q[0..] == q;
    SumNone(book.live, q);
    for i := 0 to count
      invariant cursor == HeadOf(q[i..]) && total == SumFirst(book.live, q, i)
    {
      HeadIsHandle(book.orders.slots, book.live, q, i);
      WalkStep(book.orders.slots, book.live, q, i);
      StoredFields(book.orders.slots[q[i]], book.live[q[i]], book.orders.slots[q[i]].tick);
      SumStep(book.live, q, i);
      total := total + book.orders.slots[cursor].remaining;
      cursor := book.orders.slots[cursor].next;
    }
  }

  /** Count a zone-0 level, which crosses as a whole or not at all. */
  method CountZoneZero(book: Orderbook, tick: nat, taker: Side, limit: int, needed: int, total: int, makers: nat)
    returns (stop: bool, feasible: bool, total': int, makers': nat)
    requires book.Steady() && Shaped(book.comp) && tick < |book.queues| == |book.activeLevels|
    requires tick < book.comp.zoneSlots[0] && SideCount(book.activeLevels[tick], taker.Opposite()) > 0
    requires makers <= MAX_MAKERS_PER_ORDER && total < needed
    ensures LevelCounted(book.live, CrossingAt(book.live, book.queues, tick, taker, limit), needed, total, makers,
                         stop, feasible, total', makers')
  {
    hide CrossingAt, SumFirst, Resting, Positive;
    hide Orderbook.Sound, Orderbook.Holds;
    ZoneZeroAt(book, tick, taker, limit);
    var lvl, opp := book.activeLevels[tick], taker.Opposite();
    ghost var q := book.queues[tick];
    total', makers' := total, makers;
    EmptySum(book.live, MAX_MAKERS_PER_ORDER - makers);
    if Key(opp, book.orders.slots[lvl.head].price) > Key(opp, limit) { return true, false, total, makers; }
    var count := SideCount(lvl, opp);
    if makers + count > MAX_MAKERS_PER_ORDER {
      var room := MAX_MAKERS_PER_ORDER - makers;
      var sum := SumQty(book, lvl.head, room, tick);
      return true, total + sum >= needed, total, makers;
    }
    SumBeyondHidden(book.live, q, MAX_MAKERS_PER_ORDER - makers);
    makers' := makers + count;
    total' := total + lvl.totalQty;
    return total' >= needed, total' >= needed, total', makers';
  }

  lemma ZoneZeroAt(book: Orderbook, tick: nat, taker: Side, limit: int)
    requires book.Steady() && Shaped(book.comp) && tick < |book.queues| == |book.activeLevels|
    requires tick < book.comp.zoneSlots[0] && SideCount(book.activeLevels[tick], taker.Opposite()) > 0
    ensures var q, lvl := book.queues[tick], book.activeLevels[tick];
            && q != [] && lvl.head == q[0] && q[0] < |book.orders.slots| && Resting(book.live, q)
            && |q| == SideCount(lvl, taker.Opposite())
            && lvl.totalQty == SumFirst(book.live, q, |q|)
            && CrossingAt(book.live, book.queues, tick, taker, limit)
               == if Key(taker.Opposite(), book.orders.slots[q[0]].price) <= Key(taker.Opposite(), limit) then q else []
  {
    hide PriceToIndex, Regular, Uncrossed, Arranged, SumFirst, CrossingAt, Represents, SlabOk, PriceAsc, Marked, Owned,
         Positive, SideCount;
    ZoneZeroCounts(book.orders.slots, book.live, book.comp, book.activeLevels, book.queues, tick, taker, limit);
  }

  /** Count a compressed slot order by order. */
  method CountCompressed(book: Orderbook, tick: nat, taker: Side, limit: int, needed: int, total: int, makers: nat)
    returns (stop: bool, feasible: bool, total': int, makers': nat)
    requires book.Steady() && Shaped(book.comp) && tick < |book.queues| == |book.activeLevels|
    requires SideCount(book.activeLevels[tick], taker.Opposite()) > 0
    requires makers <= MAX_MAKERS_PER_ORDER && total < needed
    ensures LevelCounted(book.live, CrossingAt(book.live, book.queues, tick, taker, limit), needed, total, makers,
                         stop, feasible, total', makers')
  {
    hide Crossing, SumFirst, Resting, Positive, Counting, SeenBest, LevelCounted, Walkable, HeadOf, Stores;
    hide Orderbook.Sound, Orderbook.Holds, Orderbook.Steady;
    var opp := taker.Opposite();
    LevelAtRest(book, tick);
    LevelWalkable(book, tick);
    SteadyPositive(book);
    ghost var g := SideWitness(book, tick, opp);
    ghost var q := book.queues[tick];
    total', makers' := total, makers;
    CountingStart(book.live, q, taker, limit, needed, total, makers);
    var best := Worst(opp);
    SeenStart(book.live, q, opp);
    var cursor := book.activeLevels[tick].head;
    ghost var i := 0;
    assert q[0..] == q;
    while cursor != NONE
      invariant i <= |q| && cursor == HeadOf(q[i..])
      invariant Counting(book.live, q, i, taker, limit, needed, total, makers, total', makers')
      invariant Resting(book.live, q[..i]) && SeenBest(book.live, q[..i], opp, best)
      invariant best == Worst(opp) || exists h :: h in q[..i] && h in book.live && book.live[h].side == opp
      decreases |q| - i
    {
      WalkStep(book.orders.slots, book.live, q, i);
      StoredFields(book.orders.slots[q[i]], book.live[q[i]], book.orders.slots[q[i]].tick);
      PriceRange(book, q[i]);
      SeenStepAt(book.live, q, i, opp, best);
      var order := book.orders.slots[cursor];
      if order.side == opp {
        if Key(opp, order.price) < Key(opp, best) { best := order.price; }
      }
      if IsCrossing(order.side, order.price, taker, limit) {
        CountingTake(book.live, q, i, taker, limit, needed, total, makers, total', makers');
        if makers' + 1 > MAX_MAKERS_PER_ORDER { return true, false, total', makers'; }
        if total' + order.remaining >= needed { return true, true, total', makers'; }
        total', makers' := total' + order.remaining, makers' + 1;
      } else {
        CountingSkip(book.live, q, i, taker, limit, needed, total, makers, total', makers');
      }
      cursor := order.next;
      i := i + 1;
    }
    WalkEnd(book.orders.slots, book.live, q, i);
    CountingEnd(book.live, q, taker, limit, needed, total, makers, total', makers', best, g);
    return Key(opp, best) > Key(opp, limit), false, total', makers';
  }

  lemma SteadyPositive(book: Orderbook)
    requires book.Steady()
    ensures Positive(book.live)
  {
    hide Orderbook.Sound;
  }

  lemma SideWitness(book: Orderbook, tick: nat, side: Side) returns (g: nat)
    requires book.Steady() && tick < |book.queues| == |book.activeLevels|
    requires SideCount(book.activeLevels[tick], side) > 0
    ensures g in book.queues[tick] && g in book.live && book.live[g].side == side
  {
    hide PriceToIndex, Regular, Uncrossed, Arranged, Represents, SlabOk, PriceAsc, Marked, Owned, Positive, Recorded,
         Stores, Linked, Fifo, Tally;
    ArrangedLevel(book.orders.slots, book.live, book.comp, book.activeLevels, book.queues, tick);
    TallyWitness(side, book.live, book.queues[tick]);
    g :| g in book.queues[tick] && book.live[g].side == side;
  }

  lemma PriceRange(book: Orderbook, h: nat)
    requires book.Steady() && h in book.live
    ensures 0 < book.live[h].price <= I64_MAX
  {
    hide PriceToIndex, Regular, Uncrossed, Arranged, Represents, SlabOk, PriceAsc, Marked, Owned, Positive;
  }

  /** Count one level: by its header in zone 0, order by order in a compressed slot. */
  method CountLevel(book: Orderbook, tick: nat, taker: Side, limit: int, needed: int, total: int, makers: nat)
    returns (stop: bool, feasible: bool, total': int, makers': nat)
    requires book.Steady() && Shaped(book.comp) && tick < |book.queues| == |book.activeLevels|
    requires SideCount(book.activeLevels[tick], taker.Opposite()) > 0
    requires makers <= MAX_MAKERS_PER_ORDER && total < needed
    ensures LevelCounted(book.live, CrossingAt(book.live, book.queues, tick, taker, limit), needed, total, makers,
                         stop, feasible, total', makers')
  {
    hide LevelCounted, CrossingAt, SideCount;
    hide Orderbook.Steady;
    if tick < book.comp.zoneSlots[0] {
      stop, feasible, total', makers' := CountZoneZero(book, tick, taker, limit, needed, total, makers);
    } else {
      stop, feasible, total', makers' := CountCompressed(book, tick, taker, limit, needed, total, makers);
    }
  }

  /** Walk the crossing levels in price order until the running total decides. */
  method CanFillFully(book: Orderbook, taker: Side, limit: int, needed: int) returns (ok: bool)
    requires book.Valid() && needed > 0
    ensures ok <==> CountedQty(book.live, book.queues, book.priceAsc, taker, limit) >= needed
  {
    hide CountedQty;
    hide Orderbook.Valid;
    if taker == Buy {
      ok := CanFillUp(book, limit, needed);
    } else {
      ok := CanFillDown(book, limit, needed);
    }
  }

  /** What the pre-check reads of a book at rest. */
  lemma PreCheckFacts(book: Orderbook)
    requires book.Valid()
    ensures Regular(book.comp) && Shaped(book.comp) && book.priceAsc == PriceAsc(book.comp)
    ensures Arranged(book.orders.slots, book.live, book.comp, book.activeLevels, book.queues)
    ensures Marked(book.activeLevels, Buy, book.bidOcc.members) && Marked(book.activeLevels, Sell, book.askOcc.members)
    ensures |book.queues| == |book.activeLevels| && book.bidOcc.Valid() && book.askOcc.Valid()
    ensures book.Steady() && Positive(book.live)
  {
    hide Regular, Represents, PriceAsc, Marked, Owned, Uncrossed, Arranged, SlabOk, Recorded, BestOk;
    RegularShaped(book.comp);
    ArrangedShaped(book.orders.slots, book.live, book.comp, book.activeLevels, book.queues);
  }

  lemma MarkedSlot(levels: seq<PriceLevel>, side: Side, members: set<nat>, t: nat)
    requires Marked(levels, side, members) && t in members
    ensures t < |levels| && SideCount(levels[t], side) > 0
  {
  }

  /** The pre-check for a buy: asks, upward in price. */
  method CanFillUp(book: Orderbook, limit: int, needed: int) returns (ok: bool)
    requires book.Valid() && needed > 0
    ensures ok <==> CountedQty(book.live, book.queues, book.priceAsc, Buy, limit) >= needed
  {
    hide Regular, Arranged, Marked, VisitUp, CrossingAt, LevelCounted, BestOk, Represents, SideCount, Tallied, PriceAsc,
         Resting, SumFirst, Positive, Shaped;
    hide Orderbook.Valid, Orderbook.Steady;
    PreCheckFacts(book);
    ghost var slots, book0, comp, levels, queues := book.orders.slots, book.live, book.comp, book.activeLevels, book.queues;
    var total: int, makers: nat := 0, 0;
    ghost var visit := VisitAll(book.live, book.queues, book.priceAsc, Buy, limit);
    VisitAllResting(book.live, book.queues, book.priceAsc, Buy, limit);
    TallyStart(book.live, visit, needed);
    for k := 0 to |book.priceAsc|
      invariant Tallied(book0, visit, VisitRangesUp(book0, queues, book.priceAsc, k, Buy, limit), needed, total, makers)
    {
      var lo, hi := book.priceAsc[k].0, book.priceAsc[k].1;
      ghost var later := VisitRangesUp(book0, queues, book.priceAsc, k + 1, Buy, limit);
      var cur := lo;
      var more := true;
      while more
        invariant lo <= cur
        invariant Tallied(book0, visit, VisitUp(book0, queues, cur, hi, Buy, limit) + later, needed, total, makers)
        invariant !more ==> VisitUp(book0, queues, cur, hi, Buy, limit) == []
        decreases more, if cur <= hi then hi - cur else 0
      {
        var r := book.askOcc.FindFirstIn(cur, hi);
        if r.None? {
          NoMoreUp(slots, book0, comp, levels, queues, book.askOcc.members, cur, hi, limit);
          more := false;
        } else {
          var t := r.value;
          NextUp(slots, book0, comp, levels, queues, book.askOcc.members, cur, t, hi, limit);
          MarkedSlot(levels, Sell, book.askOcc.members, t);
          TalliedRange(book0, visit, VisitUp(book0, queues, cur, hi, Buy, limit) + later, needed, total, makers);
          ghost var c := CrossingAt(book0, queues, t, Buy, limit);
          ghost var ahead := VisitUp(book0, queues, t + 1, hi, Buy, limit);
          var stop, feasible, total', makers' := CountLevel(book, t, Buy, limit, needed, total, makers);
          assert (c + ahead) + later == c + (ahead + later);
          if stop {
            if c == [] {
              ghost var g := SideWitness(book, t, Sell);
              NothingLaterUp(slots, book0, comp, levels, queues, k, t, g, limit);
            }
            StopHere(book0, visit, c, ahead + later, needed, total, makers, feasible, total', makers');
            return feasible;
          }
          GoOn(book0, visit, c, ahead + later, needed, total, makers, total', makers');
          total, makers := total', makers';
          cur := t + 1;
        }
      }
      assert [] + later == later;
    }
    TallyEnd(book0, visit, needed, total, makers);
    return false;
  }

  /** The pre-check for a sell: bids, downward in price. */
  method CanFillDown(book: Orderbook, limit: int, needed: int) returns (ok: bool)
    requires book.Valid() && needed > 0
    ensures ok <==> CountedQty(book.live, book.queues, book.priceAsc, Sell, limit) >= needed
  {
    hide Regular, Arranged, Marked, VisitDown, CrossingAt, LevelCounted, BestOk, Represents, SideCount, Tallied, PriceAsc,
         Resting, SumFirst, Positive, Shaped;
    hide Orderbook.Valid, Orderbook.Steady;
    PreCheckFacts(book);
    ghost var slots, book0, comp, levels, queues := book.orders.slots, book.live, book.comp, book.activeLevels, book.queues;
    var total: int, makers: nat := 0, 0;
    ghost var visit := VisitAll(book.live, book.queues, book.priceAsc, Sell, limit);
    VisitAllResting(book.live, book.queues, book.priceAsc, Sell, limit);
    TallyStart(book.live, visit, needed);
    for k := |book.priceAsc| downto 0
      invariant Tallied(book0, visit, VisitRangesDown(book0, queues, book.priceAsc, k, Sell, limit), needed, total, makers)
    {
      var lo, hi := book.priceAsc[k].0, book.priceAsc[k].1;
      ghost var later := VisitRangesDown(book0, queues, book.priceAsc, k, Sell, limit);
      var top := hi;
      var more := true;
      while more
        invariant top <= hi
        invariant Tallied(book0, visit, VisitDown(book0, queues, lo, top, Sell, limit) + later, needed, total, makers)
        invariant !more ==> VisitDown(book0, queues, lo, top, Sell, limit) == []
        decreases more, top
      {
        var r := book.bidOcc.FindLastIn(lo, top);
        if r.None? {
          NoMoreDown(slots, book0, comp, levels, queues, book.bidOcc.members, lo, top, limit);
          more := false;
        } else {
          var t := r.value;
          NextDown(slots, book0, comp, levels, queues, book.bidOcc.members, lo, t, top, limit);
          MarkedSlot(levels, Buy, book.bidOcc.members, t);
          TalliedRange(book0, visit, VisitDown(book0, queues, lo, top, Sell, limit) + later, needed, total, makers);
          ghost var c := CrossingAt(book0, queues, t, Sell, limit);
          ghost var ahead := VisitDown(book0, queues, lo, t, Sell, limit);
          var stop, feasible, total', makers' := CountLevel(book, t, Sell, limit, needed, total, makers);
          assert (c + ahead) + later == c + (ahead + later);
          if stop {
            if c == [] {
              ghost var g := SideWitness(book, t, Buy);
              NothingLaterDown(slots, book0, comp, levels, queues, k, t, g, limit);
            }
            StopHere(book0, visit, c, ahead + later, needed, total, makers, feasible, total', makers');
            return feasible;
          }
          GoOn(book0, visit, c, ahead + later, needed, total, makers, total', makers');
          total, makers := total', makers';
          top := t;
        }
      }
      assert [] + later == later;
    }
    TallyEnd(book0, visit, needed, total, makers);
    return false;
  }
}
