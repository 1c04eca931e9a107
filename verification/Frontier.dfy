/** Incremental migration: the frontier grows tick by tick until the old array is empty. */
module Frontier {
  import opened Types
  import opened Compression
  import opened Bitmap
  import opened Arena
  import opened PriceTime
  import opened Arrangement
  import opened BookFacts
  import opened OrderBook
  import opened MoveFacts
  import opened Migration

  const I64_MIN := -I64_MAX - 1

  function SaturatingSub(a: int, b: int): int { Max(a - b, I64_MIN) }

  /** Everything still to move lies outside the frontier, in other old slots than its two ends. */
  ghost predicate Beyond(left: Book, was: CompressionMap, bid: int, ask: int, tick: int) {
    && tick >= 1 && I64_MIN <= bid <= ask && ask % tick == 0 && (bid % tick == 0 || bid <= 0)
    && forall h | h in left ::
         && (left[h].price < bid || left[h].price > ask)
         && SlotOf(was, left[h].price) != SlotOf(was, bid)
         && SlotOf(was, left[h].price) != SlotOf(was, ask)
  }

  lemma BeyondStart(left: Book, was: CompressionMap, mid: int, tick: int)
    requires tick >= 1 && mid % tick == 0 && mid >= I64_MIN
    ensures Beyond(Outside(left, was, SlotOf(was, mid)), was, mid, mid, tick)
  {
    hide SlotOf;
  }

  lemma BeyondDown(left: Book, was: CompressionMap, bid: int, ask: int, tick: int)
    requires Beyond(left, was, bid, ask, tick) && Priced(left, tick)
    ensures var bid' := SaturatingSub(bid, tick);
            Beyond(Outside(left, was, SlotOf(was, bid')), was, bid', ask, tick)
  {
    hide SlotOf;
    var bid' := SaturatingSub(bid, tick);
    if bid % tick == 0 { TickBelow(bid, tick); }
    forall h | h in left && left[h].price < bid && SlotOf(was, left[h].price) != SlotOf(was, bid')
      ensures left[h].price < bid'
    {
      NextTick(left[h].price, bid, tick);
    }
  }

  lemma BeyondUp(left: Book, was: CompressionMap, bid: int, ask: int, tick: int)
    requires Beyond(left, was, bid, ask, tick) && Priced(left, tick)
    ensures Beyond(Outside(left, was, SlotOf(was, ask + tick)), was, bid, ask + tick, tick)
  {
    hide SlotOf;
    TickBelow(ask, tick);
    forall h | h in left && left[h].price > ask && SlotOf(was, left[h].price) != SlotOf(was, ask + tick)
      ensures left[h].price > ask + tick
    {
      NextTick(ask, left[h].price, tick);
    }
  }

  /** All prices beyond the last threshold on one side share a slot. */
  lemma FarPrices(m: CompressionMap, p: int, q: int)
    requires Regular(m)
    ensures p <= MinPrice(m) && q <= MinPrice(m) ==> SlotOf(m, p) == SlotOf(m, q)
    ensures p >= MaxPrice(m) && q >= MaxPrice(m) ==> SlotOf(m, p) == SlotOf(m, q)
  {
    hide Counted;
  }

  lemma BeyondDone(left: Book, was: CompressionMap, bid: int, ask: int, tick: int)
    requires Beyond(left, was, bid, ask, tick) && Regular(was) && Shaped(was)
    requires bid <= MinPrice(was) && ask >= MaxPrice(was)
    ensures left == map[]
  {
    hide SlotOf, Regular, Shaped;
    forall h | h in left ensures false {
      FarPrices(was, left[h].price, bid);
      FarPrices(was, left[h].price, ask);
    }
  }

  /** A migration in progress with its frontier: whatever is inside has moved. */
  ghost predicate Advancing(book: Orderbook, whole: Book)
    reads book, book.orders, book.bidOcc, book.askOcc
  {
    && Moving(book, whole)
    && book.oldComp.Some? && Shaped(book.oldComp.value)
    && Beyond(book.left, book.oldComp.value, book.bidFrontier, book.askFrontier, book.config.tickSize)
    && book.oldMinPrice == MinPrice(book.oldComp.value) && book.oldMaxPrice == MaxPrice(book.oldComp.value)
  }

  /** Every order priced within the frontier is in the active levels. */
  lemma InsideIsActive(book: Orderbook, whole: Book, h: nat)
    requires Advancing(book, whole) && h in whole && book.bidFrontier <= whole[h].price <= book.askFrontier
    ensures h in book.live && book.live[h] == whole[h]
  {
    hide Loaded, Regular, Arranged, Positive, Uncrossed, SlotOf, Apart, Shaped;
  }

  /** How far the frontier still has to go. */
  ghost function Gap(bid: int, ask: int, low: int, high: int): nat {
    Max(bid - low, 0) + Max(high - ask, 0)
  }

  lemma UnmovedPriced(whole: Book, live: Book, left: Book, tick: int, sequence: nat)
    requires Divided(whole, live, left) && Recorded(whole, tick, sequence)
    ensures Priced(left, tick)
  {
  }

  method SetFrontier(book: Orderbook, bid: int, ask: int, ghost whole: Book)
    requires Moving(book, whole)
    modifies book`bidFrontier, book`askFrontier
    ensures book.bidFrontier == bid && book.askFrontier == ask
    ensures Moving(book, whole)
  {
    hide Arranged, Regular, Recorded, Represents, SlabOk, PriceAsc, Marked, BestOk, Shaped, Owned, Positive, Uncrossed,
         Divided, Apart;
    book.bidFrontier, book.askFrontier := bid, ask;
  }

  /** One tick down: move the orders of the price reached. */
  method StepBid(book: Orderbook, ghost whole: Book)
    requires Advancing(book, whole)
    modifies book`activeLevels, book`queues, book`live, book`left, book`bestBidTick, book`bestBidPx, book`bestAskTick,
             book`bestAskPx, book`oldLevels, book`oldQueues, book`bidFrontier, book`askFrontier, book.orders`slots,
             book.bidOcc, book.askOcc
    ensures book.bidFrontier == SaturatingSub(old(book.bidFrontier), book.config.tickSize)
    ensures book.askFrontier == old(book.askFrontier) && book.left.Keys <= old(book.left).Keys
    ensures Advancing(book, whole)
  {
    hide Moving, Beyond, Outside, SlotOf, Regular, Shaped, Arranged, Recorded, Divided, Priced, SaturatingSub;
    HasOldMap(book, whole);
    UnmovedPriced(whole, book.live, book.left, book.config.tickSize, book.sequence);
    var bid := SaturatingSub(book.bidFrontier, book.config.tickSize);
    BeyondDown(book.left, book.oldComp.value, book.bidFrontier, book.askFrontier, book.config.tickSize);
    SetFrontier(book, bid, book.askFrontier, whole);
    OutsideLess(book.left, book.oldComp.value, SlotOf(book.oldComp.value, bid));
    MigratePrice(book, bid, whole);
  }

  /** One tick up: move the orders of the price reached. */
  method StepAsk(book: Orderbook, ghost whole: Book)
    requires Advancing(book, whole)
    modifies book`activeLevels, book`queues, book`live, book`left, book`bestBidTick, book`bestBidPx, book`bestAskTick,
             book`bestAskPx, book`oldLevels, book`oldQueues, book`bidFrontier, book`askFrontier, book.orders`slots,
             book.bidOcc, book.askOcc
    ensures book.askFrontier == old(book.askFrontier) + book.config.tickSize
    ensures book.bidFrontier == old(book.bidFrontier) && book.left.Keys <= old(book.left).Keys
    ensures Advancing(book, whole)
  {
    hide Moving, Beyond, Outside, SlotOf, Regular, Shaped, Arranged, Recorded, Divided, Priced;
    HasOldMap(book, whole);
    UnmovedPriced(whole, book.live, book.left, book.config.tickSize, book.sequence);
    var ask := book.askFrontier + book.config.tickSize;
    BeyondUp(book.left, book.oldComp.value, book.bidFrontier, book.askFrontier, book.config.tickSize);
    SetFrontier(book, book.bidFrontier, ask, whole);
    OutsideLess(book.left, book.oldComp.value, SlotOf(book.oldComp.value, ask));
    MigratePrice(book, ask, whole);
  }

  lemma OutsideLess(left: Book, was: CompressionMap, idx: int)
    ensures Outside(left, was, idx).Keys <= left.Keys
  {
  }

  lemma FrontierRange(book: Orderbook, whole: Book)
    requires Advancing(book, whole)
    ensures book.config.tickSize >= 1 && I64_MIN <= book.bidFrontier <= book.askFrontier && book.state == Migrating
  {
    hide Loaded, Regular, Arranged, Positive, Uncrossed, SlotOf, Apart, Shaped;
  }

  /** Recentering on an aligned middle price starts the frontier there. */
  lemma FrontierStarts(book: Orderbook, whole: Book, was: CompressionMap, newMid: int)
    requires Moving(book, whole) && book.oldComp == Some(was) && Shaped(was)
    requires book.bidFrontier == book.askFrontier == newMid && newMid >= I64_MIN
    requires book.config.tickSize >= 1 && newMid % book.config.tickSize == 0
    requires book.oldMinPrice == MinPrice(was) && book.oldMaxPrice == MaxPrice(was)
    requires book.left == Outside(whole, was, SlotOf(was, newMid))
    ensures Advancing(book, whole)
  {
    hide Moving, Beyond, Outside, SlotOf, Regular, Shaped;
    BeyondStart(whole, was, newMid, book.config.tickSize);
  }

  predicate IsWithinFrontier(book: Orderbook, price: int)
    reads book
  {
    book.bidFrontier <= price <= book.askFrontier
  }

  /** Move the frontier until it holds a price. */
  method AdvanceFrontierTo(book: Orderbook, price: int, ghost whole: Book)
    requires Advancing(book, whole) && price >= I64_MIN
    modifies book`activeLevels, book`queues, book`live, book`left, book`bestBidTick, book`bestBidPx, book`bestAskTick,
             book`bestAskPx, book`oldLevels, book`oldQueues, book`bidFrontier, book`askFrontier, book.orders`slots,
             book.bidOcc, book.askOcc
    ensures book.bidFrontier <= Min(price, old(book.bidFrontier)) && book.askFrontier >= Max(price, old(book.askFrontier))
    ensures book.left.Keys <= old(book.left).Keys
    ensures Advancing(book, whole)
  {
    hide Advancing;
    FrontierRange(book, whole);
    if price < book.bidFrontier {
      while book.bidFrontier > price
        invariant book.bidFrontier <= old(book.bidFrontier) && book.askFrontier == old(book.askFrontier)
        invariant book.left.Keys <= old(book.left).Keys
        invariant Advancing(book, whole)
        decreases book.bidFrontier - price
      {
        StepBid(book, whole);
        FrontierRange(book, whole);
      }
    } else if price > book.askFrontier {
      while book.askFrontier < price
        invariant book.askFrontier >= old(book.askFrontier) && book.bidFrontier == old(book.bidFrontier)
        invariant book.left.Keys <= old(book.left).Keys
        invariant Advancing(book, whole)
        decreases price - book.askFrontier
      {
        StepAsk(book, whole);
        FrontierRange(book, whole);
      }
    }
  }

  /** Make sure the orders of a price are in the active levels. */
  method ResolveLevel(book: Orderbook, price: int, ghost whole: Book)
    requires book.state == Migrating ==> Advancing(book, whole)
    requires price >= I64_MIN
    modifies book`activeLevels, book`queues, book`live, book`left, book`bestBidTick, book`bestBidPx, book`bestAskTick,
             book`bestAskPx, book`oldLevels, book`oldQueues, book`bidFrontier, book`askFrontier, book.orders`slots,
             book.bidOcc, book.askOcc
    ensures old(book.state) == Normal ==>
              unchanged(book) && unchanged(book.orders) && unchanged(book.bidOcc) && unchanged(book.askOcc)
    ensures book.state == Migrating ==>
              && IsWithinFrontier(book, price) && book.left.Keys <= old(book.left).Keys
              && (forall h | h in whole && whole[h].price == price :: h in book.live && book.live[h] == whole[h])
              && Advancing(book, whole)
  {
    hide Advancing;
    if book.state == Migrating {
      if !IsWithinFrontier(book, price) { AdvanceFrontierTo(book, price, whole); }
      forall h | h in whole && whole[h].price == price ensures h in book.live && book.live[h] == whole[h] {
        InsideIsActive(book, whole, h);
      }
    }
  }

  /** The frontier has passed both ends of the old array, so nothing is left there. */
  lemma Arrived(book: Orderbook, whole: Book)
    requires Advancing(book, whole)
    ensures book.oldMinPrice > 0
    ensures book.bidFrontier <= book.oldMinPrice && book.askFrontier >= book.oldMaxPrice ==> book.left == map[]
  {
    hide Loaded, Arranged, Positive, Uncrossed, SlotOf, Apart, Divided, Beyond;
    if book.bidFrontier <= book.oldMinPrice && book.askFrontier >= book.oldMaxPrice {
      BeyondDone(book.left, book.oldComp.value, book.bidFrontier, book.askFrontier, book.config.tickSize);
    }
  }

  /** Move up to a batch of levels, finishing the migration when the frontier has passed the old array. */
  method MigrateBatch(book: Orderbook, batchSize: nat, ghost whole: Book)
    requires book.state == Migrating ==> Advancing(book, whole)
    modifies book`activeLevels, book`queues, book`live, book`left, book`bestBidTick, book`bestBidPx, book`bestAskTick,
             book`bestAskPx, book`oldLevels, book`oldComp, book`oldQueues, book`bidFrontier, book`askFrontier, book`state,
             book.orders`slots, book.bidOcc, book.askOcc
    ensures old(book.state) == Normal ==>
              unchanged(book) && unchanged(book.orders) && unchanged(book.bidOcc) && unchanged(book.askOcc)
    ensures old(book.state) == Migrating && book.state == Migrating ==>
              && Advancing(book, whole) && book.left.Keys <= old(book.left).Keys
              && (batchSize > 0 ==> Gap(book.bidFrontier, book.askFrontier, book.oldMinPrice, book.oldMaxPrice)
                                    < Gap(old(book.bidFrontier), old(book.askFrontier), book.oldMinPrice, book.oldMaxPrice))
    ensures old(book.state) == Migrating && book.state == Normal ==> book.Valid() && book.live == whole
  {
    hide Advancing, Moving;
    hide Orderbook.Valid;
    if book.state != Migrating { return; }
    var migrated := 0;
    while migrated < batchSize
      invariant book.state == Migrating && book.left.Keys <= old(book.left).Keys
      invariant migrated == 0 ==> book.bidFrontier == old(book.bidFrontier) && book.askFrontier == old(book.askFrontier)
      invariant migrated > 0 ==> Gap(book.bidFrontier, book.askFrontier, book.oldMinPrice, book.oldMaxPrice)
                                 < Gap(old(book.bidFrontier), old(book.askFrontier), book.oldMinPrice, book.oldMaxPrice)
      invariant Advancing(book, whole)
      decreases batchSize - migrated
    {
      Arrived(book, whole);
      FrontierRange(book, whole);
      if book.bidFrontier > 0 {
        StepBid(book, whole);
        migrated := migrated + 1;
      }
      StepAsk(book, whole);
      migrated := migrated + 1;
      Arrived(book, whole);
      FrontierRange(book, whole);
      if book.bidFrontier <= book.oldMinPrice && book.askFrontier >= book.oldMaxPrice {
        StillMoving(book, whole);
        CompleteMigration(book, whole);
        break;
      }
    }
  }

  lemma StillMoving(book: Orderbook, whole: Book)
    requires Advancing(book, whole)
    ensures Moving(book, whole)
  {
  }

  /** Positive batches, repeated, bring the whole book back to normal operation. */
  method MigrateInBatches(book: Orderbook, batchSize: nat, ghost whole: Book)
    requires batchSize > 0 && book.state == Migrating && Advancing(book, whole)
    modifies book`activeLevels, book`queues, book`live, book`left, book`bestBidTick, book`bestBidPx, book`bestAskTick,
             book`bestAskPx, book`oldLevels, book`oldComp, book`oldQueues, book`bidFrontier, book`askFrontier, book`state,
             book.orders`slots, book.bidOcc, book.askOcc
    ensures book.Valid() && book.live == whole
  {
    hide Advancing;
    hide Orderbook.Valid;
    while book.state == Migrating
      invariant book.state == Migrating ==> Advancing(book, whole)
      invariant book.state == Normal ==> book.Valid() && book.live == whole
      decreases book.state == Migrating, Gap(book.bidFrontier, book.askFrontier, book.oldMinPrice, book.oldMaxPrice)
    {
      MigrateBatch(book, batchSize, whole);
    }
  }

  /** One call on a migrating book. */
  datatype MoveCall = Resolve(price: int) | Batch(size: nat)

  /** Carry out one call, which may find the migration already finished. */
  method Advance(book: Orderbook, call: MoveCall, ghost whole: Book)
    requires call.Resolve? ==> call.price >= I64_MIN
    requires book.state == Migrating ==> Advancing(book, whole)
    requires book.state == Normal ==> book.Valid() && book.live == whole && book.left == map[]
    modifies book`activeLevels, book`queues, book`live, book`left, book`bestBidTick, book`bestBidPx, book`bestAskTick,
             book`bestAskPx, book`oldLevels, book`oldComp, book`oldQueues, book`bidFrontier, book`askFrontier, book`state,
             book.orders`slots, book.bidOcc, book.askOcc
    ensures book.left.Keys <= old(book.left).Keys
    ensures book.state == Migrating ==> Advancing(book, whole)
    ensures book.state == Normal ==> book.Valid() && book.live == whole && book.left == map[]
  {
    hide Advancing;
    hide Orderbook.Valid;
    match call {
      case Resolve(price) => ResolveLevel(book, price, whole);
      case Batch(size) => MigrateBatch(book, size, whole);
    }
    if book.state == Normal { NothingLeft(book); }
  }

  lemma NothingLeft(book: Orderbook)
    requires book.Valid()
    ensures book.left == map[]
  {
    hide Orderbook.Sound, Orderbook.Holds, Orderbook.BestsOk;
  }

  /**
   * Recenter step by step: after the trigger any script of resolves and batches, then positive
   * batches to the end. Orders once moved stay moved, and the whole book comes out valid.
   */
  method RecenterByScript(book: Orderbook, newMid: int, script: seq<MoveCall>, batchSize: nat)
    returns (ghost unmoved: seq<set<nat>>)
    requires book.Valid() && Regular(NewMap(newMid, book.config.tickSize)) && batchSize > 0
    requires book.config.tickSize >= 1 && newMid % book.config.tickSize == 0 && newMid >= I64_MIN
    requires forall call | call in script :: call.Resolve? ==> call.price >= I64_MIN
    modifies book`activeLevels, book`comp, book`oldLevels, book`oldComp, book`oldMinPrice, book`oldMaxPrice,
             book`bidFrontier, book`askFrontier, book`state, book`bidOcc, book`askOcc, book`priceAsc,
             book`bestBidTick, book`bestBidPx, book`bestAskTick, book`bestAskPx, book`live, book`queues, book`left,
             book`oldQueues, book.orders`slots
    ensures |unmoved| == |script| + 1 && forall i, j | 0 <= i <= j < |unmoved| :: unmoved[j] <= unmoved[i]
    ensures book.comp == NewMap(newMid, book.config.tickSize)
    ensures book.Valid() && book.live == old(book.live)
  {
    hide Advancing, Moving, Outside, SlotOf, Regular, NewMap, Shaped;
    hide Orderbook.Valid;
    ghost var whole, was := book.live, book.comp;
    TriggerRecenter(book, newMid);
    FrontierStarts(book, whole, was, newMid);
    FrontierRange(book, whole);
    unmoved := [book.left.Keys];
    ghost var bids, asks := book.bidOcc, book.askOcc;
    for i := 0 to |script|
      invariant book.bidOcc == bids && book.askOcc == asks && book.comp == NewMap(newMid, book.config.tickSize)
      invariant |unmoved| == i + 1 && unmoved[i] == book.left.Keys
      invariant forall k, l | 0 <= k <= l < |unmoved| :: unmoved[l] <= unmoved[k]
      invariant book.state == Migrating ==> Advancing(book, whole)
      invariant book.state == Normal ==> book.Valid() && book.live == whole && book.left == map[]
    {
      Advance(book, script[i], whole);
      unmoved := unmoved + [book.left.Keys];
    }
    if book.state == Migrating { MigrateInBatches(book, batchSize, whole); }
  }
}
