/** Facts about the parts of a book that its operations compose. */
module BookFacts {
  import opened Types
  import opened Compression
  import opened Arena
  import opened PriceTime
  import opened Levels
  import opened Arrangement

  /** The orders are told apart by stamps already issued, and priced on the grid. */
  ghost predicate Recorded(book: Book, tick: int, sequence: nat) {
    && tick >= 1
    && Stamped(book)
    && (forall h | h in book :: book[h].stamp <= sequence)
    && Priced(book, tick)
  }

  predicate Settled(comp: CompressionMap, tick: int, priceAsc: seq<(nat, nat)>) {
    Regular(comp) && comp.tick == tick && priceAsc == PriceAsc(comp)
  }

  /** Handles in use are the resting orders; all other slots are inactive. */
  ghost predicate Owned(slots: seq<OrderSlot>, bumpNext: nat, free: seq<nat>, book: Book, left: Book) {
    && (forall h: nat :: h in book || h in left <==> h < bumpNext && h !in free)
    && (forall h {:trigger slots[h]} | 0 <= h < |slots| && h !in book && h !in left :: !slots[h].active)
    && (forall h | h in book :: h !in left)
  }

  lemma RecordedPrices(book: Book, tick: int, sequence: nat)
    requires Recorded(book, tick, sequence)
    ensures tick >= 1 && Priced(book, tick)
  {
  }

  /** What a walk from a level's head relies on at every step. */
  ghost predicate Walkable(slots: seq<OrderSlot>, book: Book, q: seq<nat>) {
    && |slots| <= NONE
    && forall i {:trigger q[i]} | 0 <= i < |q| ::
         && q[i] < |slots| && q[i] in book
         && slots[q[i]].next == NextOf(q, i)
         && Stores(slots[q[i]], book[q[i]], slots[q[i]].tick)
  }

  lemma LevelWalk(
    slots: seq<OrderSlot>, book: Book, comp: CompressionMap, levels: seq<PriceLevel>, queues: seq<seq<nat>>, t: nat)
    requires Arranged(slots, book, comp, levels, queues) && t < |queues| && |slots| <= NONE
    ensures |levels| == |queues| && levels[t].head == HeadOf(queues[t]) && Distinct(queues[t])
    ensures Walkable(slots, book, queues[t]) && forall h | h in queues[t] :: h in book
  {
    hide Arranged, PriceToIndex, Counts, Fifo;
    ArrangedLevel(slots, book, comp, levels, queues, t);
  }

  lemma WalkStep(slots: seq<OrderSlot>, book: Book, q: seq<nat>, i: nat)
    requires Walkable(slots, book, q) && i <= |q| && HeadOf(q[i..]) != NONE
    ensures i < |q| && q[i] < |slots| && HeadOf(q[i..]) == q[i] && q[i] in book
    ensures slots[q[i]].next == HeadOf(q[i + 1..])
    ensures Stores(slots[q[i]], book[q[i]], slots[q[i]].tick)
  {
  }

  lemma WalkEnd(slots: seq<OrderSlot>, book: Book, q: seq<nat>, i: nat)
    requires Walkable(slots, book, q) && i <= |q| && HeadOf(q[i..]) == NONE
    ensures i == |q|
  {
    assert forall j | 0 <= j < |q| :: q[j] < |slots|;
  }

  /** The running answer after `i` orders of a queue. */
  ghost predicate TopUpTo(book: Book, q: seq<nat>, i: nat, side: Side, px: int, qty: int) {
    && i <= |q|
    && (forall h | h in q :: h in book)
    && TopSoFar(book, q[..i], side, px, qty)
  }

  lemma TopStart(book: Book, q: seq<nat>, side: Side)
    requires forall h | h in q :: h in book
    ensures TopUpTo(book, q, 0, side, Worst(side), 0)
  {
  }

  lemma TopAdvance(slots: seq<OrderSlot>, book: Book, q: seq<nat>, i: nat, side: Side, px: int, qty: int, tick: int)
    requires TopUpTo(book, q, i, side, px, qty) && i < |q| && tick >= 1 && Priced(book, tick)
    requires q[i] < |slots| && Stores(slots[q[i]], book[q[i]], slots[q[i]].tick)
    ensures var slot := slots[q[i]];
            var better := slot.side == side && Key(side, slot.price) < Key(side, px);
            var same := slot.side == side && slot.price == px;
            TopUpTo(book, q, i + 1, side, if better then slot.price else px,
                    if better then slot.remaining else if same then qty + slot.remaining else qty)
  {
    hide TopSoFar;
    TopStep(book, q[..i], side, px, qty, q[i]);
    assert q[..i] + [q[i]] == q[..i + 1];
  }

  lemma TopEnd(
    slots: seq<OrderSlot>, book: Book, comp: CompressionMap, levels: seq<PriceLevel>, queues: seq<seq<nat>>, t: nat,
    side: Side, px: int, qty: int)
    requires Arranged(slots, book, comp, levels, queues) && t < |queues| && |levels| == |queues|
    requires SideCount(levels[t], side) > 0 && TopUpTo(book, queues[t], |queues[t]|, side, px, qty)
    ensures forall h | h in queues[t] :: h in book
    ensures TopOf(book, queues[t], side, px) && qty == Tally(QuantityAt(side, px), book, queues[t])
  {
    hide Arranged, PriceToIndex, Linked, Fifo;
    ArrangedLevel(slots, book, comp, levels, queues, t);
    TallyWitness(side, book, queues[t]);
    assert queues[t][..|queues[t]|] == queues[t];
  }

  function BlankLevels(n: nat): seq<PriceLevel> { seq(n, _ => DEFAULT_LEVEL) }

  ghost function BlankQueues(n: nat): seq<seq<nat>> { seq(n, _ => []) }

  /** An array of default levels holds nothing. */
  lemma EmptyArray(slots: seq<OrderSlot>, comp: CompressionMap)
    requires Regular(comp)
    ensures Shaped(comp)
    ensures var total := TotalSlots(comp);
            && Arranged(slots, map[], comp, BlankLevels(total), BlankQueues(total))
            && |BlankLevels(total)| == total
            && Marked(BlankLevels(total), Buy, {}) && Marked(BlankLevels(total), Sell, {})
  {
    forall t: nat | t < TotalSlots(comp) ensures LevelOk(slots, map[], comp, t, DEFAULT_LEVEL, []) {
      EmptyLevelOk(slots, map[], comp, t);
    }
  }

  lemma EmptyBook(slots: seq<OrderSlot>, comp: CompressionMap, tick: int)
    requires Shaped(comp) && tick >= 1 && forall h | 0 <= h < |slots| :: slots[h] == DEFAULT_SLOT
    ensures Recorded(map[], tick, 0) && Owned(slots, 0, [], map[], map[])
    ensures BestOk(map[], comp, Buy, NONE, 0) && BestOk(map[], comp, Sell, NONE, 0)
    ensures Positive(map[]) && Uncrossed(map[])
  {
  }

  lemma MarkedBelow(levels: seq<PriceLevel>, side: Side, members: set<nat>)
    requires Marked(levels, side, members)
    ensures forall m | m in members :: m < |levels|
  {
  }

  lemma SlotsBelowNone(
    slots: seq<OrderSlot>, book: Book, comp: CompressionMap, levels: seq<PriceLevel>, queues: seq<seq<nat>>)
    requires Arranged(slots, book, comp, levels, queues) && Regular(comp)
    ensures |levels| == |queues| == TotalSlots(comp) < NONE
  {
    hide LevelOk, PriceToIndex;
  }

  // ---------------------------------------------------------------------
  // Bookkeeping facts that insertions and removals keep.

  lemma RecordedInsert(book: Book, tick: int, sequence: nat, h: nat, o: Order)
    requires Recorded(book, tick, sequence) && h !in book && o.stamp <= sequence
    requires forall g | g in book :: book[g].stamp != o.stamp
    requires 0 < o.price <= I64_MAX && o.price % tick == 0
    ensures Recorded(book[h := o], tick, sequence)
  {
  }

  lemma RecordedRemove(book: Book, tick: int, sequence: nat, h: nat)
    requires Recorded(book, tick, sequence)
    ensures Recorded(book - {h}, tick, sequence)
  {
  }

  lemma RecordedRequantify(book: Book, tick: int, sequence: nat, h: nat, qty: int)
    requires Recorded(book, tick, sequence) && h in book
    ensures Recorded(book[h := book[h].(qty := qty)], tick, sequence)
  {
  }

  lemma RecordedLater(book: Book, tick: int, sequence: nat, later: nat)
    requires Recorded(book, tick, sequence) && sequence <= later
    ensures Recorded(book, tick, later)
    ensures forall h | h in book && sequence < later :: book[h].stamp < later
  {
  }

  lemma OwnedDisjoint(slots: seq<OrderSlot>, bumpNext: nat, free: seq<nat>, book: Book, left: Book)
    requires Owned(slots, bumpNext, free, book, left)
    ensures forall h | h in book || h in left :: h < bumpNext && h !in free
    ensures forall h | h in book :: h !in left
  {
  }

  lemma UncrossedInsert(book: Book, h: nat, o: Order)
    requires Uncrossed(book) && h !in book && forall g | g in book :: !Crosses(book[g], o.side, o.price)
    ensures Uncrossed(book[h := o])
  {
  }

  lemma UncrossedRemove(book: Book, h: nat)
    requires Uncrossed(book)
    ensures Uncrossed(book - {h})
  {
  }

  lemma PositiveRemove(book: Book, h: nat)
    requires Positive(book)
    ensures Positive(book - {h})
  {
  }

  /** A user seen for the first time starts flat. */
  function Assigned(users: map<nat, int>, user: nat): map<nat, int> {
    if user in users then users else users[user := 0]
  }

  /** The taker moves in the direction of its side, the maker the other way. */
  function ApplyFill(users: map<nat, int>, taker: nat, maker: nat, side: Side, qty: int): map<nat, int> {
    var delta := if side == Buy then qty else -qty;
    var u := Assigned(users, taker);
    var v := Assigned(u[taker := u[taker] + delta], maker);
    v[maker := v[maker] - delta]
  }

  /** The order is stored at `h`, new to the book, and last of its side and price. */
  ghost predicate Linkable(
    slots: seq<OrderSlot>, free: seq<nat>, book: Book, comp: CompressionMap, sequence: nat, h: nat, o: Order)
    requires Shaped(comp)
  {
    && h < |slots| && h !in book && h !in free && (forall g | g in book :: g !in free)
    && Stores(slots[h], o, PriceToIndex(comp, o.price))
    && o.stamp <= sequence && (forall g | g in book :: book[g].stamp != o.stamp)
    && 0 < o.price <= I64_MAX && o.price % comp.tick == 0
    && forall g | g in book && book[g].side == o.side && book[g].price == o.price :: book[g].stamp < o.stamp
  }

  /** Everything a link at the tail does to the array. */
  lemma LinkFacts(
    slots: seq<OrderSlot>, free: seq<nat>, book: Book, comp: CompressionMap, levels: seq<PriceLevel>,
    queues: seq<seq<nat>>, sequence: nat, h: nat, o: Order)
    requires Regular(comp) && Arranged(slots, book, comp, levels, queues)
    requires Recorded(book, comp.tick, sequence) && Linkable(slots, free, book, comp, sequence, h, o)
    ensures var t := PriceToIndex(comp, o.price);
            && 0 <= t < |queues| && |levels| == |queues| && t < NONE && h < |slots| && h !in book
            && slots[h].tick == t && slots[h].price == o.price && slots[h].side == o.side && slots[h].remaining == o.qty
            && (levels[t].orderCount > 0 ==> levels[t].tail < |slots|)
            && Arranged(AppendSlots(slots, levels[t], h), book[h := o], comp,
                        levels[t := AppendLevel(levels[t], h, o.qty, o.side)], queues[t := queues[t] + [h]])
            && Recorded(book[h := o], comp.tick, sequence)
            && LinksOnly(slots, AppendSlots(slots, levels[t], h), book, h)
            && forall g | g in free && g < |slots| :: AppendSlots(slots, levels[t], h)[g].next == slots[g].next
  {
    hide Arranged, Regular, PriceToIndex, Recorded, AppendSlots, Stores;
    RegularShaped(comp);
    BandOfIndex(comp, o.price);
    SlotsBelowNone(slots, book, comp, levels, queues);
    var t := PriceToIndex(comp, o.price);
    StoredFields(slots[h], o, t);
    InsertArranged(slots, book, comp, levels, queues, h, o);
    AppendKeepsRest(slots, levels[t], h);
    AppendFrame(slots, levels[t], h);
    RecordedInsert(book, comp.tick, sequence, h, o);
  }

  /** Only links changed, and only of `h` and orders of the book. */
  ghost predicate LinksOnly(slots: seq<OrderSlot>, slots': seq<OrderSlot>, book: Book, h: nat) {
    && SameButLinks(slots, slots')
    && forall g {:trigger slots'[g]} | 0 <= g < |slots| && g !in book && g != h :: slots'[g] == slots[g]
  }

  lemma LinksOnlyKeeps(slots: seq<OrderSlot>, slots': seq<OrderSlot>, book: Book, h: nat, g: nat)
    requires LinksOnly(slots, slots', book, h) && g < |slots|
    ensures |slots'| == |slots| && slots'[g].original == slots[g].original
  {
  }

  /** Writing a new order into a handle just allocated disturbs nothing and makes it linkable. */
  lemma StoreFacts(
    slots: seq<OrderSlot>, freeHead: nat, bumpNext: nat, free: seq<nat>, book: Book, comp: CompressionMap,
    levels: seq<PriceLevel>, queues: seq<seq<nat>>, sequence: nat, h: nat, slot: OrderSlot, o: Order)
    requires Shaped(comp) && Arranged(slots, book, comp, levels, queues) && Recorded(book, comp.tick, sequence)
    requires SlabOk(slots, freeHead, bumpNext, free)
    requires h < |slots| && h !in book && h !in free && forall g | g in book :: g !in free
    requires o.stamp == sequence + 1 && Stores(slot, o, PriceToIndex(comp, o.price))
    requires 0 < o.price <= I64_MAX && o.price % comp.tick == 0
    ensures Arranged(slots[h := slot], book, comp, levels, queues)
    ensures SlabOk(slots[h := slot], freeHead, bumpNext, free)
    ensures Recorded(book, comp.tick, sequence + 1)
    ensures Linkable(slots[h := slot], free, book, comp, sequence + 1, h, o)
  {
    hide Arranged, Stores, PriceToIndex, SlabOk;
    ArrangedFrame(slots, slots[h := slot], book, comp, levels, queues);
    SlabFrame(slots, slots[h := slot], freeHead, bumpNext, free);
  }

  lemma OwnedInsert(
    slots: seq<OrderSlot>, bumpNext: nat, free: seq<nat>, book: Book, left: Book,
    slots': seq<OrderSlot>, bumpNext': nat, free': seq<nat>, h: nat, o: Order)
    requires Owned(slots, bumpNext, free, book, left) && h !in book && h !in left && |slots| == |slots'|
    requires Taken(bumpNext, free, bumpNext', free', h)
    requires forall g {:trigger slots'[g]} | 0 <= g < |slots| && g !in book && g != h :: slots'[g] == slots[g]
    ensures Owned(slots', bumpNext', free', book[h := o], left)
  {
    var after := book[h := o];
    forall g: nat ensures g in after || g in left <==> g < bumpNext' && g !in free' {
      assert g in after <==> g in book || g == h;
      assert g in book || g in left <==> g < bumpNext && g !in free;
    }
    forall g {:trigger slots'[g]} | 0 <= g < |slots'| && g !in after && g !in left ensures !slots'[g].active {
      assert slots'[g] == slots[g];
    }
  }

  lemma OwnedLink(
    slots: seq<OrderSlot>, bumpNext: nat, free: seq<nat>, book: Book, left: Book,
    mid: seq<OrderSlot>, slots': seq<OrderSlot>, bumpNext': nat, free': seq<nat>, h: nat, o: Order)
    requires Owned(slots, bumpNext, free, book, left) && h !in book && h !in left
    requires |slots| == |mid| && forall g | 0 <= g < |slots| && g != h :: mid[g] == slots[g]
    requires LinksOnly(mid, slots', book, h)
    requires Taken(bumpNext, free, bumpNext', free', h)
    ensures Owned(slots', bumpNext', free', book[h := o], left)
  {
    OwnedInsert(slots, bumpNext, free, book, left, slots', bumpNext', free', h, o);
  }

  lemma PositiveAt(book: Book, h: nat)
    requires Positive(book) && h in book
    ensures book[h].qty > 0
  {
  }

  lemma PositiveInsert(book: Book, h: nat, o: Order)
    requires Positive(book) && o.qty > 0
    ensures Positive(book[h := o])
  {
  }

  lemma LinkableFields(
    slots: seq<OrderSlot>, free: seq<nat>, book: Book, comp: CompressionMap, sequence: nat, h: nat, o: Order)
    requires Shaped(comp) && Linkable(slots, free, book, comp, sequence, h, o)
    ensures h < |slots| && h !in book && slots[h].tick == PriceToIndex(comp, o.price)
  {
    hide PriceToIndex;
  }

  /** Everything an unlink does to the array. */
  lemma UnlinkFacts(
    slots: seq<OrderSlot>, free: seq<nat>, book: Book, comp: CompressionMap, levels: seq<PriceLevel>,
    queues: seq<seq<nat>>, sequence: nat, h: nat)
    requires Regular(comp) && Arranged(slots, book, comp, levels, queues) && |slots| <= NONE
    requires Recorded(book, comp.tick, sequence) && h in book && forall g | g in book :: g !in free
    ensures var t := PriceToIndex(comp, book[h].price);
            && 0 <= t < |queues| && |levels| == |queues| && h < |slots| && h in queues[t]
            && Stores(slots[h], book[h], t)
            && SideCount(levels[t], slots[h].side) > 0
            && (slots[h].prev != NONE ==> slots[h].prev < |slots|)
            && (slots[h].next != NONE ==> slots[h].next < |slots|)
            && Arranged(UnlinkSlots(slots, h), book - {h}, comp,
                        levels[t := UnlinkLevel(levels[t], slots[h])], queues[t := Removed(queues[t], h)])
            && Recorded(book - {h}, comp.tick, sequence)
            && LinksOnly(slots, UnlinkSlots(slots, h), book, h)
            && forall g | g in free && g < |slots| :: UnlinkSlots(slots, h)[g].next == slots[g].next
  {
    hide Arranged, Regular, PriceToIndex, Recorded, UnlinkSlots, Stores, Removed;
    RegularShaped(comp);
    SlotsBelowNone(slots, book, comp, levels, queues);
    ArrangedOrder(slots, book, comp, levels, queues, h);
    var t := PriceToIndex(comp, book[h].price);
    StoredFields(slots[h], book[h], t);
    SideIsCounted(slots, book, comp, levels, queues, h);
    RemoveArranged(slots, book, comp, levels, queues, h);
    UnlinkKeepsRest(slots, h);
    UnlinkFrame(slots, h);
    RecordedRemove(book, comp.tick, sequence, h);
  }

  lemma SideIsCounted(
    slots: seq<OrderSlot>, book: Book, comp: CompressionMap, levels: seq<PriceLevel>, queues: seq<seq<nat>>, h: nat)
    requires Arranged(slots, book, comp, levels, queues) && h in book
    ensures var t := PriceToIndex(comp, book[h].price);
            0 <= t < |levels| && SideCount(levels[t], book[h].side) > 0
  {
    hide Arranged, PriceToIndex, Linked, Fifo, Stores;
    ArrangedOrder(slots, book, comp, levels, queues, h);
    var t := PriceToIndex(comp, book[h].price);
    ArrangedLevel(slots, book, comp, levels, queues, t);
    TallyAtLeastOne(book[h].side, book, queues[t], h);
  }

  lemma OwnedRemove(
    slots: seq<OrderSlot>, bumpNext: nat, free: seq<nat>, book: Book, left: Book,
    slots': seq<OrderSlot>, free': seq<nat>, h: nat)
    requires Owned(slots, bumpNext, free, book, left) && h in book && |slots| == |slots'|
    requires free' == [h] + free && h < |slots| && !slots'[h].active
    requires forall g {:trigger slots'[g]} | 0 <= g < |slots| && g !in book :: slots'[g] == slots[g]
    ensures Owned(slots', bumpNext, free', book - {h}, left)
  {
  }

  lemma OwnedUnlink(
    slots: seq<OrderSlot>, bumpNext: nat, free: seq<nat>, book: Book, left: Book,
    mid: seq<OrderSlot>, slots': seq<OrderSlot>, free': seq<nat>, h: nat)
    requires Owned(slots, bumpNext, free, book, left) && h in book && LinksOnly(slots, mid, book, h)
    requires |mid| == |slots'| && free' == [h] + free && h < |slots| && !slots'[h].active
    requires forall g | 0 <= g < |mid| && g != h :: slots'[g] == mid[g]
    ensures Owned(slots', bumpNext, free', book - {h}, left)
  {
    OwnedRemove(slots, bumpNext, free, book, left, slots', free', h);
  }

  lemma ReleaseFacts(
    slots: seq<OrderSlot>, freeHead: nat, bumpNext: nat, free: seq<nat>, book: Book, comp: CompressionMap,
    levels: seq<PriceLevel>, queues: seq<seq<nat>>, h: nat)
    requires Arranged(slots, book, comp, levels, queues) && SlabOk(slots, freeHead, bumpNext, free)
    requires h < bumpNext && h !in free && h !in book
    ensures h < |slots|
    ensures SlabOk(slots[h := slots[h].(active := false)], freeHead, bumpNext, free)
    ensures Arranged(slots[h := slots[h].(active := false, next := freeHead)], book, comp, levels, queues)
  {
    hide Arranged;
    SlabFrame(slots, slots[h := slots[h].(active := false)], freeHead, bumpNext, free);
    ArrangedFrame(slots, slots[h := slots[h].(active := false, next := freeHead)], book, comp, levels, queues);
  }

  /** The slot says whether the handle names a resting order. */
  lemma ActiveIsLive(
    slots: seq<OrderSlot>, bumpNext: nat, free: seq<nat>, book: Book, comp: CompressionMap,
    levels: seq<PriceLevel>, queues: seq<seq<nat>>, h: nat)
    requires Arranged(slots, book, comp, levels, queues) && Owned(slots, bumpNext, free, book, map[]) && h < |slots|
    ensures slots[h].active <==> h in book
    ensures h in book ==> Shaped(comp) && Stores(slots[h], book[h], PriceToIndex(comp, book[h].price))
  {
    hide Arranged, PriceToIndex;
    if h in book { ArrangedOrder(slots, book, comp, levels, queues, h); }
  }

  lemma FirstIsMarked(levels: seq<PriceLevel>, comp: CompressionMap, side: Side, members: set<nat>, t: nat)
    requires Shaped(comp) && Marked(levels, side, members) && FirstOnWalk(comp, side, members, t)
    ensures t < |levels| && SideCount(levels[t], side) > 0
  {
  }

  lemma StoredFields(slot: OrderSlot, o: Order, tick: int)
    requires Stores(slot, o, tick)
    ensures slot.tick == tick && slot.price == o.price && slot.side == o.side && slot.remaining == o.qty
    ensures slot.original == o.original && slot.user == o.user && slot.id == o.id && slot.active
    ensures slot.tif == o.tif && slot.reduceOnly == o.reduceOnly
  {
  }

  // ---------------------------------------------------------------------
  // Identity checks and quantity reductions.

  /** The order named by user and id rests at the handle. */
  predicate Named(book: Book, handle: nat, user: nat, id: OrderId) {
    handle in book && book[handle].user == user && book[handle].id == id
  }

  lemma RequantifyFacts(
    slots: seq<OrderSlot>, freeHead: nat, bumpNext: nat, free: seq<nat>, book: Book, comp: CompressionMap,
    levels: seq<PriceLevel>, queues: seq<seq<nat>>, sequence: nat, h: nat, qty: int)
    requires Arranged(slots, book, comp, levels, queues) && Recorded(book, comp.tick, sequence) && h in book
    requires SlabOk(slots, freeHead, bumpNext, free)
    ensures var t := PriceToIndex(comp, book[h].price);
            && 0 <= t < |queues| && |levels| == |queues| && h < |slots| && Stores(slots[h], book[h], t)
            && Arranged(slots[h := slots[h].(remaining := qty)], book[h := book[h].(qty := qty)], comp,
                        levels[t := levels[t].(totalQty := levels[t].totalQty - (slots[h].remaining - qty))], queues)
            && SlabOk(slots[h := slots[h].(remaining := qty)], freeHead, bumpNext, free)
    ensures Recorded(book[h := book[h].(qty := qty)], comp.tick, sequence)
  {
    hide Arranged, PriceToIndex, Recorded;
    ArrangedOrder(slots, book, comp, levels, queues, h);
    RequantifyArranged(slots, book, comp, levels, queues, h, qty);
    RecordedRequantify(book, comp.tick, sequence, h, qty);
    SlabFrame(slots, slots[h := slots[h].(remaining := qty)], freeHead, bumpNext, free);
  }

  lemma MarkRequantify(levels: seq<PriceLevel>, side: Side, members: set<nat>, t: nat, total: int)
    requires Marked(levels, side, members) && t < |levels|
    ensures Marked(levels[t := levels[t].(totalQty := total)], side, members)
  {
  }

  lemma OwnedRequantify(
    slots: seq<OrderSlot>, bumpNext: nat, free: seq<nat>, book: Book, left: Book, h: nat, qty: int)
    requires Owned(slots, bumpNext, free, book, left) && h in book && h < |slots|
    ensures Owned(slots[h := slots[h].(remaining := qty)], bumpNext, free, book[h := book[h].(qty := qty)], left)
  {
  }

  lemma UncrossedRequantify(book: Book, h: nat, qty: int)
    requires Uncrossed(book) && h in book
    ensures Uncrossed(book[h := book[h].(qty := qty)])
  {
  }

  // ---------------------------------------------------------------------
  // Quantity at a price, over the whole side.

  ghost function WeightMap(m: Measure, book: Book): Fills {
    map h | h in book && Weight(m, book[h]) != 0 :: Weight(m, book[h])
  }

  lemma {:induction false} TallyIsTotal(m: Measure, book: Book, q: seq<nat>)
    requires forall h | h in q :: h in book
    ensures Tally(m, book, q) == Total(WeightMap(m, book), q)
  {
    if q != [] { TallyIsTotal(m, book, q[1..]); }
  }

  /** A sum only depends on the orders that weigh anything. */
  lemma TallyReorder(m: Measure, book: Book, p: seq<nat>, q: seq<nat>)
    requires Distinct(p) && Distinct(q) && (forall h | h in p || h in q :: h in book)
    requires forall h | h in book && Weight(m, book[h]) != 0 :: h in p && h in q
    ensures Tally(m, book, p) == Tally(m, book, q)
  {
    TallyIsTotal(m, book, p);
    TallyIsTotal(m, book, q);
    TotalReorder(WeightMap(m, book), p, q);
  }

  /** The quantity resting on one side at one price. */
  ghost function RestingAt(book: Book, side: Side, price: int): int
    requires Stamped(book)
  {
    Tally(QuantityAt(side, price), book, Ladder(book, side))
  }

  lemma SlotHoldsPrice(
    slots: seq<OrderSlot>, book: Book, comp: CompressionMap, levels: seq<PriceLevel>, queues: seq<seq<nat>>,
    side: Side, price: int)
    requires Arranged(slots, book, comp, levels, queues) && Stamped(book)
    requires 0 <= PriceToIndex(comp, price) < |queues|
    ensures forall h | h in queues[PriceToIndex(comp, price)] :: h in book
    ensures Tally(QuantityAt(side, price), book, queues[PriceToIndex(comp, price)]) == RestingAt(book, side, price)
  {
    hide Arranged, PriceToIndex, Linked, Counts, Fifo, Tally, Stamped, Ladder;
    ArrangedShaped(slots, book, comp, levels, queues);
    var t := PriceToIndex(comp, price);
    ArrangedLevel(slots, book, comp, levels, queues, t);
    LadderOrdered(book, side);
    forall h | h in book && Weight(QuantityAt(side, price), book[h]) != 0
      ensures h in queues[t] && h in Ladder(book, side)
    {
      ArrangedOrder(slots, book, comp, levels, queues, h);
    }
    TallyReorder(QuantityAt(side, price), book, queues[t], Ladder(book, side));
  }

  lemma LadderEmpty(book: Book, side: Side)
    requires Stamped(book)
    ensures Ladder(book, side) == [] || exists h :: h in book && book[h].side == side
  {
    var q := Ladder(book, side);
    if q != [] { assert q[0] in q; }
  }

  lemma NothingResting(book: Book, comp: CompressionMap, side: Side, px: int)
    requires Shaped(comp) && Stamped(book) && BestOk(book, comp, side, NONE, px)
    ensures px == 0 && RestingAt(book, side, 0) == 0
  {
    LadderEmpty(book, side);
  }

  lemma NamedIsLive(book: Book, handle: nat, user: nat, id: OrderId)
    requires Named(book, handle, user, id)
    ensures handle in book
  {
  }

  /** The best price of the best slot is the best price. */
  lemma TopIsBest(
    slots: seq<OrderSlot>, book: Book, comp: CompressionMap, levels: seq<PriceLevel>, queues: seq<seq<nat>>,
    side: Side, tick: nat, best: int, px: int)
    requires Arranged(slots, book, comp, levels, queues) && BestOk(book, comp, side, tick, best) && tick < |queues|
    requires tick != NONE && (forall h | h in queues[tick] :: h in book) && TopOf(book, queues[tick], side, px)
    ensures px == best
  {
    hide Arranged, PriceToIndex, Stores;
    var g :| g in book && book[g].side == side && book[g].price == best;
    ArrangedOrder(slots, book, comp, levels, queues, g);
  }

  // ---------------------------------------------------------------------
  // Recounting.

  ghost function CountUpTo(book: Book, q: seq<nat>, i: nat, side: Side): int
    requires i <= |q| && forall h | h in q :: h in book
  {
    Tally(OnSide(side), book, q[..i])
  }

  lemma CountStart(book: Book, q: seq<nat>)
    requires forall h | h in q :: h in book
    ensures CountUpTo(book, q, 0, Buy) == 0 && CountUpTo(book, q, 0, Sell) == 0
  {
  }

  lemma CountStep(book: Book, q: seq<nat>, i: nat)
    requires i < |q| && forall h | h in q :: h in book
    ensures forall side :: CountUpTo(book, q, i + 1, side)
                           == CountUpTo(book, q, i, side) + (if book[q[i]].side == side then 1 else 0)
  {
    forall side ensures CountUpTo(book, q, i + 1, side)
                        == CountUpTo(book, q, i, side) + (if book[q[i]].side == side then 1 else 0)
    {
      assert q[..i + 1] == q[..i] + [q[i]];
      TallyAppend(OnSide(side), book, q[..i], [q[i]]);
    }
  }

  lemma CountEnd(
    slots: seq<OrderSlot>, book: Book, comp: CompressionMap, levels: seq<PriceLevel>, queues: seq<seq<nat>>, t: nat)
    requires Arranged(slots, book, comp, levels, queues) && t < |queues| && |levels| == |queues|
    ensures forall h | h in queues[t] :: h in book
    ensures CountUpTo(book, queues[t], |queues[t]|, Buy) == levels[t].bidCount
    ensures CountUpTo(book, queues[t], |queues[t]|, Sell) == levels[t].askCount
  {
    hide Arranged, PriceToIndex, Linked, Fifo, Tally;
    ArrangedLevel(slots, book, comp, levels, queues, t);
    assert queues[t][..|queues[t]|] == queues[t];
  }

  /** `Marked`, for the first `i` levels. */
  ghost predicate MarkedUpTo(levels: seq<PriceLevel>, i: nat, side: Side, members: set<nat>) {
    forall t: nat :: t in members <==> t < i && t < |levels| && SideCount(levels[t], side) > 0
  }

  lemma MarkedStart(levels: seq<PriceLevel>, side: Side)
    ensures MarkedUpTo(levels, 0, side, {})
  {
  }

  lemma MarkedNext(levels: seq<PriceLevel>, i: nat, side: Side, members: set<nat>)
    requires MarkedUpTo(levels, i, side, members) && i < |levels|
    ensures (if side == Buy then levels[i].bidCount else levels[i].askCount) > 0
            ==> MarkedUpTo(levels, i + 1, side, members + {i})
    ensures (if side == Buy then levels[i].bidCount else levels[i].askCount) == 0
            ==> MarkedUpTo(levels, i + 1, side, members)
  {
  }

  lemma MarkedEnd(levels: seq<PriceLevel>, side: Side, members: set<nat>, before: set<nat>)
    requires MarkedUpTo(levels, |levels|, side, members) && Marked(levels, side, before)
    ensures members == before && Marked(levels, side, members)
  {
  }

  lemma {:induction false} PartitionCount(live: set<nat>, free: seq<nat>, n: nat)
    requires Distinct(free) && (forall h | h in free :: h < n)
    requires forall h: nat :: h in live <==> h < n && h !in free
    ensures |live| + |free| == n
    decreases |free|
  {
    if free == [] {
      CountBelow(live, n);
    } else {
      var h := free[0];
      TailDistinct(free);
      PartitionCount(live + {h}, free[1..], n);
    }
  }

  lemma {:induction false} CountBelow(hs: set<nat>, n: nat)
    requires forall h: nat :: h in hs <==> h < n
    ensures |hs| == n
  {
    if n > 0 {
      CountBelow(hs - {n - 1}, n - 1);
    } else {
      assert hs == {};
    }
  }

  /** Allocated handles are free or live, never both, and the counts add up. */
  lemma OwnedCount(slots: seq<OrderSlot>, freeHead: nat, bumpNext: nat, free: seq<nat>, book: Book, left: Book)
    requires SlabOk(slots, freeHead, bumpNext, free) && Owned(slots, bumpNext, free, book, left) && left == map[]
    ensures forall h: nat | h < bumpNext :: h in book <==> h !in free
    ensures forall h | h in book || h in free :: h < bumpNext
    ensures |book| + |free| == bumpNext <= |slots|
    ensures freeHead == NONE <==> free == []
  {
    PartitionCount(book.Keys, free, bumpNext);
    assert |book.Keys| == |book|;
    if free != [] { assert free[0] in free; }
  }
}
