/** Price levels: intrusive queues of slab handles with running totals. */
module Levels {
  import opened Types
  import opened Compression
  import opened Arena
  import opened PriceTime

  /** A quantity summed over the orders of a queue. */
  datatype Measure =
    | Quantity
    | OnSide(side: Side)
    | QuantityAt(side: Side, price: int)
    | CrossQty(taker: Side, limit: int)
    | CrossCount(taker: Side, limit: int)

  function Weight(m: Measure, o: Order): int {
    match m
    case Quantity => o.qty
    case OnSide(s) => if o.side == s then 1 else 0
    case QuantityAt(s, p) => if o.side == s && o.price == p then o.qty else 0
    case CrossQty(taker, limit) => if Crosses(o, taker, limit) then o.qty else 0
    case CrossCount(taker, limit) => if Crosses(o, taker, limit) then 1 else 0
  }

  function Tally(m: Measure, book: Book, q: seq<nat>): int
    requires forall h | h in q :: h in book
  {
    if q == [] then 0 else Weight(m, book[q[0]]) + Tally(m, book, q[1..])
  }

  lemma {:induction false} TallyAppend(m: Measure, book: Book, p: seq<nat>, q: seq<nat>)
    requires forall h | h in p || h in q :: h in book
    ensures Tally(m, book, p + q) == Tally(m, book, p) + Tally(m, book, q)
  {
    if p == [] {
      assert p + q == q;
    } else {
      assert (p + q)[1..] == p[1..] + q;
      TallyAppend(m, book, p[1..], q);
    }
  }

  lemma {:induction false} TallySame(m: Measure, book: Book, after: Book, q: seq<nat>)
    requires forall h | h in q :: h in book && h in after && book[h] == after[h]
    ensures Tally(m, book, q) == Tally(m, after, q)
  {
    if q != [] { TallySame(m, book, after, q[1..]); }
  }

  function Without(q: seq<nat>, k: nat): seq<nat>
    requires k < |q|
  {
    q[..k] + q[k + 1..]
  }

  lemma TallyWithout(m: Measure, book: Book, q: seq<nat>, k: nat)
    requires k < |q| && forall h | h in q :: h in book
    ensures forall h | h in Without(q, k) :: h in book
    ensures Tally(m, book, q) == Tally(m, book, Without(q, k)) + Weight(m, book[q[k]])
  {
    var p, r := q[..k], q[k + 1..];
    assert q == p + ([q[k]] + r);
    TallyAppend(m, book, p, [q[k]] + r);
    assert Tally(m, book, [q[k]] + r) == Weight(m, book[q[k]]) + Tally(m, book, r) by {
      assert ([q[k]] + r)[1..] == r;
    }
    TallyAppend(m, book, p, r);
  }

  lemma TallyUpdate(m: Measure, book: Book, q: seq<nat>, h: nat, o: Order)
    requires Distinct(q) && h in q && forall g | g in q :: g in book
    ensures Tally(m, book[h := o], q) == Tally(m, book, q) - Weight(m, book[h]) + Weight(m, o)
  {
    var k :| 0 <= k < |q| && q[k] == h;
    var after := book[h := o];
    TallyWithout(m, book, q, k);
    TallyWithout(m, after, q, k);
    forall g | g in Without(q, k) ensures g != h {
      WithoutMembers(q, k);
    }
    TallySame(m, book, after, Without(q, k));
  }

  lemma WithoutMembers(q: seq<nat>, k: nat)
    requires k < |q| && Distinct(q)
    ensures Distinct(Without(q, k))
    ensures forall h :: h in Without(q, k) <==> h in q && h != q[k]
  {
    var w := Without(q, k);
    forall i | 0 <= i < |w| ensures w[i] == q[if i < k then i else i + 1] { }
    forall h | h in q && h != q[k] ensures h in w {
      var i :| 0 <= i < |q| && q[i] == h;
      assert w[if i < k then i else i - 1] == h;
    }
  }

  // ---------------------------------------------------------------------
  // One level.

  /** The slot holds the order, filed under slot index `tick`. */
  predicate Stores(slot: OrderSlot, o: Order, tick: int) {
    && slot.price == o.price && slot.remaining == o.qty && slot.original == o.original
    && slot.side == o.side && slot.tif == o.tif && slot.reduceOnly == o.reduceOnly
    && slot.user == o.user && slot.id == o.id && slot.sequence == o.stamp % U32_MODULUS
    && slot.active && slot.tick == tick
  }

  function PrevOf(q: seq<nat>, i: nat): nat
    requires i < |q|
  {
    if i > 0 then q[i - 1] else NONE
  }

  function LastOf(q: seq<nat>): nat {
    if q == [] then NONE else q[|q| - 1]
  }

  /** Forward and backward links describe the one queue `q`. */
  predicate Linked(slots: seq<OrderSlot>, lvl: PriceLevel, q: seq<nat>) {
    && Chain(slots, lvl.head, q)
    && lvl.tail == LastOf(q)
    && forall i {:trigger slots[q[i]]} | 0 <= i < |q| :: slots[q[i]].prev == PrevOf(q, i)
  }

  predicate Counts(book: Book, lvl: PriceLevel, q: seq<nat>)
    requires forall h | h in q :: h in book
  {
    && lvl.orderCount == |q|
    && lvl.totalQty == Tally(Quantity, book, q)
    && lvl.bidCount == Tally(OnSide(Buy), book, q)
    && lvl.askCount == Tally(OnSide(Sell), book, q)
  }

  /** Within one side and price the queue is in arrival order. */
  predicate Fifo(book: Book, q: seq<nat>)
    requires forall h | h in q :: h in book
  {
    forall i, j | 0 <= i < j < |q| && book[q[i]].side == book[q[j]].side && book[q[i]].price == book[q[j]].price ::
      book[q[i]].stamp < book[q[j]].stamp
  }

  /** The queue holds distinct orders of this slot, each stored in its slab slot. */
  predicate Filed(slots: seq<OrderSlot>, book: Book, comp: CompressionMap, t: nat, q: seq<nat>)
    requires Shaped(comp)
  {
    && Distinct(q)
    && forall h | h in q ::
         h in book && h < |slots| && PriceToIndex(comp, book[h].price) == t && Stores(slots[h], book[h], t)
  }

  predicate LevelOk(slots: seq<OrderSlot>, book: Book, comp: CompressionMap, t: nat, lvl: PriceLevel, q: seq<nat>)
    requires Shaped(comp)
  {
    Filed(slots, book, comp, t, q) && Linked(slots, lvl, q) && Counts(book, lvl, q) && Fifo(book, q)
  }

  lemma EmptyLevelOk(slots: seq<OrderSlot>, book: Book, comp: CompressionMap, t: nat)
    requires Shaped(comp)
    ensures LevelOk(slots, book, comp, t, DEFAULT_LEVEL, [])
  {
  }

  /** A level only depends on the orders and slots of its own queue. */
  lemma LevelFrame(
    slots: seq<OrderSlot>, book: Book, slots': seq<OrderSlot>, book': Book,
    comp: CompressionMap, t: nat, lvl: PriceLevel, q: seq<nat>)
    requires Shaped(comp) && LevelOk(slots, book, comp, t, lvl, q)
    requires |slots| == |slots'|
    requires forall h | h in q :: h in book' && book'[h] == book[h] && slots'[h] == slots[h]
    ensures LevelOk(slots', book', comp, t, lvl, q)
  {
    hide Stores, PriceToIndex, Distinct;
    TallySame(Quantity, book, book', q);
    TallySame(OnSide(Buy), book, book', q);
    TallySame(OnSide(Sell), book, book', q);
  }

  // ---------------------------------------------------------------------
  // Linking at the tail.

  /** Slots after linking `h` behind the level's tail. */
  function AppendSlots(slots: seq<OrderSlot>, lvl: PriceLevel, h: nat): (r: seq<OrderSlot>)
    requires h < |slots| && (lvl.orderCount > 0 ==> lvl.tail < |slots|)
    ensures |r| == |slots|
  {
    if lvl.orderCount == 0 then
      slots[h := slots[h].(prev := NONE, next := NONE)]
    else
      var linked := slots[lvl.tail := slots[lvl.tail].(next := h)];
      linked[h := linked[h].(prev := lvl.tail, next := NONE)]
  }

  function AppendLevel(lvl: PriceLevel, h: nat, qty: int, side: Side): PriceLevel {
    PriceLevel(
      if lvl.orderCount == 0 then h else lvl.head, h, lvl.totalQty + qty, lvl.orderCount + 1,
      if side == Buy then lvl.bidCount + 1 else lvl.bidCount,
      if side == Sell then lvl.askCount + 1 else lvl.askCount)
  }

  lemma LinkedAppend(slots: seq<OrderSlot>, lvl: PriceLevel, q: seq<nat>, h: nat, qty: int, side: Side)
    requires Linked(slots, lvl, q) && lvl.orderCount == |q| && Distinct(q)
    requires h < |slots| && h !in q
    ensures Linked(AppendSlots(slots, lvl, h), AppendLevel(lvl, h, qty, side), q + [h])
  {
    var after, p := AppendSlots(slots, lvl, h), q + [h];
    forall i | 0 <= i < |p| ensures after[p[i]].next == NextOf(p, i) && after[p[i]].prev == PrevOf(p, i) {
      if i < |q| {
        assert p[i] == q[i];
        assert slots[q[i]].next == NextOf(q, i);
      }
    }
  }

  lemma CountsAppend(book: Book, lvl: PriceLevel, q: seq<nat>, h: nat, o: Order)
    requires (forall g | g in q :: g in book) && Counts(book, lvl, q) && h !in q
    ensures Counts(book[h := o], AppendLevel(lvl, h, o.qty, o.side), q + [h])
  {
    CountAppend(Quantity, book, q, h, o);
    CountAppend(OnSide(Buy), book, q, h, o);
    CountAppend(OnSide(Sell), book, q, h, o);
  }

  lemma CountAppend(m: Measure, book: Book, q: seq<nat>, h: nat, o: Order)
    requires (forall g | g in q :: g in book) && h !in q
    ensures Tally(m, book[h := o], q + [h]) == Tally(m, book, q) + Weight(m, o)
  {
    TallyAppend(m, book[h := o], q, [h]);
    TallySame(m, book, book[h := o], q);
  }

  /** A slot change that touches only the links keeps the orders stored. */
  predicate SameButLinks(slots: seq<OrderSlot>, slots': seq<OrderSlot>) {
    && |slots| == |slots'|
    && forall h {:trigger slots'[h]} | 0 <= h < |slots| ::
         slots'[h] == slots[h].(next := slots'[h].next, prev := slots'[h].prev)
  }

  /** Linking an order at the tail of its slot keeps the level in order. */
  lemma AppendOk(
    slots: seq<OrderSlot>, book: Book, comp: CompressionMap, t: nat, lvl: PriceLevel, q: seq<nat>,
    h: nat, o: Order)
    requires Shaped(comp) && LevelOk(slots, book, comp, t, lvl, q)
    requires h < |slots| && h !in q && Stores(slots[h], o, t) && PriceToIndex(comp, o.price) == t
    requires forall g | g in q && book[g].side == o.side && book[g].price == o.price :: book[g].stamp < o.stamp
    ensures lvl.orderCount > 0 ==> lvl.tail < |slots|
    ensures LevelOk(AppendSlots(slots, lvl, h), book[h := o], comp, t, AppendLevel(lvl, h, o.qty, o.side), q + [h])
  {
    hide PriceToIndex, Tally;
    LinkedAppend(slots, lvl, q, h, o.qty, o.side);
    CountsAppend(book, lvl, q, h, o);
    FifoAppend(book, q, h, o);
    FiledAppend(slots, book, comp, t, lvl, q, h, o);
  }

  lemma FifoAppend(book: Book, q: seq<nat>, h: nat, o: Order)
    requires (forall g | g in q :: g in book) && Fifo(book, q) && h !in q
    requires forall g | g in q && book[g].side == o.side && book[g].price == o.price :: book[g].stamp < o.stamp
    ensures Fifo(book[h := o], q + [h])
  {
    var p, after := q + [h], book[h := o];
    forall i, j | 0 <= i < j < |p| && after[p[i]].side == after[p[j]].side && after[p[i]].price == after[p[j]].price
      ensures after[p[i]].stamp < after[p[j]].stamp
    {
      assert p[i] == q[i] && q[i] in q;
      if j < |q| { assert p[j] == q[j]; }
    }
  }

  lemma AppendKeepsRest(slots: seq<OrderSlot>, lvl: PriceLevel, h: nat)
    requires h < |slots| && (lvl.orderCount > 0 ==> lvl.tail < |slots|)
    ensures SameButLinks(slots, AppendSlots(slots, lvl, h))
  {
  }

  lemma FiledAppend(
    slots: seq<OrderSlot>, book: Book, comp: CompressionMap, t: nat, lvl: PriceLevel, q: seq<nat>,
    h: nat, o: Order)
    requires Shaped(comp) && Filed(slots, book, comp, t, q)
    requires lvl.orderCount > 0 ==> lvl.tail < |slots|
    requires h < |slots| && h !in q && Stores(slots[h], o, t) && PriceToIndex(comp, o.price) == t
    ensures Filed(AppendSlots(slots, lvl, h), book[h := o], comp, t, q + [h])
  {
    hide PriceToIndex, AppendSlots;
    AppendKeepsRest(slots, lvl, h);
    assert forall g | g in q + [h] :: g in q || g == h;
  }

  // ---------------------------------------------------------------------
  // Unlinking.

  function UnlinkSlots(slots: seq<OrderSlot>, h: nat): (r: seq<OrderSlot>)
    requires h < |slots|
    requires slots[h].prev != NONE ==> slots[h].prev < |slots|
    requires slots[h].next != NONE ==> slots[h].next < |slots|
    ensures |r| == |slots|
  {
    var prev, next := slots[h].prev, slots[h].next;
    var s := if prev != NONE then slots[prev := slots[prev].(next := next)] else slots;
    if next != NONE then s[next := s[next].(prev := prev)] else s
  }

  function SatDec(n: nat): nat { if n > 0 then n - 1 else 0 }

  function UnlinkLevel(lvl: PriceLevel, slot: OrderSlot): PriceLevel {
    PriceLevel(
      if slot.prev == NONE then slot.next else lvl.head,
      if slot.next == NONE then slot.prev else lvl.tail,
      lvl.totalQty - slot.remaining, SatDec(lvl.orderCount),
      if slot.side == Buy then SatDec(lvl.bidCount) else lvl.bidCount,
      if slot.side == Sell then SatDec(lvl.askCount) else lvl.askCount)
  }

  lemma LinksInRange(slots: seq<OrderSlot>, lvl: PriceLevel, q: seq<nat>, k: nat)
    requires Linked(slots, lvl, q) && |slots| <= NONE && k < |q|
    ensures slots[q[k]].prev == PrevOf(q, k) && slots[q[k]].next == NextOf(q, k)
    ensures slots[q[k]].prev != NONE ==> slots[q[k]].prev < |slots|
    ensures slots[q[k]].next != NONE ==> slots[q[k]].next < |slots|
  {
  }

  lemma UnlinkedLinks(slots: seq<OrderSlot>, lvl: PriceLevel, q: seq<nat>, k: nat, j: nat)
    requires Linked(slots, lvl, q) && |slots| <= NONE && k < |q| && Distinct(q) && j < |q| && j != k
    requires slots[q[k]].prev != NONE ==> slots[q[k]].prev < |slots|
    requires slots[q[k]].next != NONE ==> slots[q[k]].next < |slots|
    ensures UnlinkSlots(slots, q[k])[q[j]].next == if j + 1 == k then NextOf(q, k) else NextOf(q, j)
    ensures UnlinkSlots(slots, q[k])[q[j]].prev == if j == k + 1 then PrevOf(q, k) else PrevOf(q, j)
  {
    LinksInRange(slots, lvl, q, k);
    LinksInRange(slots, lvl, q, j);
    hide Linked;
  }

  lemma LinkedRemove(slots: seq<OrderSlot>, lvl: PriceLevel, q: seq<nat>, k: nat)
    requires Linked(slots, lvl, q) && |slots| <= NONE && k < |q| && Distinct(q)
    requires slots[q[k]].prev != NONE ==> slots[q[k]].prev < |slots|
    requires slots[q[k]].next != NONE ==> slots[q[k]].next < |slots|
    ensures Linked(UnlinkSlots(slots, q[k]), UnlinkLevel(lvl, slots[q[k]]), Without(q, k))
  {
    hide UnlinkSlots, Distinct, PrevOf, NextOf, Without, UnlinkLevel, LastOf, HeadOf;
    var after, w := UnlinkSlots(slots, q[k]), Without(q, k);
    HeaderRemove(slots, lvl, q, k);
    forall i | 0 <= i < |w|
      ensures w[i] < |slots| && after[w[i]].next == NextOf(w, i) && after[w[i]].prev == PrevOf(w, i)
    {
      WithoutAt(q, k, i);
      UnlinkedLinks(slots, lvl, q, k, if i < k then i else i + 1);
    }
  }

  /** Where the rest of the queue ends up, and its neighbours there. */
  lemma WithoutAt(q: seq<nat>, k: nat, i: nat)
    requires k < |q| && i < |Without(q, k)|
    ensures var w, j := Without(q, k), if i < k then i else i + 1;
            && j < |q| && j != k && w[i] == q[j]
            && NextOf(w, i) == (if j + 1 == k then NextOf(q, k) else NextOf(q, j))
            && PrevOf(w, i) == (if j == k + 1 then PrevOf(q, k) else PrevOf(q, j))
  {
  }

  lemma HeaderRemove(slots: seq<OrderSlot>, lvl: PriceLevel, q: seq<nat>, k: nat)
    requires Linked(slots, lvl, q) && |slots| <= NONE && k < |q|
    ensures UnlinkLevel(lvl, slots[q[k]]).head == HeadOf(Without(q, k))
    ensures UnlinkLevel(lvl, slots[q[k]]).tail == LastOf(Without(q, k))
  {
    LinksInRange(slots, lvl, q, k);
    hide Linked;
    HeadTail(slots, lvl, q, k);
  }

  lemma HeadTail(slots: seq<OrderSlot>, lvl: PriceLevel, q: seq<nat>, k: nat)
    requires Linked(slots, lvl, q) && |slots| <= NONE && k < |q|
    ensures lvl.head == q[0] && lvl.tail == q[|q| - 1]
    ensures forall i | 0 <= i < |q| :: q[i] != NONE
  {
  }

  lemma CountsRemove(book: Book, lvl: PriceLevel, q: seq<nat>, k: nat, slot: OrderSlot)
    requires (forall g | g in q :: g in book) && Counts(book, lvl, q) && Distinct(q) && k < |q|
    requires slot.remaining == book[q[k]].qty && slot.side == book[q[k]].side
    ensures forall g | g in Without(q, k) :: g in book - {q[k]}
    ensures Counts(book - {q[k]}, UnlinkLevel(lvl, slot), Without(q, k))
  {
    WithoutMembers(q, k);
    CountRemove(Quantity, book, q, k);
    CountRemove(OnSide(Buy), book, q, k);
    CountRemove(OnSide(Sell), book, q, k);
    hide Tally, Distinct;
  }

  lemma CountRemove(m: Measure, book: Book, q: seq<nat>, k: nat)
    requires (forall g | g in q :: g in book) && Distinct(q) && k < |q|
    ensures forall g | g in Without(q, k) :: g in book - {q[k]}
    ensures Tally(m, book - {q[k]}, Without(q, k)) == Tally(m, book, q) - Weight(m, book[q[k]])
    ensures m.OnSide? ==> Tally(m, book - {q[k]}, Without(q, k)) >= 0
  {
    WithoutMembers(q, k);
    TallyWithout(m, book, q, k);
    TallySame(m, book, book - {q[k]}, Without(q, k));
    if m.OnSide? { CountNonNeg(m, book - {q[k]}, Without(q, k)); }
  }

  lemma {:induction false} CountNonNeg(m: Measure, book: Book, q: seq<nat>)
    requires (forall g | g in q :: g in book) && (m.OnSide? || m.CrossCount?)
    ensures Tally(m, book, q) >= 0
  {
    if q != [] { CountNonNeg(m, book, q[1..]); }
  }

  lemma FifoRemove(book: Book, q: seq<nat>, k: nat)
    requires (forall g | g in q :: g in book) && Fifo(book, q) && Distinct(q) && k < |q|
    ensures forall g | g in Without(q, k) :: g in book - {q[k]}
    ensures Fifo(book - {q[k]}, Without(q, k))
  {
    WithoutMembers(q, k);
    var w := Without(q, k);
    forall i, j | 0 <= i < j < |w| && book[w[i]].side == book[w[j]].side && book[w[i]].price == book[w[j]].price
      ensures book[w[i]].stamp < book[w[j]].stamp
    {
      assert w[i] == q[if i < k then i else i + 1] && w[j] == q[if j < k then j else j + 1];
    }
  }

  lemma UnlinkKeepsRest(slots: seq<OrderSlot>, h: nat)
    requires h < |slots|
    requires slots[h].prev != NONE ==> slots[h].prev < |slots|
    requires slots[h].next != NONE ==> slots[h].next < |slots|
    ensures SameButLinks(slots, UnlinkSlots(slots, h))
  {
  }

  /** Unlinking an order keeps the rest of its level in order. */
  lemma RemoveOk(
    slots: seq<OrderSlot>, book: Book, comp: CompressionMap, t: nat, lvl: PriceLevel, q: seq<nat>, k: nat)
    requires Shaped(comp) && LevelOk(slots, book, comp, t, lvl, q) && |slots| <= NONE && k < |q|
    ensures slots[q[k]].prev != NONE ==> slots[q[k]].prev < |slots|
    ensures slots[q[k]].next != NONE ==> slots[q[k]].next < |slots|
    ensures LevelOk(UnlinkSlots(slots, q[k]), book - {q[k]}, comp, t, UnlinkLevel(lvl, slots[q[k]]), Without(q, k))
  {
    hide PriceToIndex, Tally, Linked, Counts, Fifo, UnlinkSlots;
    LinksInRange(slots, lvl, q, k);
    LinkedRemove(slots, lvl, q, k);
    CountsRemove(book, lvl, q, k, slots[q[k]]);
    FifoRemove(book, q, k);
    WithoutMembers(q, k);
    UnlinkKeepsRest(slots, q[k]);
  }

  // ---------------------------------------------------------------------
  // Changing a quantity in place.

  lemma RequantifyOk(
    slots: seq<OrderSlot>, book: Book, comp: CompressionMap, t: nat, lvl: PriceLevel, q: seq<nat>,
    h: nat, qty: int)
    requires Shaped(comp) && LevelOk(slots, book, comp, t, lvl, q) && h in q
    ensures h in book && h < |slots|
    ensures LevelOk(slots[h := slots[h].(remaining := qty)], book[h := book[h].(qty := qty)], comp, t,
                    lvl.(totalQty := lvl.totalQty - (book[h].qty - qty)), q)
  {
    hide PriceToIndex, Tally, Linked, Counts, Fifo, Distinct;
    var o := book[h].(qty := qty);
    RequantifyLinks(slots, lvl, q, h, qty);
    RequantifyCounts(book, lvl, q, h, o);
    RequantifyFifo(book, q, h, o);
  }

  lemma RequantifyLinks(slots: seq<OrderSlot>, lvl: PriceLevel, q: seq<nat>, h: nat, qty: int)
    requires Linked(slots, lvl, q) && h < |slots|
    ensures Linked(slots[h := slots[h].(remaining := qty)],
                   lvl.(totalQty := lvl.totalQty - (slots[h].remaining - qty)), q)
  {
    var after := slots[h := slots[h].(remaining := qty)];
    forall i | 0 <= i < |q| ensures after[q[i]].next == NextOf(q, i) && after[q[i]].prev == PrevOf(q, i) {
      assert slots[q[i]].next == NextOf(q, i);
    }
  }

  lemma RequantifyCounts(book: Book, lvl: PriceLevel, q: seq<nat>, h: nat, o: Order)
    requires (forall g | g in q :: g in book) && Counts(book, lvl, q) && Distinct(q) && h in q
    requires o.side == book[h].side
    ensures Counts(book[h := o], lvl.(totalQty := lvl.totalQty - (book[h].qty - o.qty)), q)
  {
    hide Tally, Distinct;
    TallyUpdate(Quantity, book, q, h, o);
    TallyUpdate(OnSide(Buy), book, q, h, o);
    TallyUpdate(OnSide(Sell), book, q, h, o);
  }

  lemma RequantifyFifo(book: Book, q: seq<nat>, h: nat, o: Order)
    requires (forall g | g in q :: g in book) && Fifo(book, q) && h in q
    requires o.side == book[h].side && o.price == book[h].price && o.stamp == book[h].stamp
    ensures Fifo(book[h := o], q)
  {
  }
}
