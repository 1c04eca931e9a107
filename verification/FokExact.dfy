/** When the fill-or-kill pre-check and the match agree. */
module FokExact {
  import opened Types
  import opened Compression
  import opened Arena
  import opened PriceTime
  import opened Levels
  import opened Arrangement
  import opened FokFacts

  // ---------------------------------------------------------------------
  // The visiting order.

  /** The pre-check for `taker` reaches slot `s` before slot `t`. */
  ghost predicate StepsBefore(comp: CompressionMap, taker: Side, s: int, t: int) {
    && Shaped(comp) && 0 <= s && 0 <= t && s != t
    && if taker == Buy then WalkLe(comp, s, t) else WalkLe(comp, t, s)
  }

  /** An earlier slot, or the same slot and, at one price, an earlier arrival. */
  ghost predicate Earlier(book: Book, comp: CompressionMap, taker: Side, h: nat, g: nat) {
    && h in book && g in book
    && var s, t := SlotOf(comp, book[h].price), SlotOf(comp, book[g].price);
       || StepsBefore(comp, taker, s, t)
       || (s == t && h != g && (book[h].price == book[g].price ==> book[h].stamp < book[g].stamp))
  }

  ghost predicate Listed(book: Book, comp: CompressionMap, taker: Side, q: seq<nat>) {
    && Resting(book, q)
    && forall i, j | 0 <= i < j < |q| :: Earlier(book, comp, taker, q[i], q[j])
  }

  lemma ListedAppend(book: Book, comp: CompressionMap, taker: Side, p: seq<nat>, q: seq<nat>)
    requires Listed(book, comp, taker, p) && Listed(book, comp, taker, q)
    requires forall h, g | h in p && g in q :: Earlier(book, comp, taker, h, g)
    ensures Listed(book, comp, taker, p + q)
  {
    hide Earlier;
    var r := p + q;
    forall i, j | 0 <= i < j < |r| ensures Earlier(book, comp, taker, r[i], r[j]) {
      if i < |p| <= j {
        assert r[i] == p[i] && r[j] == q[j - |p|];
      } else if |p| <= i {
        assert r[i] == q[i - |p|] && r[j] == q[j - |p|];
      }
    }
  }

  /** The crossing makers of one queue, in queue order. */
  lemma {:induction false} CrossingListed(
    book: Book, comp: CompressionMap, q: seq<nat>, t: nat, taker: Side, limit: int)
    requires Resting(book, q) && Distinct(q) && Fifo(book, q)
    requires forall h | h in q :: SlotOf(comp, book[h].price) == t
    ensures Listed(book, comp, taker, Crossing(book, q, taker, limit))
  {
    hide SlotOf;
    CrossingMembers(book, q, taker, limit);
    if q != [] {
      TailDistinct(q);
      CrossingListed(book, comp, q[1..], t, taker, limit);
      if Crosses(book[q[0]], taker, limit) {
        var d := Crossing(book, q[1..], taker, limit);
        CrossingMembers(book, q[1..], taker, limit);
        forall g | g in d ensures Earlier(book, comp, taker, q[0], g) {
          var j :| 0 <= j < |q[1..]| && q[1..][j] == g;
          assert q[j + 1] == g;
        }
        ListedAppend(book, comp, taker, [q[0]], d);
      }
    }
  }

  /** Everything one slot contributes: its crossing makers, listed, and nothing else. */
  lemma SlotListed(
    slots: seq<OrderSlot>, book: Book, comp: CompressionMap, levels: seq<PriceLevel>, queues: seq<seq<nat>>,
    t: nat, taker: Side, limit: int)
    requires Arranged(slots, book, comp, levels, queues)
    ensures var c := CrossingAt(book, queues, t, taker, limit);
            && Listed(book, comp, taker, c)
            && (forall h :: h in c <==> h in book && Crosses(book[h], taker, limit) && SlotOf(comp, book[h].price) == t)
  {
    hide Arranged, PriceToIndex, Listed;
    ArrangedShaped(slots, book, comp, levels, queues);
    forall h | h in book ensures SlotOf(comp, book[h].price) == t ==> t < |queues| && h in queues[t] {
      ArrangedOrder(slots, book, comp, levels, queues, h);
    }
    if t < |queues| {
      ArrangedLevel(slots, book, comp, levels, queues, t);
      LevelParts(slots, book, comp, t, levels[t], queues[t]);
      CrossingMembers(book, queues[t], taker, limit);
      CrossingListed(book, comp, queues[t], t, taker, limit);
    } else {
      ListedNone(book, comp, taker);
    }
  }

  lemma LevelParts(slots: seq<OrderSlot>, book: Book, comp: CompressionMap, t: nat, lvl: PriceLevel, q: seq<nat>)
    requires Shaped(comp) && LevelOk(slots, book, comp, t, lvl, q)
    ensures Resting(book, q) && Distinct(q) && Fifo(book, q)
  {
    hide PriceToIndex, Linked, Counts, Stores;
  }

  lemma ListedNone(book: Book, comp: CompressionMap, taker: Side)
    ensures Listed(book, comp, taker, [])
  {
  }

  /** `q` lists exactly the crossing makers whose slot is in `[lo, hi)`. */
  ghost predicate Covers(
    book: Book, comp: CompressionMap, taker: Side, limit: int, q: seq<nat>, lo: int, hi: int)
  {
    forall h :: h in q <==> h in book && Crosses(book[h], taker, limit) && lo <= SlotOf(comp, book[h].price) < hi
  }

  /** All slots of `[lo, hi)` are in band `k`. */
  ghost predicate OneBand(comp: CompressionMap, lo: nat, hi: nat, k: nat) {
    Shaped(comp) && forall t: nat | lo <= t < hi :: BandOf(comp, t) == k
  }

  lemma JoinSlots(
    book: Book, comp: CompressionMap, taker: Side, limit: int, k: nat, p: seq<nat>, q: seq<nat>,
    lo: nat, mid: nat, hi: nat)
    requires lo <= mid <= hi && OneBand(comp, lo, hi, k)
    requires Listed(book, comp, taker, p) && Listed(book, comp, taker, q)
    requires Covers(book, comp, taker, limit, p, lo, mid) && Covers(book, comp, taker, limit, q, mid, hi)
    ensures taker == Buy ==> Listed(book, comp, taker, p + q)
    ensures taker == Sell ==> Listed(book, comp, taker, q + p)
    ensures Covers(book, comp, taker, limit, p + q, lo, hi) && Covers(book, comp, taker, limit, q + p, lo, hi)
  {
    hide SlotOf, BandOf, Listed, Crosses, Shaped;
    if taker == Buy { ListedAppend(book, comp, taker, p, q); } else { ListedAppend(book, comp, taker, q, p); }
  }

  lemma {:induction false} UpListed(
    slots: seq<OrderSlot>, book: Book, comp: CompressionMap, levels: seq<PriceLevel>, queues: seq<seq<nat>>,
    lo: nat, hi: nat, k: nat, limit: int)
    requires Arranged(slots, book, comp, levels, queues) && lo <= hi && OneBand(comp, lo, hi, k)
    ensures var v := VisitUp(book, queues, lo, hi, Buy, limit);
            Listed(book, comp, Buy, v) && Covers(book, comp, Buy, limit, v, lo, hi)
    decreases hi - lo
  {
    hide Arranged, SlotOf, Listed, CrossingAt, BandOf, Crosses, Shaped;
    if lo == hi {
      ListedNone(book, comp, Buy);
    } else {
      SlotListed(slots, book, comp, levels, queues, lo, Buy, limit);
      UpListed(slots, book, comp, levels, queues, lo + 1, hi, k, limit);
      JoinSlots(book, comp, Buy, limit, k, CrossingAt(book, queues, lo, Buy, limit),
                VisitUp(book, queues, lo + 1, hi, Buy, limit), lo, lo + 1, hi);
    }
  }

  lemma {:induction false} DownListed(
    slots: seq<OrderSlot>, book: Book, comp: CompressionMap, levels: seq<PriceLevel>, queues: seq<seq<nat>>,
    lo: nat, hi: nat, k: nat, limit: int)
    requires Arranged(slots, book, comp, levels, queues) && lo <= hi && OneBand(comp, lo, hi, k)
    ensures var v := VisitDown(book, queues, lo, hi, Sell, limit);
            Listed(book, comp, Sell, v) && Covers(book, comp, Sell, limit, v, lo, hi)
    decreases hi - lo
  {
    hide Arranged, SlotOf, Listed, CrossingAt, BandOf, Crosses, Shaped;
    if lo == hi {
      ListedNone(book, comp, Sell);
    } else {
      SlotListed(slots, book, comp, levels, queues, hi - 1, Sell, limit);
      DownListed(slots, book, comp, levels, queues, lo, hi - 1, k, limit);
      JoinSlots(book, comp, Sell, limit, k, VisitDown(book, queues, lo, hi - 1, Sell, limit),
                CrossingAt(book, queues, hi - 1, Sell, limit), lo, hi - 1, hi);
    }
  }

  // ---------------------------------------------------------------------
  // All bands.

  /** `q` lists exactly the crossing makers whose band is in `[j, k)`. */
  ghost predicate CoversBands(book: Book, comp: CompressionMap, taker: Side, limit: int, q: seq<nat>, j: nat, k: nat) {
    forall h :: h in q <==> h in book && Crosses(book[h], taker, limit) && j <= BandAt(comp, book[h].price) < k
  }

  ghost function BandAt(comp: CompressionMap, price: int): nat {
    if SlotOf(comp, price) >= 0 then BandOf(comp, SlotOf(comp, price)) else 10
  }

  lemma BandCovered(
    book: Book, comp: CompressionMap, taker: Side, limit: int, q: seq<nat>, k: nat)
    requires Regular(comp) && k < 10 && |PriceAsc(comp)| == 10
    requires Covers(book, comp, taker, limit, q, PriceAsc(comp)[k].0, PriceAsc(comp)[k].1)
    ensures CoversBands(book, comp, taker, limit, q, k, k + 1)
  {
    hide PriceToIndex, BandOf, PriceAsc, Regular, Crosses;
    RegularShaped(comp);
    forall h | h in book
      ensures (PriceAsc(comp)[k].0 <= SlotOf(comp, book[h].price) < PriceAsc(comp)[k].1)
              <==> BandAt(comp, book[h].price) == k
    {
      IndexInBand(comp, book[h].price);
      RangesPartition(comp, PriceToIndex(comp, book[h].price));
      assert InRange(PriceAsc(comp)[k], PriceToIndex(comp, book[h].price)) <==> k == BandAt(comp, book[h].price);
    }
  }

  lemma RangeOneBand(comp: CompressionMap, k: nat)
    requires Regular(comp) && k < 10
    ensures |PriceAsc(comp)| == 10 && PriceAsc(comp)[k].0 <= PriceAsc(comp)[k].1
    ensures OneBand(comp, PriceAsc(comp)[k].0, PriceAsc(comp)[k].1, k)
  {
    hide BandOf, Regular, PriceAsc;
    RegularShaped(comp);
    PriceAscBounds(comp, k);
    forall t: nat | PriceAsc(comp)[k].0 <= t < PriceAsc(comp)[k].1 ensures BandOf(comp, t) == k {
      RangesPartition(comp, t);
      assert InRange(PriceAsc(comp)[k], t);
    }
  }

  lemma PriceAscBounds(comp: CompressionMap, k: nat)
    requires Regular(comp) && k < 10
    ensures |PriceAsc(comp)| == 10 && PriceAsc(comp)[k].0 <= PriceAsc(comp)[k].1 <= TotalSlots(comp)
  {
    PriceAscRegular(comp);
  }

  lemma JoinBands(
    book: Book, comp: CompressionMap, taker: Side, limit: int, p: seq<nat>, q: seq<nat>, j: nat, k: nat, l: nat)
    requires Regular(comp) && j <= k <= l
    requires Listed(book, comp, taker, p) && Listed(book, comp, taker, q)
    requires CoversBands(book, comp, taker, limit, p, j, k) && CoversBands(book, comp, taker, limit, q, k, l)
    ensures taker == Buy ==> Listed(book, comp, taker, p + q)
    ensures taker == Sell ==> Listed(book, comp, taker, q + p)
    ensures CoversBands(book, comp, taker, limit, p + q, j, l) && CoversBands(book, comp, taker, limit, q + p, j, l)
  {
    hide SlotOf, BandOf, Listed, Crosses, Regular;
    RegularShaped(comp);
    forall h, g | h in p && g in q
      ensures taker == Buy ==> Earlier(book, comp, taker, h, g)
      ensures taker == Sell ==> Earlier(book, comp, taker, g, h)
    {
      SlotInRange(comp, book[h].price);
      SlotInRange(comp, book[g].price);
    }
    if taker == Buy { ListedAppend(book, comp, taker, p, q); } else { ListedAppend(book, comp, taker, q, p); }
  }

  lemma SlotInRange(comp: CompressionMap, price: int)
    requires Regular(comp)
    ensures 0 <= SlotOf(comp, price) < TotalSlots(comp) && BandAt(comp, price) < 10
  {
    hide PriceToIndex, BandOf, Regular;
    RegularShaped(comp);
    IndexInBand(comp, price);
  }

  lemma {:induction false} RangesUpListed(
    slots: seq<OrderSlot>, book: Book, comp: CompressionMap, levels: seq<PriceLevel>, queues: seq<seq<nat>>,
    k: nat, limit: int)
    requires Regular(comp) && Arranged(slots, book, comp, levels, queues) && k <= 10 == |PriceAsc(comp)|
    ensures var v := VisitRangesUp(book, queues, PriceAsc(comp), k, Buy, limit);
            Listed(book, comp, Buy, v) && CoversBands(book, comp, Buy, limit, v, k, 10)
    decreases 10 - k
  {
    hide Arranged, Listed, Regular, PriceAsc, Crosses, VisitUp, BandAt, Covers, OneBand;
    if k == 10 {
      ListedNone(book, comp, Buy);
    } else {
      RegularShaped(comp);
      RangeOneBand(comp, k);
      UpListed(slots, book, comp, levels, queues, PriceAsc(comp)[k].0, PriceAsc(comp)[k].1, k, limit);
      var v := VisitUp(book, queues, PriceAsc(comp)[k].0, PriceAsc(comp)[k].1, Buy, limit);
      BandCovered(book, comp, Buy, limit, v, k);
      RangesUpListed(slots, book, comp, levels, queues, k + 1, limit);
      JoinBands(book, comp, Buy, limit, v, VisitRangesUp(book, queues, PriceAsc(comp), k + 1, Buy, limit), k, k + 1, 10);
    }
  }

  lemma {:induction false} RangesDownListed(
    slots: seq<OrderSlot>, book: Book, comp: CompressionMap, levels: seq<PriceLevel>, queues: seq<seq<nat>>,
    k: nat, limit: int)
    requires Regular(comp) && Arranged(slots, book, comp, levels, queues) && k <= 10 == |PriceAsc(comp)|
    ensures var v := VisitRangesDown(book, queues, PriceAsc(comp), k, Sell, limit);
            Listed(book, comp, Sell, v) && CoversBands(book, comp, Sell, limit, v, 0, k)
  {
    hide Arranged, Listed, Regular, PriceAsc, Crosses, VisitDown, BandAt, Covers, OneBand;
    if k == 0 {
      ListedNone(book, comp, Sell);
    } else {
      RegularShaped(comp);
      RangeOneBand(comp, k - 1);
      var r := PriceAsc(comp)[k - 1];
      DownListed(slots, book, comp, levels, queues, r.0, r.1, k - 1, limit);
      var v := VisitDown(book, queues, r.0, r.1, Sell, limit);
      BandCovered(book, comp, Sell, limit, v, k - 1);
      RangesDownListed(slots, book, comp, levels, queues, k - 1, limit);
      JoinBands(book, comp, Sell, limit, VisitRangesDown(book, queues, PriceAsc(comp), k - 1, Sell, limit), v, 0, k - 1, k);
    }
  }

  /** The pre-check visits every crossing maker once. */
  lemma VisitsEveryMaker(
    slots: seq<OrderSlot>, book: Book, comp: CompressionMap, levels: seq<PriceLevel>, queues: seq<seq<nat>>,
    taker: Side, limit: int)
    requires Regular(comp) && Arranged(slots, book, comp, levels, queues)
    ensures var v := VisitAll(book, queues, PriceAsc(comp), taker, limit);
            && Listed(book, comp, taker, v)
            && (forall h :: h in v <==> h in book && Crosses(book[h], taker, limit))
  {
    hide Arranged, Listed, Regular, PriceAsc, Crosses, VisitRangesUp, VisitRangesDown, BandAt;
    RegularShaped(comp);
    PriceAscBounds(comp, 0);
    if taker == Buy {
      RangesUpListed(slots, book, comp, levels, queues, 0, limit);
    } else {
      RangesDownListed(slots, book, comp, levels, queues, 10, limit);
    }
    forall h | h in book ensures 0 <= BandAt(comp, book[h].price) < 10 { SlotInRange(comp, book[h].price); }
  }

  // ---------------------------------------------------------------------
  // The two lists hold the same makers.

  /** The crossing makers in the order the match takes them. */
  ghost function Queue(book: Book, taker: Side, limit: int): seq<nat>
    requires Stamped(book)
  {
    Crossing(book, Ladder(book, taker.Opposite()), taker, limit)
  }

  lemma {:induction false} CrossingOrdered(book: Book, q: seq<nat>, taker: Side, limit: int)
    requires Ordered(book, q)
    ensures Ordered(book, Crossing(book, q, taker, limit))
  {
    hide Crosses, Before;
    CrossingMembers(book, q, taker, limit);
    if q != [] {
      var d := Crossing(book, q[1..], taker, limit);
      CrossingMembers(book, q[1..], taker, limit);
      CrossingOrdered(book, q[1..], taker, limit);
      forall j | 0 <= j < |d| ensures Before(book[q[0]], book[d[j]]) {
        assert d[j] in d;
        var i :| 0 <= i < |q[1..]| && q[1..][i] == d[j];
        assert q[i + 1] == d[j];
      }
    }
  }

  lemma QueueFacts(book: Book, taker: Side, limit: int)
    requires Stamped(book)
    ensures Ordered(book, Queue(book, taker, limit)) && Distinct(Queue(book, taker, limit))
    ensures Resting(book, Queue(book, taker, limit))
    ensures forall h :: h in Queue(book, taker, limit) <==> h in book && Crosses(book[h], taker, limit)
  {
    LadderOrdered(book, taker.Opposite());
    CrossingOrdered(book, Ladder(book, taker.Opposite()), taker, limit);
    CrossingMembers(book, Ladder(book, taker.Opposite()), taker, limit);
  }

  lemma NoMembers(q: seq<nat>)
    ensures q == [] <==> forall h :: h !in q
  {
    if q != [] { assert q[0] in q; }
  }

  lemma {:induction false} OrderedUnique(book: Book, p: seq<nat>, q: seq<nat>)
    requires Ordered(book, p) && Ordered(book, q) && forall h :: h in p <==> h in q
    ensures p == q
  {
    NoMembers(p);
    NoMembers(q);
    if p != [] {
      assert p[0] in q && q[0] in p;
      var i :| 0 <= i < |q| && q[i] == p[0];
      var j :| 0 <= j < |p| && p[j] == q[0];
      assert p[0] == q[0];
      forall h ensures h in p[1..] <==> h in q[1..] {
        if h in p[1..] { var k :| 0 <= k < |p[1..]| && p[1..][k] == h; assert p[k + 1] == h && h in q; }
        if h in q[1..] { var k :| 0 <= k < |q[1..]| && q[1..][k] == h; assert q[k + 1] == h && h in p; }
      }
      OrderedUnique(book, p[1..], q[1..]);
    }
  }

  lemma {:induction false} SumIsTotal(book: Book, fills: Fills, q: seq<nat>)
    requires Resting(book, q) && forall h | h in q :: Got(fills, h) == book[h].qty
    ensures SumFirst(book, q, |q|) == Total(fills, q)
  {
    if q != [] { SumIsTotal(book, fills, q[1..]); }
  }

  lemma {:induction false} LengthIsTotal(fills: Fills, q: seq<nat>)
    requires forall h | h in q :: Got(fills, h) == 1
    ensures |q| == Total(fills, q)
  {
    if q != [] { LengthIsTotal(fills, q[1..]); }
  }

  /** Two listings of the same makers have the same length and the same quantity. */
  lemma SameMakers(book: Book, p: seq<nat>, q: seq<nat>)
    requires Resting(book, p) && Resting(book, q) && Distinct(p) && Distinct(q) && forall h :: h in p <==> h in q
    ensures |p| == |q| && SumFirst(book, p, |p|) == SumFirst(book, q, |q|)
  {
    var each := map h | h in p :: book[h].qty;
    var ones := map h | h in p :: 1;
    SumIsTotal(book, each, p);
    SumIsTotal(book, each, q);
    TotalReorder(each, p, q);
    LengthIsTotal(ones, p);
    LengthIsTotal(ones, q);
    TotalReorder(ones, p, q);
  }

  lemma ListedDistinct(book: Book, comp: CompressionMap, taker: Side, q: seq<nat>)
    requires Listed(book, comp, taker, q)
    ensures Distinct(q)
  {
    hide SlotOf, Shaped;
    forall i, j | 0 <= i < j < |q| ensures q[i] != q[j] { assert Earlier(book, comp, taker, q[i], q[j]); }
  }

  /** A slot reached earlier holds only strictly better prices. */
  lemma StepsAreBetter(comp: CompressionMap, taker: Side, p: int, q: int)
    requires Regular(comp) && StepsBefore(comp, taker, SlotOf(comp, p), SlotOf(comp, q))
    ensures Key(taker.Opposite(), p) < Key(taker.Opposite(), q)
  {
    hide PriceToIndex, BandOf, Regular, Shaped;
    if p < q && taker == Sell { WalkFollowsPrice(comp, p, q); }
    if q < p && taker == Buy { WalkFollowsPrice(comp, q, p); }
  }

  /** Every crossing maker rests in the one-tick-per-slot zone. */
  ghost predicate AllNear(book: Book, comp: CompressionMap, taker: Side, limit: int) {
    && Shaped(comp)
    && forall h | h in book && Crosses(book[h], taker, limit) :: SlotOf(comp, book[h].price) < comp.zoneSlots[0]
  }

  lemma NearPrices(book: Book, comp: CompressionMap, taker: Side, limit: int, h: nat, g: nat)
    requires Regular(comp) && Priced(book, comp.tick) && AllNear(book, comp, taker, limit)
    requires h in book && g in book && Crosses(book[h], taker, limit) && Crosses(book[g], taker, limit)
    requires SlotOf(comp, book[h].price) == SlotOf(comp, book[g].price)
    ensures book[h].price == book[g].price
  {
    hide PriceToIndex, Regular, Crosses;
    ZoneZeroInjective(comp, book[h].price, book[g].price);
  }

  /** In zone 0 the visiting order is price-time order. */
  lemma ListedOrdered(book: Book, comp: CompressionMap, taker: Side, limit: int, q: seq<nat>)
    requires Regular(comp) && Priced(book, comp.tick) && AllNear(book, comp, taker, limit)
    requires Listed(book, comp, taker, q) && forall h | h in q :: h in book && Crosses(book[h], taker, limit)
    ensures Ordered(book, q)
  {
    hide SlotOf, Regular, Priced, AllNear, StepsBefore;
    forall i, j | 0 <= i < j < |q| ensures Before(book[q[i]], book[q[j]]) {
      var h, g := q[i], q[j];
      assert Earlier(book, comp, taker, h, g);
      assert book[h].side == book[g].side == taker.Opposite();
      if SlotOf(comp, book[h].price) == SlotOf(comp, book[g].price) && !StepsBefore(comp, taker, SlotOf(comp, book[h].price), SlotOf(comp, book[g].price)) {
        NearPrices(book, comp, taker, limit, h, g);
      } else {
        StepsAreBetter(comp, taker, book[h].price, book[g].price);
      }
    }
  }

  // ---------------------------------------------------------------------
  // The theorems.

  /** What the first makers in price-time order hold, up to the cap. */
  ghost function Fillable(book: Book, taker: Side, limit: int): int
    requires Stamped(book)
  {
    var q := Queue(book, taker, limit);
    if Resting(book, q) then SumFirst(book, q, MAX_MAKERS_PER_ORDER) else 0
  }

  /** The match fills the whole order exactly when that much can be filled. */
  lemma FillsWhenFillable(book: Book, taker: Side, limit: int, rem: int)
    requires Stamped(book) && Positive(book) && rem >= 0
    ensures var q := Ladder(book, taker.Opposite());
            Total(Sweep(book, q, taker, limit, rem, MAX_MAKERS_PER_ORDER), q) == Least(rem, Fillable(book, taker, limit))
  {
    LadderOrdered(book, taker.Opposite());
    SweepTotal(book, Ladder(book, taker.Opposite()), taker, limit, rem, MAX_MAKERS_PER_ORDER);
  }

  /** The pre-check counts what the match fills if the makers fit the cap or all rest in zone 0. */
  lemma PreCheckExact(
    slots: seq<OrderSlot>, book: Book, comp: CompressionMap, levels: seq<PriceLevel>, queues: seq<seq<nat>>,
    taker: Side, limit: int)
    requires Regular(comp) && Arranged(slots, book, comp, levels, queues) && Stamped(book) && Priced(book, comp.tick)
    requires |Queue(book, taker, limit)| <= MAX_MAKERS_PER_ORDER || AllNear(book, comp, taker, limit)
    ensures CountedQty(book, queues, PriceAsc(comp), taker, limit) == Fillable(book, taker, limit)
  {
    hide Arranged, Regular, Queue, Listed, VisitAll, PriceAsc, Priced, Stamped, AllNear, Crosses, SumFirst, Ordered, Distinct;
    RegularShaped(comp);
    var v, q := VisitAll(book, queues, PriceAsc(comp), taker, limit), Queue(book, taker, limit);
    VisitsEveryMaker(slots, book, comp, levels, queues, taker, limit);
    QueueFacts(book, taker, limit);
    ListedDistinct(book, comp, taker, v);
    SameMakers(book, v, q);
    if AllNear(book, comp, taker, limit) {
      ListedOrdered(book, comp, taker, limit, v);
      OrderedUnique(book, v, q);
    } else {
      SumBeyond(book, v, MAX_MAKERS_PER_ORDER);
      SumBeyond(book, q, MAX_MAKERS_PER_ORDER);
    }
  }
}
