/** Which maps let the scans over the ranges meet the orders in price order. */
module Sawtooth {
  import opened Types
  import opened Compression

  // ---------------------------------------------------------------------
  // What a scan over the ranges meets first.

  /** The first range that holds slot `s`, counting from `k`; their number if none does. */
  function FirstRange(ranges: seq<(nat, nat)>, s: int, k: nat): nat
    decreases |ranges| - k
  {
    if k >= |ranges| then |ranges| else if InRange(ranges[k], s) then k else FirstRange(ranges, s, k + 1)
  }

  /** The last range below `k` that holds slot `s`, or -1. */
  function LastRange(ranges: seq<(nat, nat)>, s: int, k: nat): int
    requires k <= |ranges|
  {
    if k == 0 then -1 else if InRange(ranges[k - 1], s) then k - 1 else LastRange(ranges, s, k - 1)
  }

  /** A scan up the ranges meets `s` no later than `t`. */
  predicate UpFirst(ranges: seq<(nat, nat)>, s: int, t: int) {
    var i, j := FirstRange(ranges, s, 0), FirstRange(ranges, t, 0);
    i < j || (i == j && s <= t)
  }

  /** A scan down the ranges meets `s` no later than `t`. */
  predicate DownFirst(ranges: seq<(nat, nat)>, s: int, t: int) {
    var i, j := LastRange(ranges, s, |ranges|), LastRange(ranges, t, |ranges|);
    i > j || (i == j && s >= t)
  }

  /** Both scans meet the better of two prices first. */
  ghost predicate PlacedInOrder(m: CompressionMap, p: int, q: int)
    requires Shaped(m)
  {
    && UpFirst(PriceAsc(m), PriceToIndex(m, p), PriceToIndex(m, q))
    && DownFirst(PriceAsc(m), PriceToIndex(m, q), PriceToIndex(m, p))
  }

  /** Prices an order can have: positive and on the tick grid. */
  predicate OnGrid(p: int, t: int)
    requires t >= 1
  {
    p > 0 && p % t == 0
  }

  ghost predicate OrderRecovered(m: CompressionMap)
    requires Shaped(m)
  {
    forall p, q | p < q && OnGrid(p, m.tick) && OnGrid(q, m.tick) :: PlacedInOrder(m, p, q)
  }

  lemma {:induction false} FirstRangeIs(ranges: seq<(nat, nat)>, s: int, k: nat, i: nat)
    requires k <= i < |ranges| && InRange(ranges[i], s)
    requires forall j | k <= j < i :: !InRange(ranges[j], s)
    ensures FirstRange(ranges, s, k) == i
    decreases i - k
  {
    if k < i { FirstRangeIs(ranges, s, k + 1, i); }
  }

  lemma {:induction false} LastRangeIs(ranges: seq<(nat, nat)>, s: int, k: nat, i: nat)
    requires i < k <= |ranges| && InRange(ranges[i], s)
    requires forall j | i < j < k :: !InRange(ranges[j], s)
    ensures LastRange(ranges, s, k) == i
  {
    if i < k - 1 { LastRangeIs(ranges, s, k - 1, i); }
  }

  lemma {:induction false} LastRangeBelow(ranges: seq<(nat, nat)>, s: int, k: nat, l: nat)
    requires l <= k <= |ranges| && forall j | l <= j < k :: !InRange(ranges[j], s)
    ensures LastRange(ranges, s, k) < l
  {
    if l < k { LastRangeBelow(ranges, s, k - 1, l); } else { LastRangeBound(ranges, s, k); }
  }

  lemma {:induction false} LastRangeBound(ranges: seq<(nat, nat)>, s: int, k: nat)
    requires k <= |ranges|
    ensures -1 <= LastRange(ranges, s, k) < k || k == 0
    ensures LastRange(ranges, s, k) < k
  {
    if k > 0 { LastRangeBound(ranges, s, k - 1); }
  }

  lemma {:induction false} LastRangeAbove(ranges: seq<(nat, nat)>, s: int, k: nat, i: nat)
    requires i < k <= |ranges| && InRange(ranges[i], s)
    ensures LastRange(ranges, s, k) >= i
  {
    if !InRange(ranges[k - 1], s) { LastRangeAbove(ranges, s, k - 1, i); }
  }

  // ---------------------------------------------------------------------
  // Regular maps.

  /** On a regular map all prices are met in order, on the grid or off it. */
  lemma RegularPlaces(m: CompressionMap, p: int, q: int)
    requires Regular(m) && Shaped(m) && p < q
    ensures PlacedInOrder(m, p, q)
  {
    hide PriceToIndex, PriceAsc, BandOf, Regular, Shaped, Band, FirstRange, LastRange;
    SawtoothOrder(m, p, q);
    OnlyRange(m, p);
    OnlyRange(m, q);
  }

  lemma OnlyRange(m: CompressionMap, p: int)
    requires Regular(m) && Shaped(m)
    ensures FirstRange(PriceAsc(m), PriceToIndex(m, p), 0) == Band(m, p)
    ensures LastRange(PriceAsc(m), PriceToIndex(m, p), |PriceAsc(m)|) == Band(m, p)
  {
    hide PriceToIndex, PriceAsc, BandOf, Regular, Shaped, Band, FirstRange, LastRange;
    IndexInBand(m, p);
    RangesPartition(m, PriceToIndex(m, p));
    FirstRangeIs(PriceAsc(m), PriceToIndex(m, p), 0, Band(m, p));
    LastRangeIs(PriceAsc(m), PriceToIndex(m, p), |PriceAsc(m)|, Band(m, p));
  }

  // ---------------------------------------------------------------------
  // Where the order is lost.

  /** Zones laid out back to back, with the two catch-all slots last. */
  predicate BackToBack(m: CompressionMap) {
    && Shaped(m) && m.base[0] == 0 && m.zoneSlots[4] == 2
    && m.base[1] == m.zoneSlots[0] && m.base[2] == m.base[1] + m.zoneSlots[1]
    && m.base[3] == m.base[2] + m.zoneSlots[2] && m.base[4] == m.base[3] + m.zoneSlots[3]
  }

  /** Prices of zone `a` and beyond, up to the catch-all, have no slots of their own below and above mid. */
  predicate Collapsed(m: CompressionMap, a: nat) {
    && BackToBack(m) && 1 <= a <= 3
    && (m.zoneSlots[a] == 1 || forall z | a <= z <= 3 :: m.zoneSlots[z] == 0)
  }

  lemma BasesGrow(m: CompressionMap, y: nat, z: nat)
    requires BackToBack(m) && y <= z <= 4
    ensures m.base[y] <= m.base[z]
    decreases z - y
  {
    if y < z { BasesGrow(m, y, z - 1); }
  }

  /** From some range on, the ask ranges lie at or above a zone's first slot. */
  lemma {:induction false} AskTail(m: CompressionMap, a: nat, z: nat)
    requires BackToBack(m) && a <= z <= 5
    ensures |AskRanges(m, a)| <= |AskRanges(m, z)|
    ensures forall k | |AskRanges(m, a)| <= k < |AskRanges(m, z)| :: AskRanges(m, z)[k].0 >= m.base[a]
    decreases z
  {
    hide BackToBack;
    if a < z {
      AskTail(m, a, z - 1);
      BasesGrow(m, a, z - 1);
      AskRegionFrom(m, z - 1);
    }
  }

  lemma AskRegionFrom(m: CompressionMap, z: nat)
    requires BackToBack(m) && z <= 4
    ensures AskRegion(m, z).0 >= m.base[z]
  {
  }

  /** The first slot of a collapsed zone is met again among those ranges. */
  lemma CollapsedMet(m: CompressionMap, a: nat) returns (k: nat)
    requires Collapsed(m, a)
    ensures |AskRanges(m, a)| <= k < |AskRanges(m, 5)| && InRange(AskRanges(m, 5)[k], m.base[a])
  {
    AskTail(m, a, 4);
    if m.zoneSlots[a] == 1 {
      k := |AskRanges(m, a)|;
      assert AskRanges(m, a + 1)[k] == AskRegion(m, a);
      AskPrefix(m, a + 1, 5);
    } else {
      AskTail(m, a, 4);
      BaseAgain(m, a);
      k := |AskRanges(m, 4)|;
    }
  }

  lemma BaseAgain(m: CompressionMap, a: nat)
    requires BackToBack(m) && 1 <= a <= 3 && forall z | a <= z <= 3 :: m.zoneSlots[z] == 0
    ensures m.base[4] == m.base[a]
  {
  }

  lemma {:induction false} AskPrefix(m: CompressionMap, y: nat, z: nat)
    requires Shaped(m) && y <= z <= 5
    ensures |AskRanges(m, y)| <= |AskRanges(m, z)| && AskRanges(m, z)[..|AskRanges(m, y)|] == AskRanges(m, y)
    decreases z - y
  {
    hide AskRegion;
    if y < z { AskPrefix(m, y, z - 1); }
  }

  /** What a scan down the ranges returns for a set of marked slots. */
  ghost predicate FoundDown(ranges: seq<(nat, nat)>, members: set<int>, b: int) {
    exists i ::
      && 0 <= i < |ranges| && b in members && InRange(ranges[i], b)
      && (forall k, s | i < k < |ranges| && s in members :: !InRange(ranges[k], s))
      && (forall s | s in members && InRange(ranges[i], s) :: s <= b)
  }

  /** A scan down meets the first slot of a collapsed zone before any slot of the zones inside it. */
  lemma CollapsedFirst(m: CompressionMap, a: nat, s: int)
    requires Collapsed(m, a) && s < m.base[a]
    ensures !DownFirst(PriceAsc(m), s, m.base[a])
    ensures FoundDown(PriceAsc(m), {s, m.base[a]}, m.base[a])
  {
    hide AskRanges, BidRanges, LastRange, Collapsed;
    CollapsedParts(m, a);
    var ranges, n := PriceAsc(m), |BidRanges(m, 4)|;
    var k := CollapsedMet(m, a);
    AskTail(m, a, 5);
    var first := n + |AskRanges(m, a)|;
    assert forall j | first <= j < |ranges| :: ranges[j] == AskRanges(m, 5)[j - n];
    assert forall j | first <= j < |ranges| :: !InRange(ranges[j], s);
    assert InRange(ranges[n + k], m.base[a]);
    LastRangeBelow(ranges, s, |ranges|, first);
    LastRangeAbove(ranges, m.base[a], |ranges|, n + k);
    LastMet(ranges, {s, m.base[a]}, m.base[a], first, n + k);
  }

  lemma CollapsedParts(m: CompressionMap, a: nat)
    requires Collapsed(m, a)
    ensures BackToBack(m) && 1 <= a <= 3
  {
  }

  /** If only `b` is marked from `first` on, and it is, the scan down returns it. */
  lemma LastMet(ranges: seq<(nat, nat)>, members: set<int>, b: int, first: nat, k: nat)
    requires b in members && first <= k < |ranges| && InRange(ranges[k], b)
    requires forall j, s | first <= j < |ranges| && s in members && s != b :: !InRange(ranges[j], s)
    ensures FoundDown(ranges, members, b)
  {
    LastRangeAbove(ranges, b, |ranges|, k);
    var i := LastRange(ranges, b, |ranges|);
    LastRangeHolds(ranges, b, |ranges|);
    assert InRange(ranges[i], b);
  }

  lemma {:induction false} LastRangeHolds(ranges: seq<(nat, nat)>, s: int, k: nat)
    requires k <= |ranges|
    ensures var i := LastRange(ranges, s, k);
            && -1 <= i < k
            && (i >= 0 ==> InRange(ranges[i], s))
            && (forall j | i < j < k :: !InRange(ranges[j], s))
  {
    if k > 0 { LastRangeHolds(ranges, s, k - 1); }
  }

  // ---------------------------------------------------------------------
  // Maps without a slot for zone 1.

  /** Slots for zone 0 and the catch-all only. */
  predicate Bare(m: CompressionMap) {
    && BackToBack(m) && m.zoneSlots[1] == m.zoneSlots[2] == m.zoneSlots[3] == 0
    && 0 <= m.thresholds[0] <= m.thresholds[1] <= m.thresholds[2] <= m.thresholds[3] < m.mid
    && m.zoneSlots[0] == 2 * ((m.thresholds[0] + m.tick - 1) / m.tick) < NONE
  }

  /** Where a price goes on such a map. */
  lemma BareSlot(m: CompressionMap, p: int)
    requires Bare(m)
    ensures var h, d := Half(m, 0), Distance(m, p);
            PriceToIndex(m, p)
            == if d < m.thresholds[0] then (if p < m.mid then h - 1 - Offset(m, 0, d) else h + Offset(m, 0, d))
               else if d >= m.thresholds[3] && p < m.mid then m.base[4] + 1
               else m.base[4]
    ensures Distance(m, p) < m.thresholds[0] ==> Half(m, 0) >= 1
  {
    if Distance(m, p) < m.thresholds[0] {
      DivMonotone(m.tick, m.thresholds[0] + m.tick - 1, m.tick);
      DivUnique(m.tick, 1, 0, m.tick);
    }
  }

  lemma BareOffset(m: CompressionMap, d: nat)
    requires Bare(m) && d < m.thresholds[0]
    ensures 0 <= d / m.tick < NONE && Offset(m, 0, d) == Min(d / m.tick, Half(m, 0) - 1)
  {
    DivNonNeg(d, m.tick);
    DivMonotone(d, m.thresholds[0] + m.tick - 1, m.tick);
    SpanZero(m);
  }

  lemma SpanZero(m: CompressionMap)
    requires Shaped(m)
    ensures Span(m, 0) == m.tick && ZoneStart(m, 0) == 0
  {
  }

  /** The range of each slot: catch-all below mid, zone 0 below, zone 0 above, catch-all above. */
  lemma BareRanges(m: CompressionMap)
    requires Bare(m)
    ensures var b, h := m.base[4], Half(m, 0);
            && m.zoneSlots[0] == 2 * h == b
            && PriceAsc(m) == if h == 0 then [(b + 1, b + 2), (b, b + 1)]
                              else [(b + 1, b + 2), (0, h), (h, b), (b, b + 1)]
  {
    assert BidRanges(m, -1) == [] && AskRanges(m, 0) == [];
    assert BidRegion(m, 1).0 == BidRegion(m, 1).1 && BidRegion(m, 2).0 == BidRegion(m, 2).1
           && BidRegion(m, 3).0 == BidRegion(m, 3).1;
    assert AskRegion(m, 1).0 == AskRegion(m, 1).1 && AskRegion(m, 2).0 == AskRegion(m, 2).1
           && AskRegion(m, 3).0 == AskRegion(m, 3).1;
    assert BidRanges(m, 3) == BidRanges(m, 2) == BidRanges(m, 1) == BidRanges(m, 0);
    assert AskRanges(m, 4) == AskRanges(m, 3) == AskRanges(m, 2) == AskRanges(m, 1);
  }

  /** Within zone 0. */
  predicate Core(m: CompressionMap, p: int)
    requires Shaped(m)
  {
    Distance(m, p) < m.thresholds[0]
  }

  /** Below mid, between zone 0 and the catch-all. */
  predicate Stray(m: CompressionMap, p: int)
    requires Shaped(m)
  {
    m.mid - m.thresholds[3] < p <= m.mid - m.thresholds[0]
  }

  function BareRank(m: CompressionMap, p: int): nat
    requires Shaped(m)
  {
    if Core(m, p) then (if p < m.mid then 1 else 2)
    else if p < m.mid && p <= m.mid - m.thresholds[3] then 0
    else if Half(m, 0) == 0 then 1 else 3
  }

  /** Each slot is met once, at the rank of its prices. */
  lemma BareMet(m: CompressionMap, p: int)
    requires Bare(m)
    ensures FirstRange(PriceAsc(m), PriceToIndex(m, p), 0) == BareRank(m, p)
    ensures LastRange(PriceAsc(m), PriceToIndex(m, p), |PriceAsc(m)|) == BareRank(m, p)
  {
    hide PriceToIndex, PriceAsc, FirstRange, LastRange, Offset;
    BareRanges(m);
    BareSlot(m, p);
    if Core(m, p) { BareOffset(m, Distance(m, p)); }
    FirstRangeIs(PriceAsc(m), PriceToIndex(m, p), 0, BareRank(m, p));
    LastRangeIs(PriceAsc(m), PriceToIndex(m, p), |PriceAsc(m)|, BareRank(m, p));
  }

  /** Only a stray price followed by one of zone 0 is met out of order. */
  lemma BarePlaces(m: CompressionMap, p: int, q: int)
    requires Bare(m) && p < q && !(Stray(m, p) && Core(m, q))
    ensures PlacedInOrder(m, p, q)
  {
    hide PriceToIndex, PriceAsc, FirstRange, LastRange, Offset, Shaped;
    BareParts(m);
    BareMet(m, p);
    BareMet(m, q);
    BareSlot(m, p);
    BareSlot(m, q);
    if Core(m, p) && Core(m, q) { CoreMonotone(m, p, q); }
  }

  lemma BareParts(m: CompressionMap)
    requires Bare(m)
    ensures Shaped(m) && m.tick >= 1
    ensures 0 <= m.thresholds[0] <= m.thresholds[1] <= m.thresholds[2] <= m.thresholds[3] < m.mid
  {
  }

  lemma CoreMonotone(m: CompressionMap, p: int, q: int)
    requires Bare(m) && p < q && Core(m, p) && Core(m, q)
    ensures p < m.mid && q < m.mid ==> Offset(m, 0, Distance(m, q)) <= Offset(m, 0, Distance(m, p))
    ensures p >= m.mid ==> Offset(m, 0, Distance(m, p)) <= Offset(m, 0, Distance(m, q))
  {
    hide Offset, Half;
    BareOffset(m, Distance(m, p));
    BareOffset(m, Distance(m, q));
    if q < m.mid { DivMonotone(Distance(m, q), Distance(m, p), m.tick); }
    if p >= m.mid { DivMonotone(Distance(m, p), Distance(m, q), m.tick); }
  }

  // ---------------------------------------------------------------------
  // The exact condition.

  /** The largest multiple of the tick up to a bound. */
  function TickAtMost(a: int, t: int): int
    requires t >= 1
  {
    a - a % t
  }

  lemma TickAtMostIs(a: int, t: int)
    requires t >= 1
    ensures TickAtMost(a, t) % t == 0 && a - t < TickAtMost(a, t) <= a
    ensures forall p | p % t == 0 && p <= a :: p <= TickAtMost(a, t)
  {
    var x := TickAtMost(a, t);
    assert x == t * (a / t);
    Multiple(a / t, t);
    forall p | p % t == 0 && p <= a ensures p <= x {
      if p > x { NextTick(x, p, t); }
    }
  }

  /** Some price of the grid lies above `lo` and not above `hi`. */
  predicate HasTick(lo: int, hi: int, t: int)
    requires t >= 1
  {
    lo < TickAtMost(hi, t)
  }

  /** Zone 3 is wide enough for two slots. */
  predicate Wide(mid: int, t: int) { mid * 50 / 100 - mid * 30 / 100 >= 1000 * t }

  /** Zone 1 gets no slot, and either no order can be in zone 0 or none can be below it and above the catch-all. */
  predicate Vacant(mid: int, t: int)
    requires t >= 1
  {
    var p5, p15, p50 := mid * 5 / 100, mid * 15 / 100, mid * 50 / 100;
    && p15 - p5 < 5 * t
    && !(HasTick(mid - p50, mid - p5, t) && HasTick(mid - p5, mid + p5 - 1, t))
  }

  lemma BareMap(mid: int, t: int)
    requires Fits(mid, t) && mid * 15 / 100 - mid * 5 / 100 < 5 * t
    ensures Bare(NewMap(mid, t)) && !Wide(mid, t)
  {
    hide NewMap, PlainSlots;
    NewMapPlain(mid, t);
    PlainSlotsAre(mid, t);
    BareWidths(mid, t);
    BareCounts(NewMap(mid, t), mid * 5 / 100, mid * 15 / 100, mid * 30 / 100, mid * 50 / 100);
  }

  lemma BareWidths(mid: int, t: int)
    requires mid > 0 && t >= 1 && mid * 15 / 100 - mid * 5 / 100 < 5 * t
    ensures var p5, p15, p30, p50 := mid * 5 / 100, mid * 15 / 100, mid * 30 / 100, mid * 50 / 100;
            && 0 <= p5 <= p15 <= p30 <= p50 < mid
            && p30 - p15 < 50 * t && p50 - p30 < 500 * t
  {
  }

  lemma BareCounts(m: CompressionMap, p5: int, p15: int, p30: int, p50: int)
    requires BackToBack(m) && m.thresholds == [p5, p15, p30, p50] && 0 <= p5 <= p15 <= p30 <= p50 < m.mid
    requires var t := m.tick;
             && m.zoneSlots[0] == 2 * ((p5 + t - 1) / t) < NONE && m.zoneSlots[1] == (p15 - p5) * 2 / (10 * t)
             && m.zoneSlots[2] == (p30 - p15) * 2 / (100 * t) && m.zoneSlots[3] == (p50 - p30) * 2 / (1000 * t)
             && p15 - p5 < 5 * t && p30 - p15 < 50 * t && p50 - p30 < 500 * t
    ensures Bare(m)
  {
    var t := m.tick;
    NoSlot(p15 - p5, 10 * t);
    NoSlot(p30 - p15, 100 * t);
    NoSlot(p50 - p30, 1000 * t);
  }

  lemma NoSlot(x: int, s: int)
    requires s >= 1 && 0 <= x * 2 < s
    ensures x * 2 / s == 0
  {
    DivUnique(x * 2, 0, x * 2, s);
  }

  /** On a bare map the order is recovered exactly when no stray order can meet one of zone 0. */
  lemma BareExactly(mid: int, t: int)
    requires Fits(mid, t) && mid * 15 / 100 - mid * 5 / 100 < 5 * t
    ensures Shaped(NewMap(mid, t)) && (OrderRecovered(NewMap(mid, t)) <==> Vacant(mid, t))
    ensures !Vacant(mid, t) ==> ScanMissesBest(NewMap(mid, t))
  {
    hide NewMap, PriceToIndex, Fits, PriceAsc, UpFirst, DownFirst, FoundDown, Bare, Half, Offset, TickAtMost;
    NewMapPlain(mid, t);
    BareMap(mid, t);
    var m := NewMap(mid, t);
    BareParts(m);
    var p5, p50 := mid * 5 / 100, mid * 50 / 100;
    TickAtMostIs(mid - p5, t);
    TickAtMostIs(mid + p5 - 1, t);
    if Vacant(mid, t) {
      forall p, q | p < q && OnGrid(p, m.tick) && OnGrid(q, m.tick) ensures PlacedInOrder(m, p, q) {
        BarePlaces(m, p, q);
      }
    } else {
      var p, q := TickAtMost(mid - p5, t), TickAtMost(mid + p5 - 1, t);
      BareStray(m, p, q);
    }
  }

  /** Two orders on the grid for which the first slot a scan down meets does not hold the best price. */
  ghost predicate ScanMissesBest(m: CompressionMap)
    requires Shaped(m)
  {
    exists p, q | p < q && OnGrid(p, m.tick) && OnGrid(q, m.tick) ::
      BestMissed(m, p, q)
  }

  /** With buys at `p < q` alone the scan for the best bid returns the slot of `p`, which `q` is not in. */
  ghost predicate BestMissed(m: CompressionMap, p: int, q: int)
    requires Shaped(m)
  {
    && PriceToIndex(m, p) != PriceToIndex(m, q)
    && FoundDown(PriceAsc(m), {PriceToIndex(m, q), PriceToIndex(m, p)}, PriceToIndex(m, p))
    && !PlacedInOrder(m, p, q)
  }

  lemma BareStray(m: CompressionMap, p: int, q: int)
    requires Bare(m) && Stray(m, p) && Core(m, q)
    ensures BestMissed(m, p, q)
  {
    hide PriceToIndex, PriceAsc, FoundDown, UpFirst, DownFirst, Offset;
    BareSlot(m, p);
    BareSlot(m, q);
    BareRanges(m);
    BareOffset(m, Distance(m, q));
    assert Collapsed(m, 1) && m.base[1] == m.base[4];
    CollapsedFirst(m, 1, PriceToIndex(m, q));
  }

  // ---------------------------------------------------------------------
  // Maps that give zone 1 a slot but zone 3 not two.

  /** The zone from which on prices have no slots of their own. */
  function FirstCollapsed(m: CompressionMap): nat
    requires Shaped(m)
  {
    if m.zoneSlots[1] <= 1 then 1 else if m.zoneSlots[2] <= 1 then 2 else 3
  }

  lemma OneSlot(x: int, s: int)
    requires s >= 1 && x >= 0
    ensures x * 2 / s >= 1 <==> x * 2 >= s
    ensures x * 2 / s >= 0
  {
    DivNonNeg(x * 2, s);
    DivUnique(s, 1, 0, s);
    if x * 2 >= s { DivMonotone(s, x * 2, s); } else { DivUnique(x * 2, 0, x * 2, s); }
  }

  lemma SplitWidths(mid: int, t: int)
    requires t >= 1 && mid * 15 / 100 - mid * 5 / 100 >= 5 * t
    ensures var p5, p15, p30, p50 := mid * 5 / 100, mid * 15 / 100, mid * 30 / 100, mid * 50 / 100;
            && t <= p5 && p5 + t <= p15 && p15 + t <= p30 && p30 + t <= p50 < mid
            && (p15 - p5 < 10 * t ==> p30 - p15 < 50 * t)
            && (p30 - p15 < 50 * t ==> p50 - p30 < 500 * t)
  {
  }

  /** The widths of such a map, and that each zone and zone 0 reach a tick. */
  lemma SplitMap(mid: int, t: int)
    requires Fits(mid, t) && mid * 15 / 100 - mid * 5 / 100 >= 5 * t && !Wide(mid, t)
    ensures var m := NewMap(mid, t);
            && Shaped(m) && m.mid == mid && m.tick == t
            && Collapsed(m, FirstCollapsed(m))
            && t <= m.thresholds[0] && m.thresholds[0] < m.thresholds[1] < m.thresholds[2] < m.thresholds[3] < m.mid
            && m.thresholds[FirstCollapsed(m) - 1] + t <= m.thresholds[FirstCollapsed(m)]
            && Half(m, 0) >= 1
  {
    hide NewMap, PlainSlots;
    NewMapPlain(mid, t);
    SplitWidths(mid, t);
    PlainSlotsAre(mid, t);
    SplitCounts(NewMap(mid, t), mid * 5 / 100, mid * 15 / 100, mid * 30 / 100, mid * 50 / 100);
  }

  lemma SplitCounts(m: CompressionMap, p5: int, p15: int, p30: int, p50: int)
    requires Shaped(m) && m.thresholds == [p5, p15, p30, p50] && m.zoneSlots[4] == 2
    requires var t := m.tick;
             && m.zoneSlots[0] == 2 * ((p5 + t - 1) / t) && m.zoneSlots[1] == (p15 - p5) * 2 / (10 * t)
             && m.zoneSlots[2] == (p30 - p15) * 2 / (100 * t) && m.zoneSlots[3] == (p50 - p30) * 2 / (1000 * t)
             && t <= p5 && p5 + t <= p15 && p15 + t <= p30 && p30 + t <= p50
             && 5 * t <= p15 - p5 && p50 - p30 < 1000 * t
             && (p15 - p5 < 10 * t ==> p30 - p15 < 50 * t)
             && (p30 - p15 < 50 * t ==> p50 - p30 < 500 * t)
    requires BackToBack(m)
    ensures Collapsed(m, FirstCollapsed(m)) && Half(m, 0) >= 1
    ensures m.thresholds[FirstCollapsed(m) - 1] + m.tick <= m.thresholds[FirstCollapsed(m)]
  {
    var t := m.tick;
    OneSlot(p15 - p5, 10 * t);
    OneSlot(p30 - p15, 100 * t);
    OneSlot(p50 - p30, 1000 * t);
    AtLeastTwo(p15 - p5, 10 * t);
    AtLeastTwo(p30 - p15, 100 * t);
    AtLeastTwo(p50 - p30, 1000 * t);
    DivUnique(t, 1, 0, t);
    DivMonotone(t, p5 + t - 1, t);
  }

  lemma PlainSlotsAre(mid: int, t: int)
    requires t >= 1
    ensures var p5, p15, p30, p50 := mid * 5 / 100, mid * 15 / 100, mid * 30 / 100, mid * 50 / 100;
            PlainSlots(mid, t) == (2 * ((p5 + t - 1) / t), (p15 - p5) * 2 / (10 * t), (p30 - p15) * 2 / (100 * t),
                                   (p50 - p30) * 2 / (1000 * t))
  {
  }

  /** A price of a collapsed zone below mid goes to the zone's first slot, one near mid to zone 0. */
  lemma SplitSlots(m: CompressionMap, a: nat, p: int, q: int)
    requires Collapsed(m, a) && m.zoneSlots[a] <= 1 && Half(m, 0) >= 1
    requires 0 < m.thresholds[0] < m.thresholds[1] < m.thresholds[2] < m.thresholds[3]
    requires m.mid - m.thresholds[a] < p <= m.mid - m.thresholds[a - 1] && Distance(m, q) < m.thresholds[0]
    ensures PriceToIndex(m, p) == m.base[a] && PriceToIndex(m, q) < m.base[a]
  {
    BasesGrow(m, 1, a);
  }

  lemma SplitStray(mid: int, t: int)
    requires Fits(mid, t) && mid * 15 / 100 - mid * 5 / 100 >= 5 * t && !Wide(mid, t)
    ensures Shaped(NewMap(mid, t)) && !OrderRecovered(NewMap(mid, t)) && ScanMissesBest(NewMap(mid, t))
  {
    hide NewMap, PriceToIndex, Fits, PriceAsc, UpFirst, DownFirst, FoundDown, Collapsed, Half, TickAtMost;
    SplitMap(mid, t);
    var m := NewMap(mid, t);
    var a := FirstCollapsed(m);
    var p, q := TickAtMost(mid - m.thresholds[a - 1], t), TickAtMost(mid, t);
    TickAtMostIs(mid - m.thresholds[a - 1], t);
    TickAtMostIs(mid, t);
    CollapsedAt(m, a);
    SplitSlots(m, a, p, q);
    CollapsedFirst(m, a, PriceToIndex(m, q));
    assert BestMissed(m, p, q);
  }

  lemma CollapsedAt(m: CompressionMap, a: nat)
    requires Collapsed(m, a)
    ensures 1 <= a <= 3 && m.zoneSlots[a] <= 1
  {
  }

  /**
   * For every middle price and tick that fit: orders on the grid are met in price order exactly when
   * zone 3 has its two slots, or no order can be where the order would be lost.
   */
  lemma OrderRecoveredExactly(mid: int, t: int)
    requires Fits(mid, t)
    ensures Shaped(NewMap(mid, t)) && (OrderRecovered(NewMap(mid, t)) <==> Wide(mid, t) || Vacant(mid, t))
  {
    hide NewMap, Fits, HasTick, OrderRecovered, ScanMissesBest;
    NewMapPlain(mid, t);
    if Wide(mid, t) {
      WideRecovers(mid, t);
    } else if mid * 15 / 100 - mid * 5 / 100 < 5 * t {
      BareExactly(mid, t);
    } else {
      SplitStray(mid, t);
    }
  }

  lemma WideRecovers(mid: int, t: int)
    requires Fits(mid, t) && Wide(mid, t)
    ensures Shaped(NewMap(mid, t)) && OrderRecovered(NewMap(mid, t))
  {
    hide NewMap, PlainSlots, PlacedInOrder, Regular;
    RegularWhenWide(mid, t);
    RegularShaped(NewMap(mid, t));
    forall p, q | p < q && OnGrid(p, t) && OnGrid(q, t) ensures PlacedInOrder(NewMap(mid, t), p, q) {
      RegularPlaces(NewMap(mid, t), p, q);
    }
    NewMapPlain(mid, t);
  }

  /** Wherever the order is lost, two orders on the grid show it to the book's own scan. */
  lemma LostOrderSeen(mid: int, t: int)
    requires Fits(mid, t) && !Wide(mid, t) && !Vacant(mid, t)
    ensures Shaped(NewMap(mid, t)) && ScanMissesBest(NewMap(mid, t))
  {
    hide NewMap, Fits, HasTick, OrderRecovered, ScanMissesBest;
    if mid * 15 / 100 - mid * 5 / 100 < 5 * t { BareExactly(mid, t); } else { SplitStray(mid, t); }
  }
}
