/** The five-zone map that folds raw prices into slot indices. */
module Compression {
  import opened Types

  datatype CompressionMap = CompressionMap(
    mid: int, thresholds: seq<int>, compressions: seq<nat>,
    base: seq<nat>, zoneSlots: seq<nat>, tick: int)

  /** Division that truncates toward zero. */
  function TruncDiv(a: int, b: int): int
    requires b > 0
  {
    if a >= 0 then a / b else -((-a) / b)
  }

  function Max(a: int, b: int): int { if a < b then b else a }

  function Min(a: int, b: int): int { if a < b then a else b }

  function AsU32(a: int): nat { a % U32_MODULUS }

  /** `pct` percent of `mid`, or the fallback where the product leaves `i64`. */
  function Percent(mid: int, pct: int): int {
    if -I64_MAX - 1 <= mid * pct <= I64_MAX then TruncDiv(mid * pct, 100) else I64_MAX / 100
  }

  /** Slots of zone 0: ceiling division, so that an edge price keeps its own slot. */
  function ZoneZeroSlots(pct5: int, t: int): nat
    requires t >= 1
  {
    AsU32(Max(TruncDiv(Max(pct5, 0) + t - 1, t) * 2, 0))
  }

  /** Slots of an outer zone spanning raw distances `[inner, outer)`. */
  function OuterZoneSlots(inner: int, outer: int, span: int): nat
    requires span >= 1
  {
    AsU32(Max(TruncDiv((outer - inner) * 2, span), 0))
  }

  function NewMap(mid: int, tickSize: int): (m: CompressionMap)
    ensures |m.thresholds| == 4 && |m.compressions| == |m.base| == |m.zoneSlots| == 5 && m.tick >= 1
  {
    var p5, p15, p30, p50 := Percent(mid, 5), Percent(mid, 15), Percent(mid, 30), Percent(mid, 50);
    var t := Max(tickSize, 1);
    var z0 := ZoneZeroSlots(p5, t);
    var z1 := OuterZoneSlots(p5, p15, 10 * t);
    var z2 := OuterZoneSlots(p15, p30, 100 * t);
    var z3 := OuterZoneSlots(p30, p50, 1000 * t);
    CompressionMap(mid, [p5, p15, p30, p50], [1, 10, 100, 1000, 1],
                   [0, z0, z0 + z1, z0 + z1 + z2, z0 + z1 + z2 + z3], [z0, z1, z2, z3, 2], t)
  }

  predicate Shaped(m: CompressionMap) {
    && |m.thresholds| == 4 && |m.compressions| == |m.base| == |m.zoneSlots| == 5
    && m.tick >= 1
    && m.compressions == [1, 10, 100, 1000, 1]
  }

  function Distance(m: CompressionMap, price: int): nat {
    if price >= m.mid then price - m.mid else m.mid - price
  }

  predicate IsBidSide(m: CompressionMap, price: int) { price < m.mid }

  function Zone(m: CompressionMap, price: int): (z: nat)
    requires Shaped(m)
    ensures z <= 4
  {
    var d := Distance(m, price);
    if d < m.thresholds[1] then
      (if d < m.thresholds[0] then 0 else 1)
    else if d < m.thresholds[2] then 2
    else if d < m.thresholds[3] then 3
    else 4
  }

  function ZoneStart(m: CompressionMap, z: nat): int
    requires Shaped(m) && z <= 4
  {
    if z == 0 then 0 else m.thresholds[z - 1]
  }

  function Half(m: CompressionMap, z: nat): nat
    requires Shaped(m) && z <= 4
  {
    m.zoneSlots[z] / 2
  }

  /** Offset of a raw distance inside half a zone, clamped to its last slot. */
  function Offset(m: CompressionMap, z: nat, d: int): int
    requires Shaped(m) && z <= 3
  {
    Min(AsU32(TruncDiv(d - ZoneStart(m, z), Span(m, z))), Half(m, z) - 1)
  }

  function PriceToIndex(m: CompressionMap, price: int): int
    requires Shaped(m)
  {
    var z := Zone(m, price);
    if z == 4 then
      m.base[4] + (if IsBidSide(m, price) then 1 else 0)
    else if Half(m, z) == 0 then
      m.base[z]
    else if IsBidSide(m, price) then
      m.base[z] + Half(m, z) - 1 - Offset(m, z, Distance(m, price))
    else
      m.base[z] + Half(m, z) + Offset(m, z, Distance(m, price))
  }

  function TotalSlots(m: CompressionMap): nat
    requires Shaped(m)
  {
    m.zoneSlots[0] + m.zoneSlots[1] + m.zoneSlots[2] + m.zoneSlots[3] + m.zoneSlots[4]
  }

  function MinPrice(m: CompressionMap): int
    requires Shaped(m)
  {
    m.mid - m.thresholds[3]
  }

  function MaxPrice(m: CompressionMap): int
    requires Shaped(m)
  {
    m.mid + m.thresholds[3]
  }

  // ---------------------------------------------------------------------
  // Regular maps: every zone keeps both of its halves and no count wraps.

  /** The layout: ordered thresholds, both halves present, zones back to back. */
  predicate Laid(m: CompressionMap) {
    && Shaped(m)
    && 0 < m.thresholds[0] < m.thresholds[1] < m.thresholds[2] < m.thresholds[3] < m.mid
    && Half(m, 0) >= 1 && Half(m, 1) >= 1 && Half(m, 2) >= 1 && Half(m, 3) >= 1
    && m.zoneSlots[4] == 2
    && m.base[0] == 0
    && m.base[1] == m.zoneSlots[0]
    && m.base[2] == m.base[1] + m.zoneSlots[1]
    && m.base[3] == m.base[2] + m.zoneSlots[2]
    && m.base[4] == m.base[3] + m.zoneSlots[3]
    && TotalSlots(m) < NONE
  }

  /** The raw price one slot of zone `z` spans. */
  function Span(m: CompressionMap, z: nat): (s: int)
    requires Shaped(m) && z <= 3
    ensures s >= 1
  {
    m.compressions[z] * m.tick
  }

  /** The slot counts are the ones the thresholds ask for. */
  predicate Counted(m: CompressionMap)
    requires Shaped(m)
  {
    && m.zoneSlots[0] == 2 * ((m.thresholds[0] + m.tick - 1) / m.tick)
    && forall z | 1 <= z <= 3 :: m.zoneSlots[z] == ((m.thresholds[z] - m.thresholds[z - 1]) * 2) / Span(m, z)
  }

  predicate Regular(m: CompressionMap) { Laid(m) && Counted(m) }

  lemma RegularShaped(m: CompressionMap)
    requires Regular(m)
    ensures Shaped(m) && TotalSlots(m) < NONE
  {
  }

  lemma MulMonotone(s: int, x: int, y: int)
    requires s >= 0
    ensures x >= y ==> s * x >= s * y
  {
    if x >= y {
      assert s * x == s * y + s * (x - y);
    }
  }

  lemma DivMonotone(a: int, b: int, s: int)
    requires a <= b && s >= 1
    ensures a / s <= b / s
  {
    var x, y := a / s, b / s;
    assert s * x <= a && b < s * y + s;
    MulMonotone(s, x, y + 1);
    assert s * (y + 1) == s * y + s;
  }

  lemma DivNonNeg(a: int, s: int)
    requires a >= 0 && s >= 1
    ensures a / s >= 0
  {
    DivMonotone(0, a, s);
  }

  /** The raw distance a zone's slot count is computed from. */
  function Extent(m: CompressionMap, z: nat): int
    requires Shaped(m) && z <= 3
  {
    if z == 0 then m.thresholds[0] + m.tick - 1 else (m.thresholds[z] - m.thresholds[z - 1]) * 2
  }

  lemma ExtentSlots(m: CompressionMap, z: nat)
    requires Regular(m) && z <= 3
    ensures Extent(m, z) / Span(m, z) <= m.zoneSlots[z] < NONE
  {
    DivNonNeg(m.thresholds[0] + m.tick - 1, m.tick);
  }

  lemma ExtentCovers(m: CompressionMap, z: nat, d: int)
    requires Laid(m) && z <= 3 && ZoneStart(m, z) <= d < m.thresholds[z]
    ensures 0 <= d - ZoneStart(m, z) <= Extent(m, z)
  {
  }

  /** Inside its zone a raw distance divides without wrapping a `u32`. */
  lemma OffsetPlain(m: CompressionMap, z: nat, d: int)
    requires Regular(m) && z <= 3
    requires ZoneStart(m, z) <= d < m.thresholds[z]
    ensures 0 <= (d - ZoneStart(m, z)) / Span(m, z)
    ensures Offset(m, z, d) == Min((d - ZoneStart(m, z)) / Span(m, z), Half(m, z) - 1)
  {
    hide Counted, Laid, ZoneStart, Span, Half, Extent;
    RegularShaped(m);
    ExtentCovers(m, z, d);
    ExtentSlots(m, z);
    var x, s := d - ZoneStart(m, z), Span(m, z);
    DivNonNeg(x, s);
    DivMonotone(x, Extent(m, z), s);
  }

  lemma OffsetBounds(m: CompressionMap, z: nat, d: int)
    requires Regular(m) && z <= 3
    requires ZoneStart(m, z) <= d < m.thresholds[z]
    ensures 0 <= Offset(m, z, d) < Half(m, z)
  {
    OffsetPlain(m, z, d);
  }

  lemma ZoneBounds(m: CompressionMap, price: int)
    requires Regular(m)
    ensures var z, d := Zone(m, price), Distance(m, price);
            && ZoneStart(m, z) <= d
            && (z < 4 ==> d < m.thresholds[z])
  {
  }

  // ---------------------------------------------------------------------
  // Price order recovered from the sawtooth.

  /** Index sub-range of the slots below mid in zone `z`. */
  function BidRegion(m: CompressionMap, z: nat): (nat, nat)
    requires Shaped(m) && z <= 4
  {
    var base, slots := m.base[z], m.zoneSlots[z];
    if z == 4 then (base + 1, base + slots)
    else if slots / 2 == 0 then (base, base + slots)
    else (base, base + slots / 2)
  }

  /** Index sub-range of the slots at or above mid in zone `z`. */
  function AskRegion(m: CompressionMap, z: nat): (nat, nat)
    requires Shaped(m) && z <= 4
  {
    var base, slots := m.base[z], m.zoneSlots[z];
    if z == 4 then (base, base + 1)
    else if slots / 2 == 0 then (base, base + slots)
    else (base + slots / 2, base + slots)
  }

  /** Ranges below mid of zones `z, z-1, .., 0`, keeping the non-empty ones. */
  function BidRanges(m: CompressionMap, z: int): seq<(nat, nat)>
    requires Shaped(m) && -1 <= z <= 4
    decreases z + 1
  {
    if z < 0 then []
    else (if BidRegion(m, z).0 < BidRegion(m, z).1 then [BidRegion(m, z)] else []) + BidRanges(m, z - 1)
  }

  /** Ranges at or above mid of zones `0, 1, .., z-1`, keeping the non-empty ones. */
  function AskRanges(m: CompressionMap, z: nat): seq<(nat, nat)>
    requires Shaped(m) && z <= 5
  {
    if z == 0 then []
    else AskRanges(m, z - 1)
         + (if AskRegion(m, z - 1).0 < AskRegion(m, z - 1).1 then [AskRegion(m, z - 1)] else [])
  }

  function PriceAsc(m: CompressionMap): seq<(nat, nat)>
    requires Shaped(m)
  {
    BidRanges(m, 4) + AskRanges(m, 5)
  }

  method BuildPriceAsc(m: CompressionMap) returns (v: seq<(nat, nat)>)
    requires Shaped(m)
    ensures v == PriceAsc(m)
  {
    hide BidRegion, AskRegion;
    v := [];
    for z := 5 downto 0
      invariant v + BidRanges(m, z - 1) == BidRanges(m, 4)
    {
      var r := BidRegion(m, z);
      ghost var rest := BidRanges(m, z - 1);
      if r.0 < r.1 {
        assert v + ([r] + rest) == (v + [r]) + rest;
        v := v + [r];
      } else {
        assert [] + rest == rest;
      }
    }
    ghost var bids := v;
    assert bids + BidRanges(m, -1) == bids;
    for z := 0 to 5
      invariant v == bids + AskRanges(m, z)
    {
      var r := AskRegion(m, z);
      ghost var done := AskRanges(m, z);
      if r.0 < r.1 {
        assert (bids + done) + [r] == bids + (done + [r]);
        v := v + [r];
      } else {
        assert done + [] == done;
      }
    }
  }

  /** The sub-range, counted from the lowest price band, that a price falls in. */
  function Band(m: CompressionMap, price: int): (k: nat)
    requires Shaped(m)
    ensures k <= 9
  {
    if IsBidSide(m, price) then 4 - Zone(m, price) else 5 + Zone(m, price)
  }

  /** The range of band `k`: zone 4 below mid first, zone 4 above mid last. */
  function BandRange(m: CompressionMap, k: nat): (nat, nat)
    requires Shaped(m) && k <= 9
  {
    if k <= 4 then BidRegion(m, 4 - k) else AskRegion(m, k - 5)
  }

  lemma {:induction false} BidRangesFull(m: CompressionMap, z: int)
    requires Laid(m) && -1 <= z <= 4
    ensures |BidRanges(m, z)| == z + 1
    ensures forall k | 0 <= k <= z :: BidRanges(m, z)[k] == BidRegion(m, z - k)
    decreases z + 1
  {
    hide BidRegion, Half;
    if z >= 0 {
      RegionHalves(m, z);
      BidRangesFull(m, z - 1);
    }
  }

  lemma {:induction false} AskRangesFull(m: CompressionMap, z: nat)
    requires Laid(m) && z <= 5
    ensures |AskRanges(m, z)| == z
    ensures forall k | 0 <= k < z :: AskRanges(m, z)[k] == AskRegion(m, k)
  {
    if z > 0 { AskRangesFull(m, z - 1); }
  }

  lemma PriceAscRegular(m: CompressionMap)
    requires Laid(m)
    ensures |PriceAsc(m)| == 10
    ensures forall k | 0 <= k <= 9 :: PriceAsc(m)[k] == BandRange(m, k)
  {
    BidRangesFull(m, 4);
    AskRangesFull(m, 5);
    hide BidRanges, AskRanges, BidRegion, AskRegion;
  }

  predicate InRange(r: (nat, nat), slot: int) { r.0 <= slot < r.1 }

  /** Every price has its slot inside its band's range. */
  lemma IndexInBand(m: CompressionMap, price: int)
    requires Regular(m)
    ensures |PriceAsc(m)| == 10
    ensures InRange(PriceAsc(m)[Band(m, price)], PriceToIndex(m, price))
    ensures 0 <= PriceToIndex(m, price) < TotalSlots(m)
  {
    PriceAscRegular(m);
    ZoneBounds(m, price);
    var z := Zone(m, price);
    if z < 4 {
      OffsetBounds(m, z, Distance(m, price));
    }
    hide PriceAsc, Counted, Offset, Distance;
  }

  /** The band whose range holds a slot. */
  function BandOf(m: CompressionMap, slot: nat): (k: nat)
    requires Shaped(m)
    ensures k <= 9
  {
    if slot < m.base[1] then (if slot < Half(m, 0) then 4 else 5)
    else if slot < m.base[2] then (if slot < m.base[1] + Half(m, 1) then 3 else 6)
    else if slot < m.base[3] then (if slot < m.base[2] + Half(m, 2) then 2 else 7)
    else if slot < m.base[4] then (if slot < m.base[3] + Half(m, 3) then 1 else 8)
    else if slot == m.base[4] then 9
    else 0
  }

  lemma BandRangeExact(m: CompressionMap, slot: nat, k: nat)
    requires Laid(m) && slot < TotalSlots(m) && k <= 9
    ensures InRange(BandRange(m, k), slot) <==> k == BandOf(m, slot)
  {
    hide Half, BidRegion, AskRegion;
    RegionHalves(m, 0);
    RegionHalves(m, 1);
    RegionHalves(m, 2);
    RegionHalves(m, 3);
    RegionHalves(m, 4);
  }

  lemma RegionHalves(m: CompressionMap, z: nat)
    requires Laid(m) && z <= 4
    ensures var base, end := m.base[z], m.base[z] + m.zoneSlots[z];
            && (z < 4 ==> BidRegion(m, z) == (base, base + Half(m, z)) && AskRegion(m, z) == (base + Half(m, z), end))
            && (z == 4 ==> BidRegion(m, z) == (base + 1, end) && AskRegion(m, z) == (base, base + 1))
            && 1 <= Half(m, z) < m.zoneSlots[z]
  {
  }

  /** The ranges are disjoint and cover every slot. */
  lemma RangesPartition(m: CompressionMap, slot: nat)
    requires Regular(m) && slot < TotalSlots(m)
    ensures |PriceAsc(m)| == 10
    ensures forall k | 0 <= k < 10 :: InRange(PriceAsc(m)[k], slot) <==> k == BandOf(m, slot)
  {
    PriceAscRegular(m);
    hide PriceAsc, Counted;
    forall k | 0 <= k < 10
      ensures InRange(PriceAsc(m)[k], slot) <==> k == BandOf(m, slot)
    {
      BandRangeExact(m, slot, k);
    }
  }

  lemma OffsetMonotone(m: CompressionMap, z: nat, d: int, e: int)
    requires Regular(m) && z <= 3
    requires ZoneStart(m, z) <= d <= e < m.thresholds[z]
    ensures Offset(m, z, d) <= Offset(m, z, e)
  {
    OffsetPlain(m, z, d);
    OffsetPlain(m, z, e);
    DivMonotone(d - ZoneStart(m, z), e - ZoneStart(m, z), Span(m, z));
  }

  /** Walking the ranges in order, and each by ascending index, follows the price. */
  lemma SawtoothOrder(m: CompressionMap, p: int, q: int)
    requires Regular(m) && p < q
    ensures Band(m, p) < Band(m, q)
            || (Band(m, p) == Band(m, q) && PriceToIndex(m, p) <= PriceToIndex(m, q))
  {
    ZoneBounds(m, p);
    ZoneBounds(m, q);
    if Band(m, p) == Band(m, q) && Zone(m, p) < 4 {
      if IsBidSide(m, q) {
        OffsetMonotone(m, Zone(m, p), Distance(m, q), Distance(m, p));
      } else {
        OffsetMonotone(m, Zone(m, p), Distance(m, p), Distance(m, q));
      }
    }
  }

  /** A slot index below the zone-0 edge belongs to a zone-0 price. */
  lemma ZoneZeroPrice(m: CompressionMap, p: int)
    requires Regular(m) && PriceToIndex(m, p) < m.zoneSlots[0]
    ensures Zone(m, p) == 0
  {
    hide Counted, Offset;
    IndexInBand(m, p);
    PriceAscRegular(m);
  }

  /** No zone-0 distance is clamped. */
  lemma ZoneZeroOffset(m: CompressionMap, d: int)
    requires Regular(m) && 0 <= d < m.thresholds[0]
    ensures Offset(m, 0, d) == d / m.tick
  {
    OffsetPlain(m, 0, d);
    var half, t := (m.thresholds[0] + m.tick - 1) / m.tick, m.tick;
    assert Half(m, 0) == half;
    assert Span(m, 0) == t;
    assert d + t <= m.thresholds[0] + t - 1;
    hide *;
    DivMonotone(d + t, m.thresholds[0] + t - 1, t);
    DivStep(d, t);
  }

  lemma DivUnique(a: int, q: int, r: int, t: int)
    requires 0 <= r < t && a == t * q + r
    ensures a / t == q
  {
    var x := a / t;
    assert t * x <= a < t * x + t;
    MulMonotone(t, x, q + 1);
    MulMonotone(t, q, x + 1);
    assert t * (q + 1) == t * q + t && t * (x + 1) == t * x + t;
  }

  lemma DivStep(d: int, t: int)
    requires t >= 1
    ensures (d + t) / t == d / t + 1
  {
    assert t * (d / t + 1) == t * (d / t) + t;
    DivUnique(d + t, d / t + 1, d % t, t);
  }

  lemma SameQuotient(d: nat, e: nat, k: int, t: int)
    requires t >= 1 && d / t == e / t && d - e == k * t
    ensures d == e
  {
    MulMonotone(t, k, 1);
    MulMonotone(t, -1, k);
    assert t * 1 == t && t * -1 == -t && k * t == t * k;
    assert d - e == d % t - e % t;
  }

  /** Zone 0 gives every tick-aligned price a slot of its own, mid aligned or not. */
  lemma ZoneZeroInjective(m: CompressionMap, p: int, q: int)
    requires Regular(m)
    requires p % m.tick == 0 && q % m.tick == 0
    requires PriceToIndex(m, p) == PriceToIndex(m, q) < m.zoneSlots[0]
    ensures p == q
  {
    hide *;
    ZoneZeroQuotients(m, p, q);
    SameTickSlot(p, q, Distance(m, p), Distance(m, q), m.tick);
  }

  lemma SameTickSlot(p: int, q: int, d: nat, e: nat, t: int)
    requires t >= 1 && p % t == 0 && q % t == 0
    requires d / t == e / t && (d - e == p - q || d - e == q - p)
    ensures p == q
  {
    AlignedDifference(p, q, t);
    if d - e == p - q {
      SameQuotient(d, e, p / t - q / t, t);
    } else {
      SameQuotient(d, e, q / t - p / t, t);
    }
  }

  lemma ZoneZeroQuotients(m: CompressionMap, p: int, q: int)
    requires Regular(m)
    requires PriceToIndex(m, p) == PriceToIndex(m, q) < m.zoneSlots[0]
    ensures m.tick >= 1
    ensures Distance(m, p) - Distance(m, q) == p - q || Distance(m, p) - Distance(m, q) == q - p
    ensures Distance(m, p) / m.tick == Distance(m, q) / m.tick
  {
    ZoneZeroPrice(m, p);
    ZoneZeroPrice(m, q);
    OffsetBounds(m, 0, Distance(m, p));
    OffsetBounds(m, 0, Distance(m, q));
    SameZoneZeroSlot(m, p, q);
    ZoneZeroOffset(m, Distance(m, p));
    ZoneZeroOffset(m, Distance(m, q));
  }

  lemma AlignedDifference(p: int, q: int, t: int)
    requires t >= 1 && p % t == 0 && q % t == 0
    ensures (p / t - q / t) * t == p - q && (q / t - p / t) * t == q - p
  {
    assert p == (p / t) * t && q == (q / t) * t;
    assert (p / t - q / t) * t == (p / t) * t - (q / t) * t;
    assert (q / t - p / t) * t == (q / t) * t - (p / t) * t;
  }

  lemma SameZoneZeroSlot(m: CompressionMap, p: int, q: int)
    requires Laid(m) && Zone(m, p) == Zone(m, q) == 0
    requires 0 <= Offset(m, 0, Distance(m, p)) < Half(m, 0)
    requires 0 <= Offset(m, 0, Distance(m, q)) < Half(m, 0)
    requires PriceToIndex(m, p) == PriceToIndex(m, q)
    ensures IsBidSide(m, p) == IsBidSide(m, q)
    ensures Offset(m, 0, Distance(m, p)) == Offset(m, 0, Distance(m, q))
  {
    hide Offset;
  }

  // ---------------------------------------------------------------------
  // The tick grid.

  /** Aligned values below an aligned bound are a whole tick below it. */
  lemma NextTick(p: int, q: int, tick: int)
    requires tick >= 1 && p % tick == 0 && q % tick == 0 && p < q
    ensures p <= q - tick
  {
    var k, l := p / tick, q / tick;
    assert p == tick * k && q == tick * l;
    if k >= l { MulMonotone(tick, k, l); }
    MulMonotone(tick, l - 1, k);
    assert tick * (l - 1) == q - tick;
  }

  lemma TickBelow(a: int, tick: int)
    requires tick >= 1 && a % tick == 0
    ensures (a - tick) % tick == 0 && (a + tick) % tick == 0
  {
    var k := a / tick;
    assert a == tick * k;
    Multiple(k - 1, tick);
    Multiple(k + 1, tick);
    assert tick * (k - 1) == a - tick && tick * (k + 1) == a + tick;
  }

  lemma Multiple(k: int, tick: int)
    requires tick >= 1
    ensures (tick * k) % tick == 0
  {
    DivUnique(tick * k, k, 0, tick);
  }

  // ---------------------------------------------------------------------
  // Which maps are regular.

  /** The slot counts of `NewMap` before any cast to `u32`. */
  function PlainSlots(mid: int, t: int): (int, int, int, int)
    requires t >= 1
  {
    var p5, p15, p30, p50 := mid * 5 / 100, mid * 15 / 100, mid * 30 / 100, mid * 50 / 100;
    (2 * ((p5 + t - 1) / t), (p15 - p5) * 2 / (10 * t), (p30 - p15) * 2 / (100 * t), (p50 - p30) * 2 / (1000 * t))
  }

  /** A positive mid, a positive tick, and a slot total that fits in a `u32`. */
  predicate Fits(mid: int, t: int) {
    && 0 < mid && 1 <= t && mid * 50 <= I64_MAX
    && var z := PlainSlots(mid, t);
       z.0 + z.1 + z.2 + z.3 + 2 < NONE
  }

  lemma PlainSlotsNonNeg(mid: int, t: int)
    requires 0 < mid && t >= 1
    ensures var z := PlainSlots(mid, t); z.0 >= 0 && z.1 >= 0 && z.2 >= 0 && z.3 >= 0
  {
    var p5, p15, p30, p50 := mid * 5 / 100, mid * 15 / 100, mid * 30 / 100, mid * 50 / 100;
    DivNonNeg(p5 + t - 1, t);
    DivNonNeg((p15 - p5) * 2, 10 * t);
    DivNonNeg((p30 - p15) * 2, 100 * t);
    DivNonNeg((p50 - p30) * 2, 1000 * t);
  }

  lemma PercentPlain(mid: int, pct: int)
    requires 0 < mid && 0 < pct <= 50 && mid * 50 <= I64_MAX
    ensures Percent(mid, pct) == mid * pct / 100
  {
    MulMonotone(mid, 50, pct);
    MulMonotone(mid, pct, 0);
  }

  lemma CastPlain(x: int)
    requires 0 <= x < NONE
    ensures AsU32(Max(x, 0)) == x
  {
  }

  /** Where everything fits, `NewMap` is the plain arithmetic. */
  lemma NewMapPlain(mid: int, t: int)
    requires Fits(mid, t)
    ensures var m, z := NewMap(mid, t), PlainSlots(mid, t);
            && m.mid == mid && m.tick == t && Shaped(m)
            && m.thresholds == [mid * 5 / 100, mid * 15 / 100, mid * 30 / 100, mid * 50 / 100]
            && m.zoneSlots == [z.0, z.1, z.2, z.3, 2]
            && m.base == [0, z.0, z.0 + z.1, z.0 + z.1 + z.2, z.0 + z.1 + z.2 + z.3]
  {
    PercentPlain(mid, 5);
    PercentPlain(mid, 15);
    PercentPlain(mid, 30);
    PercentPlain(mid, 50);
    PlainCasts(mid, t);
    hide PlainSlots, Percent, ZoneZeroSlots, OuterZoneSlots, Fits;
  }

  lemma PlainCasts(mid: int, t: int)
    requires Fits(mid, t)
    ensures var p5, p15, p30, p50 := mid * 5 / 100, mid * 15 / 100, mid * 30 / 100, mid * 50 / 100;
            PlainSlots(mid, t) == (ZoneZeroSlots(p5, t), OuterZoneSlots(p5, p15, 10 * t),
                                   OuterZoneSlots(p15, p30, 100 * t), OuterZoneSlots(p30, p50, 1000 * t))
  {
    PlainSlotsNonNeg(mid, t);
    var z := PlainSlots(mid, t);
    hide AsU32;
    CastPlain(z.0);
    CastPlain(z.1);
    CastPlain(z.2);
    CastPlain(z.3);
  }

  lemma AtLeastTwo(x: int, s: int)
    requires s >= 1
    ensures x * 2 / s >= 2 <==> x >= s
  {
    DivUnique(s * 2, 2, 0, s);
    if x >= s {
      DivMonotone(s * 2, x * 2, s);
    } else {
      DivUnique(s * 2 - 1, 1, s - 1, s);
      DivMonotone(x * 2, s * 2 - 1, s);
    }
  }

  lemma RegularWhenWide(mid: int, t: int)
    requires Fits(mid, t) && mid * 50 / 100 - mid * 30 / 100 >= 1000 * t
    ensures Regular(NewMap(mid, t))
  {
    var p5, p15, p30, p50 := mid * 5 / 100, mid * 15 / 100, mid * 30 / 100, mid * 50 / 100;
    AtLeastTwo(p15 - p5, 10 * t);
    AtLeastTwo(p30 - p15, 100 * t);
    AtLeastTwo(p50 - p30, 1000 * t);
    DivUnique(t, 1, 0, t);
    DivMonotone(t, p5 + t - 1, t);
    NewMapPlain(mid, t);
    hide NewMap;
    CountedWhenPlain(mid, t);
  }

  lemma CountedWhenPlain(mid: int, t: int)
    requires Fits(mid, t)
    ensures Shaped(NewMap(mid, t)) && Counted(NewMap(mid, t))
  {
    hide NewMap, Fits, Counted, PlainSlots;
    NewMapPlain(mid, t);
    CountedFrom(NewMap(mid, t), mid, t);
  }

  lemma CountedFrom(m: CompressionMap, mid: int, t: int)
    requires Shaped(m) && m.tick == t >= 1
    requires m.thresholds == [mid * 5 / 100, mid * 15 / 100, mid * 30 / 100, mid * 50 / 100]
    requires var z := PlainSlots(mid, t); m.zoneSlots == [z.0, z.1, z.2, z.3, 2]
    ensures Counted(m)
  {
    hide Shaped;
    forall z | 1 <= z <= 3
      ensures m.zoneSlots[z] == ((m.thresholds[z] - m.thresholds[z - 1]) * 2) / Span(m, z)
    {
      SpanPlain(m, z);
    }
  }

  lemma SpanPlain(m: CompressionMap, z: nat)
    requires Shaped(m) && 1 <= z <= 3
    ensures Span(m, z) == if z == 1 then 10 * m.tick else if z == 2 then 100 * m.tick else 1000 * m.tick
  {
  }
}
