/** Exactly when the fill-or-kill pre-check counts what the match fills: it is decided in one slot. */
module FokGap {
  import opened Types
  import opened Compression
  import opened Arena
  import opened PriceTime
  import opened Arrangement
  import opened FokFacts
  import opened FokExact

  // ---------------------------------------------------------------------
  // The walk orders the slots.

  lemma StepsAsym(comp: CompressionMap, taker: Side, s: int, t: int)
    ensures StepsBefore(comp, taker, s, t) ==> !StepsBefore(comp, taker, t, s)
  {
    hide BandOf, Shaped;
  }

  lemma StepsTotal(comp: CompressionMap, taker: Side, s: int, t: int)
    requires Shaped(comp) && 0 <= s && 0 <= t
    ensures s == t || StepsBefore(comp, taker, s, t) || StepsBefore(comp, taker, t, s)
  {
    hide BandOf, Shaped;
  }

  lemma StepsTrans(comp: CompressionMap, taker: Side, s: int, t: int, u: int)
    requires StepsBefore(comp, taker, s, t) && StepsBefore(comp, taker, t, u)
    ensures StepsBefore(comp, taker, s, u)
  {
    hide BandOf, Shaped;
  }

  /** Slot by slot in the order of the walk. */
  ghost predicate Grouped(book: Book, comp: CompressionMap, taker: Side, q: seq<nat>) {
    && Resting(book, q)
    && forall i, j | 0 <= i < j < |q| ::
         var s, t := SlotOf(comp, book[q[i]].price), SlotOf(comp, book[q[j]].price);
         s == t || StepsBefore(comp, taker, s, t)
  }

  lemma ListedGrouped(book: Book, comp: CompressionMap, taker: Side, q: seq<nat>)
    requires Listed(book, comp, taker, q)
    ensures Grouped(book, comp, taker, q)
  {
    hide SlotOf, StepsBefore;
    forall i, j | 0 <= i < j < |q|
      ensures var s, t := SlotOf(comp, book[q[i]].price), SlotOf(comp, book[q[j]].price);
              s == t || StepsBefore(comp, taker, s, t)
    {
      assert Earlier(book, comp, taker, q[i], q[j]);
    }
  }

  /** No worse a price is in no later a slot. */
  lemma BetterSteps(comp: CompressionMap, taker: Side, p: int, q: int)
    requires Regular(comp) && Key(taker.Opposite(), p) <= Key(taker.Opposite(), q)
    ensures SlotOf(comp, p) == SlotOf(comp, q) || StepsBefore(comp, taker, SlotOf(comp, p), SlotOf(comp, q))
  {
    hide PriceToIndex, BandOf, Regular;
    RegularShaped(comp);
    if p < q { WalkFollowsPrice(comp, p, q); }
    if q < p { WalkFollowsPrice(comp, q, p); }
  }

  lemma OrderedGrouped(book: Book, comp: CompressionMap, taker: Side, q: seq<nat>)
    requires Regular(comp) && Ordered(book, q) && forall h | h in q :: book[h].side == taker.Opposite()
    ensures Grouped(book, comp, taker, q)
  {
    hide SlotOf, StepsBefore, Regular;
    forall i, j | 0 <= i < j < |q|
      ensures var s, t := SlotOf(comp, book[q[i]].price), SlotOf(comp, book[q[j]].price);
              s == t || StepsBefore(comp, taker, s, t)
    {
      assert Before(book[q[i]], book[q[j]]) && q[i] in q && q[j] in q;
      BetterSteps(comp, taker, book[q[i]].price, book[q[j]].price);
    }
  }

  // ---------------------------------------------------------------------
  // The makers of one slot within a list.

  /** The makers of `q` in slot `t`, in the order of `q`. */
  ghost function AtSlot(book: Book, comp: CompressionMap, q: seq<nat>, t: int): seq<nat>
    requires Resting(book, q)
  {
    if q == [] then []
    else (if SlotOf(comp, book[q[0]].price) == t then [q[0]] else []) + AtSlot(book, comp, q[1..], t)
  }

  lemma {:induction false} AtSlotMembers(book: Book, comp: CompressionMap, q: seq<nat>, t: int)
    requires Resting(book, q)
    ensures forall h :: h in AtSlot(book, comp, q, t) <==> h in q && SlotOf(comp, book[h].price) == t
    ensures Resting(book, AtSlot(book, comp, q, t)) && |AtSlot(book, comp, q, t)| <= |q|
    ensures Distinct(q) ==> Distinct(AtSlot(book, comp, q, t))
  {
    hide SlotOf;
    if q != [] {
      AtSlotMembers(book, comp, q[1..], t);
      assert forall h :: h in q <==> h == q[0] || h in q[1..];
      if Distinct(q) { TailDistinct(q); }
    }
  }

  lemma {:induction false} AtSlotAppend(book: Book, comp: CompressionMap, p: seq<nat>, q: seq<nat>, t: int)
    requires Resting(book, p) && Resting(book, q)
    ensures Resting(book, p + q) && AtSlot(book, comp, p + q, t) == AtSlot(book, comp, p, t) + AtSlot(book, comp, q, t)
  {
    hide SlotOf;
    if p == [] {
      assert p + q == q;
    } else {
      assert (p + q)[1..] == p[1..] + q;
      AtSlotAppend(book, comp, p[1..], q, t);
    }
  }

  lemma {:induction false} AtSlotWhole(book: Book, comp: CompressionMap, q: seq<nat>, t: int)
    requires Resting(book, q)
    ensures (forall h | h in q :: SlotOf(comp, book[h].price) == t) ==> AtSlot(book, comp, q, t) == q
    ensures (forall h | h in q :: SlotOf(comp, book[h].price) != t) ==> AtSlot(book, comp, q, t) == []
  {
    hide SlotOf;
    if q != [] {
      AtSlotWhole(book, comp, q[1..], t);
      assert forall h | h in q[1..] :: h in q;
      assert q[0] in q && q == [q[0]] + q[1..];
    }
  }

  /** How many makers at the front of `q` are in slots the walk reaches before `t`. */
  ghost function Ahead(book: Book, comp: CompressionMap, taker: Side, q: seq<nat>, t: int): nat
    requires Resting(book, q)
  {
    if q == [] || !StepsBefore(comp, taker, SlotOf(comp, book[q[0]].price), t) then 0
    else 1 + Ahead(book, comp, taker, q[1..], t)
  }

  /** A grouped list: the earlier slots, then slot `t`, then the rest. */
  ghost predicate SplitAt(book: Book, comp: CompressionMap, taker: Side, q: seq<nat>, t: int)
    requires Resting(book, q)
  {
    var i, c := Ahead(book, comp, taker, q, t), AtSlot(book, comp, q, t);
    && i + |c| <= |q| && q[i..i + |c|] == c
    && (forall h :: h in q[..i] <==> h in q && StepsBefore(comp, taker, SlotOf(comp, book[h].price), t))
  }

  lemma GroupedTail(book: Book, comp: CompressionMap, taker: Side, q: seq<nat>)
    requires Grouped(book, comp, taker, q) && q != []
    ensures Grouped(book, comp, taker, q[1..])
    ensures forall h | h in q[1..] ::
              var s, t := SlotOf(comp, book[q[0]].price), SlotOf(comp, book[h].price);
              s == t || StepsBefore(comp, taker, s, t)
  {
    hide SlotOf, StepsBefore;
    var p := q[1..];
    forall i, j | 0 <= i < j < |p|
      ensures var s, t := SlotOf(comp, book[p[i]].price), SlotOf(comp, book[p[j]].price);
              s == t || StepsBefore(comp, taker, s, t)
    {
      assert p[i] == q[i + 1] && p[j] == q[j + 1];
    }
    forall h | h in p
      ensures var s, t := SlotOf(comp, book[q[0]].price), SlotOf(comp, book[h].price);
              s == t || StepsBefore(comp, taker, s, t)
    {
      var j :| 0 <= j < |p| && p[j] == h;
      assert q[j + 1] == h;
    }
  }

  lemma {:induction false} GroupedSplits(book: Book, comp: CompressionMap, taker: Side, q: seq<nat>, t: int)
    requires Grouped(book, comp, taker, q) && Shaped(comp) && 0 <= t
    requires forall h | h in q :: 0 <= SlotOf(comp, book[h].price)
    ensures SplitAt(book, comp, taker, q, t)
  {
    hide SlotOf, StepsBefore, Shaped, Grouped;
    GroupedRests(book, comp, taker, q);
    if q != [] {
      var s := SlotOf(comp, book[q[0]].price);
      assert q[0] in q;
      GroupedTail(book, comp, taker, q);
      GroupedSplits(book, comp, taker, q[1..], t);
      if StepsBefore(comp, taker, s, t) {
        SplitBefore(book, comp, taker, q, t);
      } else {
        StepsTotal(comp, taker, s, t);
        forall h | h in q ensures !StepsBefore(comp, taker, SlotOf(comp, book[h].price), t) {
          StepsAsym(comp, taker, SlotOf(comp, book[h].price), t);
          if h != q[0] && s != SlotOf(comp, book[h].price) && s != t {
            StepsTrans(comp, taker, t, s, SlotOf(comp, book[h].price));
          }
        }
        if s == t { SplitHere(book, comp, taker, q, t); } else { SplitAfter(book, comp, taker, q, t); }
      }
    }
  }

  lemma GroupedRests(book: Book, comp: CompressionMap, taker: Side, q: seq<nat>)
    requires Grouped(book, comp, taker, q)
    ensures Resting(book, q)
  {
  }

  lemma SplitBefore(book: Book, comp: CompressionMap, taker: Side, q: seq<nat>, t: int)
    requires Resting(book, q) && q != [] && SplitAt(book, comp, taker, q[1..], t)
    requires StepsBefore(comp, taker, SlotOf(comp, book[q[0]].price), t)
    ensures SplitAt(book, comp, taker, q, t)
  {
    hide SlotOf, StepsBefore, AtSlot, Ahead;
    var p, c := q[1..], AtSlot(book, comp, q[1..], t);
    var i := Ahead(book, comp, taker, p, t);
    AheadOne(book, comp, taker, q, t);
    ShiftedBlock(q, i, c);
    forall h ensures h in q[..i + 1] <==> h in q && StepsBefore(comp, taker, SlotOf(comp, book[h].price), t) {
      assert h in q[..i + 1] <==> h == q[0] || h in p[..i];
      assert h in q <==> h == q[0] || h in p;
    }
  }

  lemma AheadOne(book: Book, comp: CompressionMap, taker: Side, q: seq<nat>, t: int)
    requires Resting(book, q) && q != [] && StepsBefore(comp, taker, SlotOf(comp, book[q[0]].price), t)
    ensures AtSlot(book, comp, q, t) == AtSlot(book, comp, q[1..], t)
    ensures Ahead(book, comp, taker, q, t) == Ahead(book, comp, taker, q[1..], t) + 1
  {
    hide SlotOf, StepsBefore;
    StepsAsym(comp, taker, SlotOf(comp, book[q[0]].price), t);
  }

  lemma ShiftedBlock(q: seq<nat>, i: nat, c: seq<nat>)
    requires q != [] && i + |c| <= |q[1..]| && q[1..][i..i + |c|] == c
    ensures q[i + 1..i + 1 + |c|] == c && q[..i + 1] == [q[0]] + q[1..][..i] && q == [q[0]] + q[1..]
  {
  }

  lemma SplitHere(book: Book, comp: CompressionMap, taker: Side, q: seq<nat>, t: int)
    requires Resting(book, q) && q != [] && SplitAt(book, comp, taker, q[1..], t) && SlotOf(comp, book[q[0]].price) == t
    requires forall h | h in q :: !StepsBefore(comp, taker, SlotOf(comp, book[h].price), t)
    ensures SplitAt(book, comp, taker, q, t)
  {
    hide SlotOf, StepsBefore;
    var p, c := q[1..], AtSlot(book, comp, q[1..], t);
    assert q[0] in q && (p != [] ==> p[0] in p);
    assert Ahead(book, comp, taker, p, t) == 0;
    assert q[0..1 + |c|] == [q[0]] + p[0..|c|];
  }

  lemma SplitAfter(book: Book, comp: CompressionMap, taker: Side, q: seq<nat>, t: int)
    requires Resting(book, q) && q != [] && SplitAt(book, comp, taker, q[1..], t) && SlotOf(comp, book[q[0]].price) != t
    requires StepsBefore(comp, taker, t, SlotOf(comp, book[q[0]].price)) && Grouped(book, comp, taker, q)
    requires forall h | h in q :: !StepsBefore(comp, taker, SlotOf(comp, book[h].price), t)
    ensures SplitAt(book, comp, taker, q, t)
  {
    hide SlotOf, StepsBefore, Grouped;
    GroupedTail(book, comp, taker, q);
    forall h | h in q ensures SlotOf(comp, book[h].price) != t {
      StepsAsym(comp, taker, t, SlotOf(comp, book[q[0]].price));
    }
    AtSlotWhole(book, comp, q, t);
    assert q[0] in q;
  }

  // ---------------------------------------------------------------------
  // The visiting list, slot by slot.

  lemma SlotAlone(
    slots: seq<OrderSlot>, book: Book, comp: CompressionMap, levels: seq<PriceLevel>, queues: seq<seq<nat>>,
    s: nat, t: nat, taker: Side, limit: int)
    requires Arranged(slots, book, comp, levels, queues)
    ensures var c := CrossingAt(book, queues, s, taker, limit);
            Resting(book, c) && AtSlot(book, comp, c, t) == if s == t then c else []
  {
    hide Arranged, SlotOf, CrossingAt, Listed, AtSlot, Crosses;
    SlotListed(slots, book, comp, levels, queues, s, taker, limit);
    CrossingAtResting(book, queues, s, taker, limit);
    AtSlotWhole(book, comp, CrossingAt(book, queues, s, taker, limit), t);
  }

  lemma {:induction false} AtSlotUp(
    slots: seq<OrderSlot>, book: Book, comp: CompressionMap, levels: seq<PriceLevel>, queues: seq<seq<nat>>,
    t: nat, lo: nat, hi: nat, limit: int)
    requires Arranged(slots, book, comp, levels, queues)
    ensures var v := VisitUp(book, queues, lo, hi, Buy, limit);
            Resting(book, v)
            && AtSlot(book, comp, v, t) == if lo <= t < hi then CrossingAt(book, queues, t, Buy, limit) else []
    decreases hi - lo
  {
    hide Arranged, SlotOf, CrossingAt, Resting;
    VisitUpResting(book, queues, lo, hi, Buy, limit);
    if lo < hi {
      SlotAlone(slots, book, comp, levels, queues, lo, t, Buy, limit);
      AtSlotUp(slots, book, comp, levels, queues, t, lo + 1, hi, limit);
      AtSlotAppend(book, comp, CrossingAt(book, queues, lo, Buy, limit),
                   VisitUp(book, queues, lo + 1, hi, Buy, limit), t);
    }
  }

  lemma {:induction false} AtSlotDown(
    slots: seq<OrderSlot>, book: Book, comp: CompressionMap, levels: seq<PriceLevel>, queues: seq<seq<nat>>,
    t: nat, lo: nat, hi: nat, limit: int)
    requires Arranged(slots, book, comp, levels, queues)
    ensures var v := VisitDown(book, queues, lo, hi, Sell, limit);
            Resting(book, v)
            && AtSlot(book, comp, v, t) == if lo <= t < hi then CrossingAt(book, queues, t, Sell, limit) else []
    decreases hi - lo
  {
    hide Arranged, SlotOf, CrossingAt, Resting;
    VisitDownResting(book, queues, lo, hi, Sell, limit);
    if lo < hi {
      SlotAlone(slots, book, comp, levels, queues, hi - 1, t, Sell, limit);
      AtSlotDown(slots, book, comp, levels, queues, t, lo, hi - 1, limit);
      AtSlotAppend(book, comp, CrossingAt(book, queues, hi - 1, Sell, limit),
                   VisitDown(book, queues, lo, hi - 1, Sell, limit), t);
    }
  }

  lemma {:induction false} AtSlotRangesUp(
    slots: seq<OrderSlot>, book: Book, comp: CompressionMap, levels: seq<PriceLevel>, queues: seq<seq<nat>>,
    t: nat, k: nat, limit: int)
    requires Regular(comp) && Shaped(comp) && Arranged(slots, book, comp, levels, queues)
    requires t < TotalSlots(comp) && k <= 10 == |PriceAsc(comp)|
    ensures var v := VisitRangesUp(book, queues, PriceAsc(comp), k, Buy, limit);
            Resting(book, v)
            && AtSlot(book, comp, v, t) == if BandOf(comp, t) >= k then CrossingAt(book, queues, t, Buy, limit) else []
    decreases 10 - k
  {
    hide Arranged, SlotOf, CrossingAt, Resting, VisitUp, Regular, Shaped, PriceAsc, BandOf, TotalSlots;
    VisitRangesUpResting(book, queues, PriceAsc(comp), k, Buy, limit);
    if k < 10 {
      var r := PriceAsc(comp)[k];
      AtSlotUp(slots, book, comp, levels, queues, t, r.0, r.1, limit);
      AtSlotRangesUp(slots, book, comp, levels, queues, t, k + 1, limit);
      RangesPartition(comp, t);
      assert InRange(r, t) <==> k == BandOf(comp, t);
      AtSlotAppend(book, comp, VisitUp(book, queues, r.0, r.1, Buy, limit),
                   VisitRangesUp(book, queues, PriceAsc(comp), k + 1, Buy, limit), t);
    }
  }

  lemma {:induction false} AtSlotRangesDown(
    slots: seq<OrderSlot>, book: Book, comp: CompressionMap, levels: seq<PriceLevel>, queues: seq<seq<nat>>,
    t: nat, k: nat, limit: int)
    requires Regular(comp) && Shaped(comp) && Arranged(slots, book, comp, levels, queues)
    requires t < TotalSlots(comp) && k <= 10 == |PriceAsc(comp)|
    ensures var v := VisitRangesDown(book, queues, PriceAsc(comp), k, Sell, limit);
            Resting(book, v)
            && AtSlot(book, comp, v, t) == if BandOf(comp, t) < k then CrossingAt(book, queues, t, Sell, limit) else []
  {
    hide Arranged, SlotOf, CrossingAt, Resting, VisitDown, Regular, Shaped, PriceAsc, BandOf, TotalSlots;
    VisitRangesDownResting(book, queues, PriceAsc(comp), k, Sell, limit);
    if k > 0 {
      var r := PriceAsc(comp)[k - 1];
      AtSlotDown(slots, book, comp, levels, queues, t, r.0, r.1, limit);
      AtSlotRangesDown(slots, book, comp, levels, queues, t, k - 1, limit);
      RangesPartition(comp, t);
      assert InRange(r, t) <==> k - 1 == BandOf(comp, t);
      AtSlotAppend(book, comp, VisitDown(book, queues, r.0, r.1, Sell, limit),
                   VisitRangesDown(book, queues, PriceAsc(comp), k - 1, Sell, limit), t);
    }
  }

  /** What the pre-check visits in a slot are its crossing makers in arrival order. */
  lemma VisitedAtSlot(
    slots: seq<OrderSlot>, book: Book, comp: CompressionMap, levels: seq<PriceLevel>, queues: seq<seq<nat>>,
    t: nat, taker: Side, limit: int)
    requires Regular(comp) && Shaped(comp) && Arranged(slots, book, comp, levels, queues) && t < TotalSlots(comp)
    ensures var v := VisitAll(book, queues, PriceAsc(comp), taker, limit);
            Resting(book, v) && AtSlot(book, comp, v, t) == CrossingAt(book, queues, t, taker, limit)
  {
    hide Arranged, CrossingAt, Resting, VisitRangesUp, VisitRangesDown, Regular, Shaped, PriceAsc, BandOf, AtSlot,
         TotalSlots;
    PriceAscBounds(comp, 0);
    if taker == Buy {
      AtSlotRangesUp(slots, book, comp, levels, queues, t, 0, limit);
    } else {
      AtSlotRangesDown(slots, book, comp, levels, queues, t, 10, limit);
    }
  }

  // ---------------------------------------------------------------------
  // The two lists differ only inside a slot.

  /** The makers of `c` by price, then arrival. */
  ghost function Ranked(book: Book, c: seq<nat>): seq<nat>
    requires Stamped(book) && Resting(book, c)
  {
    Sorted(book, set h | h in c)
  }

  lemma RankedFacts(book: Book, c: seq<nat>)
    requires Stamped(book) && Resting(book, c)
    ensures Ordered(book, Ranked(book, c)) && Distinct(Ranked(book, c)) && Resting(book, Ranked(book, c))
    ensures forall h :: h in Ranked(book, c) <==> h in c
  {
    hide Before;
    SortedOrdered(book, set h | h in c);
  }

  lemma {:induction false} AtSlotOrdered(book: Book, comp: CompressionMap, q: seq<nat>, t: int)
    requires Ordered(book, q)
    ensures Resting(book, q) && Ordered(book, AtSlot(book, comp, q, t))
  {
    hide SlotOf, Before;
    if q != [] {
      AtSlotOrdered(book, comp, q[1..], t);
      AtSlotMembers(book, comp, q[1..], t);
      var c := AtSlot(book, comp, q[1..], t);
      if c != [] {
        assert c[0] in c;
        var i :| 0 <= i < |q[1..]| && q[1..][i] == c[0];
        assert q[i + 1] == c[0];
      }
      OrderedCons(book, q[0], c);
    }
  }

  /** The sum of a grouped list up to some makers of a slot. */
  lemma SumIntoSlot(book: Book, comp: CompressionMap, taker: Side, q: seq<nat>, t: int, r: nat)
    requires Resting(book, q) && Positive(book) && SplitAt(book, comp, taker, q, t)
    requires r <= |AtSlot(book, comp, q, t)|
    ensures var i := Ahead(book, comp, taker, q, t);
            && i <= |q| && Resting(book, q[..i]) && Resting(book, AtSlot(book, comp, q, t))
            && SumFirst(book, q, i + r) == SumFirst(book, q[..i], i) + SumFirst(book, AtSlot(book, comp, q, t), r)
  {
    hide SlotOf, StepsBefore, Positive, Ahead, AtSlot, SumFirst;
    var i, c := Ahead(book, comp, taker, q, t), AtSlot(book, comp, q, t);
    assert forall h | h in q[..i] || h in q[i..] || h in c :: h in q;
    SumSplit(book, q, i, r);
    var rest := q[i + |c|..];
    assert q[i..] == c + rest;
    SumAppend(book, c, rest, r);
    assert q == q[..i] + q[i..];
    SumAppend(book, q[..i], q[i..], i);
  }

  /** As many makers, and as much quantity, ahead of a slot in either list. */
  lemma SameAhead(book: Book, comp: CompressionMap, taker: Side, v: seq<nat>, q: seq<nat>, t: int)
    requires Resting(book, v) && Resting(book, q) && Distinct(v) && Distinct(q) && forall h :: h in v <==> h in q
    requires SplitAt(book, comp, taker, v, t) && SplitAt(book, comp, taker, q, t)
    ensures var i := Ahead(book, comp, taker, v, t);
            && i == Ahead(book, comp, taker, q, t) && i <= |v| && i <= |q|
            && Resting(book, v[..i]) && Resting(book, q[..i])
            && SumFirst(book, v[..i], i) == SumFirst(book, q[..i], i)
    ensures |AtSlot(book, comp, v, t)| == |AtSlot(book, comp, q, t)|
  {
    hide SlotOf, StepsBefore, Ahead, AtSlot, SumFirst;
    var i, j := Ahead(book, comp, taker, v, t), Ahead(book, comp, taker, q, t);
    assert forall h | h in v[..i] :: h in v;
    assert forall h | h in q[..j] :: h in q;
    SameMakers(book, v[..i], q[..j]);
    AtSlotMembers(book, comp, v, t);
    AtSlotMembers(book, comp, q, t);
    SameMakers(book, AtSlot(book, comp, v, t), AtSlot(book, comp, q, t));
  }

  /** In a split list a maker of slot `t` is inside the block of `t`. */
  lemma InsideBlock(book: Book, comp: CompressionMap, taker: Side, q: seq<nat>, t: int, k: nat)
    requires Resting(book, q) && Distinct(q) && SplitAt(book, comp, taker, q, t) && k < |q|
    requires SlotOf(comp, book[q[k]].price) == t
    ensures var i := Ahead(book, comp, taker, q, t); i <= k < i + |AtSlot(book, comp, q, t)|
  {
    hide SlotOf, StepsBefore, Ahead, AtSlot;
    var i, c := Ahead(book, comp, taker, q, t), AtSlot(book, comp, q, t);
    AtSlotMembers(book, comp, q, t);
    assert q[k] in q && q[k] in c;
    var j :| 0 <= j < |c| && c[j] == q[k];
    assert q[i..i + |c|][j] == q[i + j];
  }

  // ---------------------------------------------------------------------
  // The slot in which the cap falls.

  /** The slot of the last maker the cap allows the pre-check, or -1 if the cap is not reached. */
  ghost function CapSlot(book: Book, queues: seq<seq<nat>>, comp: CompressionMap, taker: Side, limit: int): int {
    var v := if Shaped(comp) then VisitAll(book, queues, PriceAsc(comp), taker, limit) else [];
    if Resting(book, v) && |v| >= MAX_MAKERS_PER_ORDER then SlotOf(comp, book[v[MAX_MAKERS_PER_ORDER - 1]].price) else -1
  }

  /** How many makers the cap still allows in that slot. */
  ghost function CapRoom(book: Book, queues: seq<seq<nat>>, comp: CompressionMap, taker: Side, limit: int): nat {
    var v := if Shaped(comp) then VisitAll(book, queues, PriceAsc(comp), taker, limit) else [];
    if !Resting(book, v) then 0
    else
      var ahead := Ahead(book, comp, taker, v, CapSlot(book, queues, comp, taker, limit));
      if ahead <= MAX_MAKERS_PER_ORDER then MAX_MAKERS_PER_ORDER - ahead else 0
  }

  /** The crossing makers of that slot, in arrival order. */
  ghost function CapMakers(book: Book, queues: seq<seq<nat>>, comp: CompressionMap, taker: Side, limit: int)
    : (c: seq<nat>)
    ensures Resting(book, c)
  {
    CrossingAtResting(book, queues, CapSlot(book, queues, comp, taker, limit), taker, limit);
    CrossingAt(book, queues, CapSlot(book, queues, comp, taker, limit), taker, limit)
  }

  /** What the slot's makers hold up to the cap, taken in arrival order. */
  ghost function ByArrival(book: Book, queues: seq<seq<nat>>, comp: CompressionMap, taker: Side, limit: int): int {
    SumFirst(book, CapMakers(book, queues, comp, taker, limit), CapRoom(book, queues, comp, taker, limit))
  }

  /** What they hold up to the cap, taken by price and then arrival. */
  ghost function ByPriority(book: Book, queues: seq<seq<nat>>, comp: CompressionMap, taker: Side, limit: int): int
    requires Stamped(book)
  {
    RankedFacts(book, CapMakers(book, queues, comp, taker, limit));
    SumFirst(book, Ranked(book, CapMakers(book, queues, comp, taker, limit)), CapRoom(book, queues, comp, taker, limit))
  }

  /** What the crossing makers of the slots before it hold. */
  ghost function AheadQty(book: Book, queues: seq<seq<nat>>, comp: CompressionMap, taker: Side, limit: int): int {
    var v := if Shaped(comp) then VisitAll(book, queues, PriceAsc(comp), taker, limit) else [];
    if !Resting(book, v) then 0
    else
      var i := Ahead(book, comp, taker, v, CapSlot(book, queues, comp, taker, limit));
      if i <= |v| && Resting(book, v[..i]) then SumFirst(book, v[..i], i) else 0
  }

  /** Both lists, grouped by slot, and the same makers in them. */
  lemma TwoLists(
    slots: seq<OrderSlot>, book: Book, comp: CompressionMap, levels: seq<PriceLevel>, queues: seq<seq<nat>>,
    taker: Side, limit: int)
    requires Regular(comp) && Shaped(comp) && Arranged(slots, book, comp, levels, queues) && Stamped(book)
    ensures var v, q := VisitAll(book, queues, PriceAsc(comp), taker, limit), Queue(book, taker, limit);
            && Resting(book, v) && Resting(book, q) && Distinct(v) && Distinct(q) && |v| == |q|
            && (forall h :: h in v <==> h in q)
            && (forall t | 0 <= t :: SplitAt(book, comp, taker, v, t) && SplitAt(book, comp, taker, q, t))
  {
    hide Arranged, Regular, Shaped, Queue, VisitAll, PriceAsc, Stamped, Crosses, Listed, Ordered, Distinct, SplitAt, SumFirst,
         SlotOf;
    var v, q := VisitAll(book, queues, PriceAsc(comp), taker, limit), Queue(book, taker, limit);
    VisitsEveryMaker(slots, book, comp, levels, queues, taker, limit);
    QueueFacts(book, taker, limit);
    VisitAllResting(book, queues, PriceAsc(comp), taker, limit);
    ListedDistinct(book, comp, taker, v);
    SameMakers(book, v, q);
    ListedGrouped(book, comp, taker, v);
    forall h | h in q ensures book[h].side == taker.Opposite() { CrossesOpposite(book[h], taker, limit); }
    OrderedGrouped(book, comp, taker, q);
    forall h | h in q ensures 0 <= SlotOf(comp, book[h].price) { SlotInRange(comp, book[h].price); }
    forall t | 0 <= t ensures SplitAt(book, comp, taker, v, t) && SplitAt(book, comp, taker, q, t) {
      GroupedSplits(book, comp, taker, v, t);
      GroupedSplits(book, comp, taker, q, t);
    }
  }

  lemma CrossesOpposite(o: Order, taker: Side, limit: int)
    requires Crosses(o, taker, limit)
    ensures o.side == taker.Opposite()
  {
  }

  lemma QueuedAtSlot(book: Book, comp: CompressionMap, q: seq<nat>, c: seq<nat>, t: int)
    requires Stamped(book) && Ordered(book, q) && Resting(book, q) && Resting(book, c)
    requires forall h :: h in c <==> h in AtSlot(book, comp, q, t)
    ensures AtSlot(book, comp, q, t) == Ranked(book, c)
  {
    hide Stamped, Ordered, AtSlot, Ranked;
    AtSlotOrdered(book, comp, q, t);
    RankedFacts(book, c);
    OrderedUnique(book, AtSlot(book, comp, q, t), Ranked(book, c));
  }

  /** The cap falls inside a slot with crossing makers, and allows some of them. */
  lemma CapFalls(
    slots: seq<OrderSlot>, book: Book, comp: CompressionMap, levels: seq<PriceLevel>, queues: seq<seq<nat>>,
    taker: Side, limit: int)
    requires Regular(comp) && Shaped(comp) && Arranged(slots, book, comp, levels, queues) && Stamped(book)
    requires |Queue(book, taker, limit)| >= MAX_MAKERS_PER_ORDER
    ensures var t, r := CapSlot(book, queues, comp, taker, limit), CapRoom(book, queues, comp, taker, limit);
            var v := VisitAll(book, queues, PriceAsc(comp), taker, limit);
            && 0 <= t < TotalSlots(comp) && Resting(book, v)
            && AtSlot(book, comp, v, t) == CapMakers(book, queues, comp, taker, limit)
            && 1 <= r <= |CapMakers(book, queues, comp, taker, limit)|
            && Ahead(book, comp, taker, v, t) + r == MAX_MAKERS_PER_ORDER
  {
    hide Arranged, Regular, Shaped, Queue, VisitAll, PriceAsc, Stamped, Distinct, SplitAt, SlotOf, Ahead, AtSlot, TotalSlots,
         CrossingAt;
    TwoLists(slots, book, comp, levels, queues, taker, limit);
    var v := VisitAll(book, queues, PriceAsc(comp), taker, limit);
    var k := MAX_MAKERS_PER_ORDER - 1;
    SlotInRange(comp, book[v[k]].price);
    var t := CapSlot(book, queues, comp, taker, limit);
    InsideBlock(book, comp, taker, v, t, k);
    VisitedAtSlot(slots, book, comp, levels, queues, t, taker, limit);
  }

  /** Pre-check and match count the same makers ahead of that slot; the difference is made inside it. */
  lemma GapInSlot(
    slots: seq<OrderSlot>, book: Book, comp: CompressionMap, levels: seq<PriceLevel>, queues: seq<seq<nat>>,
    taker: Side, limit: int)
    requires Regular(comp) && Shaped(comp) && Arranged(slots, book, comp, levels, queues) && Stamped(book) && Positive(book)
    requires |Queue(book, taker, limit)| >= MAX_MAKERS_PER_ORDER
    ensures var ahead := AheadQty(book, queues, comp, taker, limit);
            && CountedQty(book, queues, PriceAsc(comp), taker, limit) == ahead + ByArrival(book, queues, comp, taker, limit)
            && Fillable(book, taker, limit) == ahead + ByPriority(book, queues, comp, taker, limit)
  {
    hide Arranged, Regular, Shaped, Queue, VisitAll, PriceAsc, Stamped, Distinct, SplitAt, Ahead, AtSlot, TotalSlots, Ranked,
         CapMakers, CapSlot, CapRoom, SumFirst, Positive;
    TwoLists(slots, book, comp, levels, queues, taker, limit);
    CapFalls(slots, book, comp, levels, queues, taker, limit);
    var v, q := VisitAll(book, queues, PriceAsc(comp), taker, limit), Queue(book, taker, limit);
    var t, r := CapSlot(book, queues, comp, taker, limit), CapRoom(book, queues, comp, taker, limit);
    SameAhead(book, comp, taker, v, q, t);
    SumIntoSlot(book, comp, taker, v, t, r);
    SumIntoSlot(book, comp, taker, q, t, r);
    PriorityAtSlot(book, queues, comp, taker, limit);
  }

  lemma PriorityAtSlot(book: Book, queues: seq<seq<nat>>, comp: CompressionMap, taker: Side, limit: int)
    requires Stamped(book) && Shaped(comp)
    requires var v, q := VisitAll(book, queues, PriceAsc(comp), taker, limit), Queue(book, taker, limit);
             && Resting(book, v) && Resting(book, q) && (forall h :: h in v <==> h in q)
             && AtSlot(book, comp, v, CapSlot(book, queues, comp, taker, limit)) == CapMakers(book, queues, comp, taker, limit)
    ensures Resting(book, Queue(book, taker, limit))
    ensures AtSlot(book, comp, Queue(book, taker, limit), CapSlot(book, queues, comp, taker, limit))
            == Ranked(book, CapMakers(book, queues, comp, taker, limit))
  {
    hide Queue, VisitAll, PriceAsc, Stamped, AtSlot, Ranked, CapMakers, CapSlot, Shaped, Ordered, Crosses, SlotOf;
    var v, q := VisitAll(book, queues, PriceAsc(comp), taker, limit), Queue(book, taker, limit);
    var t := CapSlot(book, queues, comp, taker, limit);
    QueueFacts(book, taker, limit);
    AtSlotMembers(book, comp, v, t);
    AtSlotMembers(book, comp, q, t);
    QueuedAtSlot(book, comp, q, CapMakers(book, queues, comp, taker, limit), t);
  }

  // ---------------------------------------------------------------------
  // The exact condition.

  /** For an order of this size the pre-check says yes exactly when the match fills it. */
  ghost predicate Agrees(book: Book, queues: seq<seq<nat>>, comp: CompressionMap, taker: Side, limit: int, needed: int)
    requires Stamped(book) && Shaped(comp)
  {
    var q := Ladder(book, taker.Opposite());
    CountedQty(book, queues, PriceAsc(comp), taker, limit) >= needed
    <==> Total(Sweep(book, q, taker, limit, needed, MAX_MAKERS_PER_ORDER), q) == needed
  }

  /** The makers fit the cap, or those the cap cuts off in its slot hold the same either way. */
  ghost predicate CapHarmless(book: Book, queues: seq<seq<nat>>, comp: CompressionMap, taker: Side, limit: int)
    requires Stamped(book)
  {
    || |Queue(book, taker, limit)| <= MAX_MAKERS_PER_ORDER
    || ByArrival(book, queues, comp, taker, limit) == ByPriority(book, queues, comp, taker, limit)
  }

  lemma CountedAsFilled(
    slots: seq<OrderSlot>, book: Book, comp: CompressionMap, levels: seq<PriceLevel>, queues: seq<seq<nat>>,
    taker: Side, limit: int)
    requires Regular(comp) && Shaped(comp) && Arranged(slots, book, comp, levels, queues)
    requires Stamped(book) && Positive(book) && Priced(book, comp.tick)
    ensures CapHarmless(book, queues, comp, taker, limit)
            <==> CountedQty(book, queues, PriceAsc(comp), taker, limit) == Fillable(book, taker, limit)
  {
    hide Arranged, Regular, Shaped, Queue, PriceAsc, Stamped, Positive, Priced, CountedQty, Fillable, ByArrival, ByPriority,
         AheadQty;
    if |Queue(book, taker, limit)| <= MAX_MAKERS_PER_ORDER {
      PreCheckExact(slots, book, comp, levels, queues, taker, limit);
    } else {
      GapInSlot(slots, book, comp, levels, queues, taker, limit);
    }
  }

  /** Pre-check and match agree on every size exactly when the cap is harmless. */
  lemma PreCheckExactly(
    slots: seq<OrderSlot>, book: Book, comp: CompressionMap, levels: seq<PriceLevel>, queues: seq<seq<nat>>,
    taker: Side, limit: int)
    requires Regular(comp) && Shaped(comp) && Arranged(slots, book, comp, levels, queues)
    requires Stamped(book) && Positive(book) && Priced(book, comp.tick)
    ensures (forall needed | needed > 0 :: Agrees(book, queues, comp, taker, limit, needed))
            <==> CapHarmless(book, queues, comp, taker, limit)
  {
    hide Arranged, Regular, Shaped, PriceAsc, Stamped, Positive, Priced, CountedQty, Fillable, CapHarmless, Sweep, Total,
         Ladder;
    CountedAsFilled(slots, book, comp, levels, queues, taker, limit);
    var counted, fillable := CountedQty(book, queues, PriceAsc(comp), taker, limit), Fillable(book, taker, limit);
    forall needed | needed > 0
      ensures Agrees(book, queues, comp, taker, limit, needed) <==> (counted >= needed <==> fillable >= needed)
    {
      FillsWhenFillable(book, taker, limit, needed);
    }
    SumsNonNeg(book, queues, PriceAsc(comp), taker, limit);
    if !CapHarmless(book, queues, comp, taker, limit) {
      var needed := Max(counted, fillable);
      assert !Agrees(book, queues, comp, taker, limit, needed);
    }
  }

  lemma SumsNonNeg(book: Book, queues: seq<seq<nat>>, ranges: seq<(nat, nat)>, taker: Side, limit: int)
    requires Stamped(book) && Positive(book)
    ensures CountedQty(book, queues, ranges, taker, limit) >= 0 && Fillable(book, taker, limit) >= 0
  {
    hide VisitAll, Queue, Stamped, Positive;
    var v, q := VisitAll(book, queues, ranges, taker, limit), Queue(book, taker, limit);
    if Resting(book, v) { SumNonNeg(book, v, MAX_MAKERS_PER_ORDER); }
    if Resting(book, q) { SumNonNeg(book, q, MAX_MAKERS_PER_ORDER); }
  }

  /** Three ways for the cap to be harmless: its slot is in zone 0, holds one price, or is used up. */
  lemma HarmlessCaps(
    slots: seq<OrderSlot>, book: Book, comp: CompressionMap, levels: seq<PriceLevel>, queues: seq<seq<nat>>,
    taker: Side, limit: int)
    requires Regular(comp) && Shaped(comp) && Arranged(slots, book, comp, levels, queues)
    requires Stamped(book) && Priced(book, comp.tick)
    requires |Queue(book, taker, limit)| >= MAX_MAKERS_PER_ORDER
    requires var t, c := CapSlot(book, queues, comp, taker, limit), CapMakers(book, queues, comp, taker, limit);
             || t < comp.zoneSlots[0]
             || (forall g, h | g in c && h in c :: book[g].price == book[h].price)
             || |c| == CapRoom(book, queues, comp, taker, limit)
    ensures CapHarmless(book, queues, comp, taker, limit)
  {
    hide Arranged, Regular, Queue, Stamped, Priced, CapSlot, CapRoom, Ranked, SumFirst, Crosses, Ordered, Distinct,
         CrossingAt, TotalSlots, SlotOf, VisitAll, PriceAsc, Ahead, AtSlot;
    var t, c := CapSlot(book, queues, comp, taker, limit), CapMakers(book, queues, comp, taker, limit);
    CapFalls(slots, book, comp, levels, queues, taker, limit);
    SlotListed(slots, book, comp, levels, queues, t, taker, limit);
    RankedFacts(book, c);
    ListedDistinct(book, comp, taker, c);
    SameMakers(book, c, Ranked(book, c));
    if |c| != CapRoom(book, queues, comp, taker, limit) {
      if t < comp.zoneSlots[0] {
        forall g, h | g in c && h in c ensures book[g].price == book[h].price {
          OneTickSlot(book, comp, g, h, t);
        }
      }
      OnePriceRanked(book, comp, taker, limit, c);
    }
  }

  lemma OneTickSlot(book: Book, comp: CompressionMap, g: nat, h: nat, t: int)
    requires Regular(comp) && Priced(book, comp.tick) && g in book && h in book
    requires SlotOf(comp, book[g].price) == SlotOf(comp, book[h].price) == t < comp.zoneSlots[0] && Shaped(comp)
    ensures book[g].price == book[h].price
  {
    hide PriceToIndex, Regular;
    ZoneZeroInjective(comp, book[g].price, book[h].price);
  }

  /** At one price arrival order is priority order. */
  lemma OnePriceRanked(book: Book, comp: CompressionMap, taker: Side, limit: int, c: seq<nat>)
    requires Stamped(book) && Listed(book, comp, taker, c)
    requires forall h | h in c :: h in book && Crosses(book[h], taker, limit)
    requires forall g, h | g in c && h in c :: book[g].price == book[h].price
    ensures Resting(book, c) && c == Ranked(book, c)
  {
    hide Stamped, Ranked, StepsBefore, SlotOf;
    forall i, j | 0 <= i < j < |c| ensures Before(book[c[i]], book[c[j]]) {
      assert Earlier(book, comp, taker, c[i], c[j]) && c[i] in c && c[j] in c;
      StepsAsym(comp, taker, SlotOf(comp, book[c[i]].price), SlotOf(comp, book[c[j]].price));
    }
    RankedFacts(book, c);
    OrderedUnique(book, c, Ranked(book, c));
  }
}
