/** Fill-or-kill feasibility: what the pre-check counts and what the match would fill. */
module FokFacts {
  import opened Types
  import opened Compression
  import opened Arena
  import opened PriceTime
  import opened Levels
  import opened Arrangement
  import opened BookFacts
  import opened MatchFacts

  /** The crossing makers of `q`, in the order of `q`. */
  function Crossing(book: Book, q: seq<nat>, taker: Side, limit: int): seq<nat>
    requires Resting(book, q)
  {
    if q == [] then []
    else if Crosses(book[q[0]], taker, limit) then [q[0]] + Crossing(book, q[1..], taker, limit)
    else Crossing(book, q[1..], taker, limit)
  }

  lemma {:induction false} CrossingMembers(book: Book, q: seq<nat>, taker: Side, limit: int)
    requires Resting(book, q)
    ensures forall h :: h in Crossing(book, q, taker, limit) <==> h in q && Crosses(book[h], taker, limit)
    ensures |Crossing(book, q, taker, limit)| <= |q|
    ensures Resting(book, Crossing(book, q, taker, limit))
    ensures Distinct(q) ==> Distinct(Crossing(book, q, taker, limit))
  {
    if q != [] {
      CrossingMembers(book, q[1..], taker, limit);
      assert forall h :: h in q <==> h == q[0] || h in q[1..];
      if Distinct(q) { TailDistinct(q); }
    }
  }

  /** The quantity of the first `n` makers of `q`. */
  function SumFirst(book: Book, q: seq<nat>, n: nat): int
    requires Resting(book, q)
  {
    if q == [] || n == 0 then 0 else book[q[0]].qty + SumFirst(book, q[1..], n - 1)
  }

  lemma {:induction false} SumNonNeg(book: Book, q: seq<nat>, n: nat)
    requires Resting(book, q) && Positive(book)
    ensures SumFirst(book, q, n) >= 0
  {
    if q != [] && n > 0 { SumNonNeg(book, q[1..], n - 1); }
  }

  lemma {:induction false} SumAppend(book: Book, p: seq<nat>, q: seq<nat>, n: nat)
    requires Resting(book, p) && Resting(book, q) && Positive(book)
    ensures Resting(book, p + q)
    ensures n <= |p| ==> SumFirst(book, p + q, n) == SumFirst(book, p, n)
    ensures n >= |p| ==> SumFirst(book, p + q, n) == SumFirst(book, p, |p|) + SumFirst(book, q, n - |p|)
    ensures SumFirst(book, p + q, n) >= SumFirst(book, p, n)
  {
    if p == [] {
      assert p + q == q;
      SumNonNeg(book, q, n);
    } else if n > 0 {
      assert (p + q)[1..] == p[1..] + q;
      SumAppend(book, p[1..], q, n - 1);
    }
  }

  lemma {:induction false} SumBeyond(book: Book, q: seq<nat>, n: nat)
    requires Resting(book, q) && n >= |q|
    ensures SumFirst(book, q, n) == SumFirst(book, q, |q|)
  {
    if q != [] { SumBeyond(book, q[1..], n - 1); }
  }

  lemma {:induction false} CrossingAppend(book: Book, p: seq<nat>, q: seq<nat>, taker: Side, limit: int)
    requires Resting(book, p) && Resting(book, q)
    ensures Resting(book, p + q)
    ensures Crossing(book, p + q, taker, limit) == Crossing(book, p, taker, limit) + Crossing(book, q, taker, limit)
  {
    if p == [] {
      assert p + q == q;
    } else {
      assert (p + q)[1..] == p[1..] + q;
      CrossingAppend(book, p[1..], q, taker, limit);
    }
  }

  // ---------------------------------------------------------------------
  // What the match fills.

  /** The simple matcher fills what the first `room` crossing makers hold, up to the taker's quantity. */
  lemma {:induction false} SweepTotal(book: Book, q: seq<nat>, taker: Side, limit: int, rem: int, room: nat)
    requires Distinct(q) && Resting(book, q) && Positive(book) && rem >= 0
    ensures Resting(book, Crossing(book, q, taker, limit))
    ensures Total(Sweep(book, q, taker, limit, rem, room), q)
            == Least(rem, SumFirst(book, Crossing(book, q, taker, limit), room))
  {
    hide Positive, Distinct, Crosses, Resting, Total, Least;
    if q == [] || rem == 0 || room == 0 {
      NoneTotal(book, q, taker, limit, rem, room);
    } else {
      RestingSlices(book, q, 0);
      TailDistinct(q);
      if !Crosses(book[q[0]], taker, limit) {
        SweepTotal(book, q[1..], taker, limit, rem, room);
        SkipTotal(book, q, taker, limit, rem, room);
      } else {
        var f := Least(rem, book[q[0]].qty);
        PositiveHead(book, q);
        LeastBounds(rem, book[q[0]].qty);
        SweepTotal(book, q[1..], taker, limit, rem - f, room - 1);
        TakeTotal(q, f, Sweep(book, q[1..], taker, limit, rem - f, room - 1));
        TakenSum(book, q, taker, limit, rem, room);
      }
    }
  }

  lemma LeastBounds(a: int, b: int)
    ensures Least(a, b) <= a && Least(a, b) <= b && (Least(a, b) == a || Least(a, b) == b)
  {
  }

  lemma NoneTotal(book: Book, q: seq<nat>, taker: Side, limit: int, rem: int, room: nat)
    requires Resting(book, q) && Positive(book) && rem >= 0
    requires q == [] || rem == 0 || room == 0
    ensures Resting(book, Crossing(book, q, taker, limit))
    ensures Total(Sweep(book, q, taker, limit, rem, room), q)
            == Least(rem, SumFirst(book, Crossing(book, q, taker, limit), room))
  {
    CrossingMembers(book, q, taker, limit);
    SumNonNeg(book, Crossing(book, q, taker, limit), room);
    TotalEmpty(q);
  }

  lemma TakenSum(book: Book, q: seq<nat>, taker: Side, limit: int, rem: int, room: nat)
    requires q != [] && Resting(book, q) && Positive(book) && rem > 0 && room > 0
    requires Crosses(book[q[0]], taker, limit)
    ensures Resting(book, Crossing(book, q, taker, limit)) && Resting(book, Crossing(book, q[1..], taker, limit))
    ensures var f := Least(rem, book[q[0]].qty);
            Least(rem, SumFirst(book, Crossing(book, q, taker, limit), room))
            == f + Least(rem - f, SumFirst(book, Crossing(book, q[1..], taker, limit), room - 1))
  {
    var d := Crossing(book, q[1..], taker, limit);
    CrossingMembers(book, q, taker, limit);
    CrossingMembers(book, q[1..], taker, limit);
    assert ([q[0]] + d)[1..] == d;
    SumNonNeg(book, d, room - 1);
  }

  lemma SkipTotal(book: Book, q: seq<nat>, taker: Side, limit: int, rem: int, room: nat)
    requires q != [] && Distinct(q) && Resting(book, q) && !Crosses(book[q[0]], taker, limit)
    ensures var fills := Sweep(book, q[1..], taker, limit, rem, room);
            Total(fills, q) == Total(fills, q[1..])
  {
    SweepKeys(book, q[1..], taker, limit, rem, room);
    TailDistinct(q);
  }

  // ---------------------------------------------------------------------
  // The order in which the pre-check visits the crossing makers.

  /** The crossing makers of one slot, in arrival order. */
  function CrossingAt(book: Book, queues: seq<seq<nat>>, t: int, taker: Side, limit: int): seq<nat> {
    if 0 <= t < |queues| && Resting(book, queues[t]) then Crossing(book, queues[t], taker, limit) else []
  }

  /** Slots `lo .. hi - 1`, upward. */
  function VisitUp(book: Book, queues: seq<seq<nat>>, lo: nat, hi: nat, taker: Side, limit: int): seq<nat>
    decreases hi - lo
  {
    if lo >= hi then [] else CrossingAt(book, queues, lo, taker, limit) + VisitUp(book, queues, lo + 1, hi, taker, limit)
  }

  /** Slots `hi - 1 .. lo`, downward. */
  function VisitDown(book: Book, queues: seq<seq<nat>>, lo: nat, hi: nat, taker: Side, limit: int): seq<nat>
    decreases hi - lo
  {
    if lo >= hi then []
    else CrossingAt(book, queues, hi - 1, taker, limit) + VisitDown(book, queues, lo, hi - 1, taker, limit)
  }

  /** The ranges from `k` up. */
  function VisitRangesUp(
    book: Book, queues: seq<seq<nat>>, ranges: seq<(nat, nat)>, k: nat, taker: Side, limit: int): seq<nat>
    decreases |ranges| - k
  {
    if k >= |ranges| then []
    else VisitUp(book, queues, ranges[k].0, ranges[k].1, taker, limit)
         + VisitRangesUp(book, queues, ranges, k + 1, taker, limit)
  }

  /** The ranges below `k`, downward. */
  function VisitRangesDown(
    book: Book, queues: seq<seq<nat>>, ranges: seq<(nat, nat)>, k: nat, taker: Side, limit: int): seq<nat>
    requires k <= |ranges|
  {
    if k == 0 then []
    else VisitDown(book, queues, ranges[k - 1].0, ranges[k - 1].1, taker, limit)
         + VisitRangesDown(book, queues, ranges, k - 1, taker, limit)
  }

  /** All crossing makers, slot by slot in price order, in arrival order within a slot. */
  function VisitAll(
    book: Book, queues: seq<seq<nat>>, ranges: seq<(nat, nat)>, taker: Side, limit: int): seq<nat>
  {
    if taker == Buy then VisitRangesUp(book, queues, ranges, 0, taker, limit)
    else VisitRangesDown(book, queues, ranges, |ranges|, taker, limit)
  }

  lemma {:induction false} VisitUpSkip(
    book: Book, queues: seq<seq<nat>>, lo: nat, mid: nat, hi: nat, taker: Side, limit: int)
    requires lo <= mid <= hi
    requires forall t | lo <= t < mid :: CrossingAt(book, queues, t, taker, limit) == []
    ensures VisitUp(book, queues, lo, hi, taker, limit) == VisitUp(book, queues, mid, hi, taker, limit)
    decreases mid - lo
  {
    hide CrossingAt;
    if lo < mid { VisitUpSkip(book, queues, lo + 1, mid, hi, taker, limit); }
  }

  lemma {:induction false} VisitDownSkip(
    book: Book, queues: seq<seq<nat>>, lo: nat, mid: nat, hi: nat, taker: Side, limit: int)
    requires lo <= mid <= hi
    requires forall t | mid <= t < hi :: CrossingAt(book, queues, t, taker, limit) == []
    ensures VisitDown(book, queues, lo, hi, taker, limit) == VisitDown(book, queues, lo, mid, taker, limit)
    decreases hi - mid
  {
    hide CrossingAt;
    if mid < hi { VisitDownSkip(book, queues, lo, mid, hi - 1, taker, limit); }
  }

  lemma {:induction false} VisitRangesUpNone(
    book: Book, queues: seq<seq<nat>>, ranges: seq<(nat, nat)>, k: nat, taker: Side, limit: int)
    requires forall j, t: nat | k <= j < |ranges| && InRange(ranges[j], t) :: CrossingAt(book, queues, t, taker, limit) == []
    ensures VisitRangesUp(book, queues, ranges, k, taker, limit) == []
    decreases |ranges| - k
  {
    hide CrossingAt, VisitUp;
    if k < |ranges| {
      VisitRangesUpNone(book, queues, ranges, k + 1, taker, limit);
      if ranges[k].0 < ranges[k].1 {
        forall t | ranges[k].0 <= t < ranges[k].1 ensures CrossingAt(book, queues, t, taker, limit) == [] {
          assert InRange(ranges[k], t);
        }
        VisitUpSkip(book, queues, ranges[k].0, ranges[k].1, ranges[k].1, taker, limit);
      }
      VisitUpEmpty(book, queues, ranges[k].1, taker, limit);
      VisitUpBackwards(book, queues, ranges[k].0, ranges[k].1, taker, limit);
    }
  }

  lemma VisitUpEmpty(book: Book, queues: seq<seq<nat>>, lo: nat, taker: Side, limit: int)
    ensures VisitUp(book, queues, lo, lo, taker, limit) == [] && VisitDown(book, queues, lo, lo, taker, limit) == []
  {
  }

  lemma VisitUpBackwards(book: Book, queues: seq<seq<nat>>, lo: nat, hi: nat, taker: Side, limit: int)
    ensures lo >= hi ==> VisitUp(book, queues, lo, hi, taker, limit) == []
    ensures lo >= hi ==> VisitDown(book, queues, lo, hi, taker, limit) == []
  {
  }

  lemma {:induction false} VisitRangesDownNone(
    book: Book, queues: seq<seq<nat>>, ranges: seq<(nat, nat)>, k: nat, taker: Side, limit: int)
    requires k <= |ranges|
    requires forall j, t: nat | 0 <= j < k && InRange(ranges[j], t) :: CrossingAt(book, queues, t, taker, limit) == []
    ensures VisitRangesDown(book, queues, ranges, k, taker, limit) == []
  {
    hide CrossingAt, VisitDown;
    if k > 0 {
      VisitRangesDownNone(book, queues, ranges, k - 1, taker, limit);
      var r := ranges[k - 1];
      if r.0 < r.1 {
        forall t | r.0 <= t < r.1 ensures CrossingAt(book, queues, t, taker, limit) == [] {
          assert InRange(ranges[k - 1], t);
        }
        VisitDownSkip(book, queues, r.0, r.0, r.1, taker, limit);
      }
      VisitUpEmpty(book, queues, r.0, taker, limit);
      VisitUpBackwards(book, queues, r.0, r.1, taker, limit);
    }
  }

  /** A slot without an order of the other side has no crossing maker. */
  lemma UnmarkedCrossing(
    slots: seq<OrderSlot>, book: Book, comp: CompressionMap, levels: seq<PriceLevel>, queues: seq<seq<nat>>,
    members: set<nat>, t: nat, taker: Side, limit: int)
    requires Arranged(slots, book, comp, levels, queues) && Marked(levels, taker.Opposite(), members) && t !in members
    ensures CrossingAt(book, queues, t, taker, limit) == []
  {
    hide PriceToIndex, LevelOk, Arranged, Stores, Marked;
    if t < |queues| {
      ArrangedLevel(slots, book, comp, levels, queues, t);
      CrossingMembers(book, queues[t], taker, limit);
      var c := Crossing(book, queues[t], taker, limit);
      if c != [] {
        OrderMarked(slots, book, comp, levels, queues, taker.Opposite(), members, c[0]);
      }
    }
  }

  /** Once a slot holds only makers beyond the limit, so does every slot after it. */
  lemma NothingBeyond(
    slots: seq<OrderSlot>, book: Book, comp: CompressionMap, levels: seq<PriceLevel>, queues: seq<seq<nat>>,
    t: nat, s: nat, g: nat, taker: Side, limit: int)
    requires Regular(comp) && Arranged(slots, book, comp, levels, queues)
    requires t < |queues| && g in queues[t] && g in book && book[g].side == taker.Opposite()
    requires CrossingAt(book, queues, t, taker, limit) == []
    requires s != t && if taker == Buy then WalkLe(comp, t, s) else WalkLe(comp, s, t)
    ensures CrossingAt(book, queues, s, taker, limit) == []
  {
    hide PriceToIndex, LevelOk, Arranged, Stores, Regular, BandOf;
    RegularShaped(comp);
    ArrangedLevel(slots, book, comp, levels, queues, t);
    CrossingMembers(book, queues[t], taker, limit);
    assert !Crosses(book[g], taker, limit);
    if s < |queues| {
      ArrangedLevel(slots, book, comp, levels, queues, s);
      CrossingMembers(book, queues[s], taker, limit);
      var c := Crossing(book, queues[s], taker, limit);
      if c != [] {
        var h := c[0];
        assert h in c;
        if taker == Buy {
          WalkFollowsPrice(comp, book[h].price, book[g].price);
        } else {
          WalkFollowsPrice(comp, book[g].price, book[h].price);
        }
      }
    }
  }

  // ---------------------------------------------------------------------
  // Counting one level.

  lemma {:induction false} SumStep(book: Book, q: seq<nat>, i: nat)
    requires Resting(book, q) && i < |q|
    ensures q[i] in book && SumFirst(book, q, i + 1) == SumFirst(book, q, i) + book[q[i]].qty
  {
    if i > 0 { SumStep(book, q[1..], i - 1); }
  }

  lemma {:induction false} TallyIsSum(book: Book, q: seq<nat>)
    requires Resting(book, q)
    ensures Tally(Quantity, book, q) == SumFirst(book, q, |q|)
  {
    if q != [] { TallyIsSum(book, q[1..]); }
  }

  lemma {:induction false} TallyWholeSide(book: Book, q: seq<nat>, side: Side)
    requires Resting(book, q) && forall h | h in q :: book[h].side == side
    ensures Tally(OnSide(side), book, q) == |q|
  {
    if q != [] { TallyWholeSide(book, q[1..], side); }
  }

  lemma {:induction false} CrossingWhole(book: Book, q: seq<nat>, taker: Side, limit: int)
    requires Resting(book, q)
    ensures (forall h | h in q :: Crosses(book[h], taker, limit)) ==> Crossing(book, q, taker, limit) == q
    ensures (forall h | h in q :: !Crosses(book[h], taker, limit)) ==> Crossing(book, q, taker, limit) == []
  {
    if q != [] {
      CrossingWhole(book, q[1..], taker, limit);
      assert forall h | h in q[1..] :: h in q;
      assert q == [q[0]] + q[1..];
    }
  }

  /** What counting one slot's crossing makers `c` reports: go on, feasible, or infeasible. */
  ghost predicate LevelCounted(
    book: Book, c: seq<nat>, needed: int, total: int, makers: int, stop: bool, feasible: bool, total': int, makers': int)
  {
    && Resting(book, c) && 0 <= makers <= MAX_MAKERS_PER_ORDER
    && var room := MAX_MAKERS_PER_ORDER - makers;
       if !stop then
         && c != [] && |c| <= room && makers' == makers + |c|
         && total' == total + SumFirst(book, c, |c|) && total' < needed
       else if feasible then
         total + SumFirst(book, c, room) >= needed
       else
         && (c == [] || |c| > room)
         && total + SumFirst(book, c, room) < needed
  }

  /** A zone-0 level crosses as a whole, and its header answers for its orders. */
  lemma ZoneZeroCounts(
    slots: seq<OrderSlot>, book: Book, comp: CompressionMap, levels: seq<PriceLevel>, queues: seq<seq<nat>>,
    t: nat, taker: Side, limit: int)
    requires Regular(comp) && Arranged(slots, book, comp, levels, queues)
    requires Uncrossed(book) && Priced(book, comp.tick)
    requires t < |queues| && t < comp.zoneSlots[0] && SideCount(levels[t], taker.Opposite()) > 0
    ensures var q, lvl := queues[t], levels[t];
            && q != [] && lvl.head == q[0] && q[0] < |slots| && Resting(book, q)
            && |q| == SideCount(lvl, taker.Opposite())
            && lvl.totalQty == SumFirst(book, q, |q|)
            && CrossingAt(book, queues, t, taker, limit)
               == if Key(taker.Opposite(), slots[q[0]].price) <= Key(taker.Opposite(), limit) then q else []
  {
    hide PriceToIndex, Regular, Uncrossed, Arranged, Linked, Fifo, Tally, SumFirst;
    ZoneZeroTop(slots, book, comp, levels, queues, t, taker.Opposite());
    ArrangedLevel(slots, book, comp, levels, queues, t);
    TallyIsSum(book, queues[t]);
    TallyWholeSide(book, queues[t], taker.Opposite());
    CrossingWhole(book, queues[t], taker, limit);
  }

  /** The running count of a compressed slot after `i` orders of its queue. */
  ghost predicate Counting(
    book: Book, q: seq<nat>, i: nat, taker: Side, limit: int, needed: int, total0: int, makers0: int,
    total: int, makers: int)
  {
    && i <= |q| && Resting(book, q) && Resting(book, q[..i])
    && var c := Crossing(book, q[..i], taker, limit);
       && Resting(book, c)
       && makers == makers0 + |c| && 0 <= makers0 && makers <= MAX_MAKERS_PER_ORDER
       && total == total0 + SumFirst(book, c, |c|) && total < needed
  }

  lemma CountingStart(book: Book, q: seq<nat>, taker: Side, limit: int, needed: int, total: int, makers: int)
    requires Resting(book, q) && 0 <= makers <= MAX_MAKERS_PER_ORDER && total < needed
    ensures Counting(book, q, 0, taker, limit, needed, total, makers, total, makers)
  {
  }

  lemma CrossingStep(book: Book, q: seq<nat>, i: nat, taker: Side, limit: int)
    requires Resting(book, q) && i < |q|
    ensures q[i] in book && Resting(book, q[..i]) && Resting(book, q[..i + 1])
    ensures Crossing(book, q[..i + 1], taker, limit)
            == Crossing(book, q[..i], taker, limit) + if Crosses(book[q[i]], taker, limit) then [q[i]] else []
  {
    assert q[..i + 1] == q[..i] + [q[i]];
    CrossingAppend(book, q[..i], [q[i]], taker, limit);
    assert [q[i]][1..] == [];
  }

  lemma CountingSkip(
    book: Book, q: seq<nat>, i: nat, taker: Side, limit: int, needed: int, total0: int, makers0: int,
    total: int, makers: int)
    requires Counting(book, q, i, taker, limit, needed, total0, makers0, total, makers) && i < |q|
    requires q[i] in book && !Crosses(book[q[i]], taker, limit)
    ensures Counting(book, q, i + 1, taker, limit, needed, total0, makers0, total, makers)
  {
    hide Crossing, SumFirst, Crosses;
    CrossingStep(book, q, i, taker, limit);
    var c := Crossing(book, q[..i], taker, limit);
    assert c + [] == c;
  }

  lemma CountedSum(book: Book, c: seq<nat>, h: nat)
    requires Resting(book, c) && h in book && Positive(book)
    ensures Resting(book, c + [h]) && SumFirst(book, c + [h], |c| + 1) == SumFirst(book, c, |c|) + book[h].qty
  {
    SumAppend(book, c, [h], |c| + 1);
    assert SumFirst(book, [h], 1) == book[h].qty;
  }

  lemma CountingTake(
    book: Book, q: seq<nat>, i: nat, taker: Side, limit: int, needed: int, total0: int, makers0: int,
    total: int, makers: int)
    requires Counting(book, q, i, taker, limit, needed, total0, makers0, total, makers) && i < |q| && Positive(book)
    requires q[i] in book && Crosses(book[q[i]], taker, limit)
    ensures Resting(book, Crossing(book, q, taker, limit)) && makers <= MAX_MAKERS_PER_ORDER
    ensures makers == MAX_MAKERS_PER_ORDER ==>
              LevelCounted(book, Crossing(book, q, taker, limit), needed, total0, makers0, true, false, total, makers)
    ensures makers < MAX_MAKERS_PER_ORDER && total + book[q[i]].qty >= needed ==>
              LevelCounted(book, Crossing(book, q, taker, limit), needed, total0, makers0, true, true, total, makers)
    ensures makers < MAX_MAKERS_PER_ORDER && total + book[q[i]].qty < needed ==>
              Counting(book, q, i + 1, taker, limit, needed, total0, makers0, total + book[q[i]].qty, makers + 1)
  {
    hide Crossing, SumFirst, Crosses, Positive;
    CrossingStep(book, q, i, taker, limit);
    var c, room := Crossing(book, q[..i], taker, limit), MAX_MAKERS_PER_ORDER - makers0;
    CountedSum(book, c, q[i]);
    CrossingPrefix(book, q, i, taker, limit);
    var rest := Crossing(book, q[i + 1..], taker, limit);
    assert Crossing(book, q, taker, limit) == (c + [q[i]]) + rest == c + ([q[i]] + rest);
    SumAppend(book, c + [q[i]], rest, room);
    SumAppend(book, c, [q[i]] + rest, room);
    if |c| + 1 <= room { SumMore(book, c + [q[i]], |c| + 1, room); }
  }

  lemma CrossingPrefix(book: Book, q: seq<nat>, i: nat, taker: Side, limit: int)
    requires Resting(book, q) && i < |q|
    ensures Resting(book, q[..i + 1]) && Resting(book, q[i + 1..])
    ensures Resting(book, Crossing(book, q, taker, limit)) && Resting(book, Crossing(book, q[i + 1..], taker, limit))
    ensures Crossing(book, q, taker, limit)
            == Crossing(book, q[..i + 1], taker, limit) + Crossing(book, q[i + 1..], taker, limit)
  {
    assert q == q[..i + 1] + q[i + 1..];
    CrossingAppend(book, q[..i + 1], q[i + 1..], taker, limit);
    CrossingMembers(book, q, taker, limit);
    CrossingMembers(book, q[i + 1..], taker, limit);
  }

  lemma {:induction false} SumMore(book: Book, q: seq<nat>, n: nat, m: nat)
    requires Resting(book, q) && Positive(book) && n <= m
    ensures SumFirst(book, q, n) <= SumFirst(book, q, m)
  {
    if q != [] && n > 0 {
      SumMore(book, q[1..], n - 1, m - 1);
    } else {
      SumNonNeg(book, q, m);
    }
  }

  /** `best` is the best price of the side in `q`, or the starting value if there is none. */
  ghost predicate SeenBest(book: Book, q: seq<nat>, side: Side, best: int)
    requires Resting(book, q)
  {
    && (forall h | h in q && book[h].side == side :: Key(side, best) <= Key(side, book[h].price))
    && ((exists h :: h in q && book[h].side == side && book[h].price == best)
        || forall h | h in q :: book[h].side != side)
  }

  lemma SeenStep(book: Book, q: seq<nat>, i: nat, side: Side, best: int)
    requires Resting(book, q) && i < |q| && Resting(book, q[..i]) && SeenBest(book, q[..i], side, best)
    requires q[i] in book && Key(side, book[q[i]].price) <= Key(side, Worst(side))
    requires best == Worst(side) || exists h :: h in q[..i] && book[h].side == side
    ensures Resting(book, q[..i + 1])
    ensures var o := book[q[i]];
            var b := if o.side == side && Key(side, o.price) < Key(side, best) then o.price else best;
            && SeenBest(book, q[..i + 1], side, b)
            && (b == Worst(side) || exists h :: h in q[..i + 1] && book[h].side == side)
  {
    assert q[..i + 1] == q[..i] + [q[i]];
    assert forall h :: h in q[..i + 1] <==> h in q[..i] || h == q[i];
  }

  /** At the end of the walk the best price decides whether anything crosses. */
  lemma CountingEnd(
    book: Book, q: seq<nat>, taker: Side, limit: int, needed: int, total0: int, makers0: int,
    total: int, makers: int, best: int, g: nat)
    requires Counting(book, q, |q|, taker, limit, needed, total0, makers0, total, makers)
    requires SeenBest(book, q[..|q|], taker.Opposite(), best)
    requires g in q && book[g].side == taker.Opposite()
    ensures LevelCounted(book, Crossing(book, q, taker, limit), needed, total0, makers0,
                         Key(taker.Opposite(), best) > Key(taker.Opposite(), limit), false, total, makers)
  {
    assert q[..|q|] == q;
    var c := Crossing(book, q, taker, limit);
    CrossingMembers(book, q, taker, limit);
    if Key(taker.Opposite(), best) > Key(taker.Opposite(), limit) {
      CrossingWhole(book, q, taker, limit);
    } else {
      var h :| h in q && book[h].side == taker.Opposite() && book[h].price == best;
      assert h in c;
    }
  }

  lemma SumNone(book: Book, q: seq<nat>)
    requires Resting(book, q)
    ensures SumFirst(book, q, 0) == 0
  {
  }

  lemma EmptySum(book: Book, n: nat)
    ensures Resting(book, []) && SumFirst(book, [], n) == 0
  {
  }

  lemma SumBeyondHidden(book: Book, q: seq<nat>, n: nat)
    requires Resting(book, q)
    ensures n >= |q| ==> SumFirst(book, q, n) == SumFirst(book, q, |q|)
  {
    if n >= |q| { SumBeyond(book, q, n); }
  }

  lemma HeadIsHandle(slots: seq<OrderSlot>, book: Book, q: seq<nat>, i: nat)
    requires Walkable(slots, book, q) && i < |q|
    ensures HeadOf(q[i..]) == q[i] && q[i] != NONE && q[i] in book
  {
  }

  lemma SeenStart(book: Book, q: seq<nat>, side: Side)
    ensures Resting(book, q[..0]) && SeenBest(book, q[..0], side, Worst(side))
  {
  }

  lemma SeenStepAt(book: Book, q: seq<nat>, i: nat, side: Side, best: int)
    requires Resting(book, q) && i < |q| && Resting(book, q[..i]) && SeenBest(book, q[..i], side, best)
    requires q[i] in book && Key(side, book[q[i]].price) <= Key(side, Worst(side))
    requires best == Worst(side) || exists h :: h in q[..i] && h in book && book[h].side == side
    ensures Resting(book, q[..i + 1])
    ensures var o := book[q[i]];
            var b := if o.side == side && Key(side, o.price) < Key(side, best) then o.price else best;
            && SeenBest(book, q[..i + 1], side, b)
            && (b == Worst(side) || exists h :: h in q[..i + 1] && h in book && book[h].side == side)
  {
    SeenStep(book, q, i, side, best);
  }

  /** What the pre-check counts: the crossing makers in visiting order, up to the cap. */
  ghost function CountedQty(
    book: Book, queues: seq<seq<nat>>, ranges: seq<(nat, nat)>, taker: Side, limit: int): int
  {
    var v := VisitAll(book, queues, ranges, taker, limit);
    if Resting(book, v) then SumFirst(book, v, MAX_MAKERS_PER_ORDER) else 0
  }

  // ---------------------------------------------------------------------
  // The running tally of the pre-check.

  /** `makers` makers of `visit` are counted, `rest` is still to come, and the need is not met yet. */
  ghost predicate Tallied(book: Book, visit: seq<nat>, rest: seq<nat>, needed: int, total: int, makers: int) {
    && 0 <= makers <= |visit| && makers <= MAX_MAKERS_PER_ORDER
    && visit[makers..] == rest
    && Resting(book, visit)
    && total == SumFirst(book, visit, makers) < needed
  }

  lemma TallyStart(book: Book, visit: seq<nat>, needed: int)
    requires Resting(book, visit) && needed > 0
    ensures Tallied(book, visit, visit, needed, 0, 0)
  {
  }

  lemma {:induction false} SumSplit(book: Book, q: seq<nat>, m: nat, n: nat)
    requires Resting(book, q) && m <= |q|
    ensures Resting(book, q[m..])
    ensures SumFirst(book, q, m + n) == SumFirst(book, q, m) + SumFirst(book, q[m..], n)
  {
    if m > 0 {
      SumSplit(book, q[1..], m - 1, n);
      assert q[1..][m - 1..] == q[m..];
    } else {
      assert q[0..] == q;
    }
  }

  lemma GoOn(
    book: Book, visit: seq<nat>, c: seq<nat>, rest: seq<nat>, needed: int, total: int, makers: int,
    total': int, makers': int)
    requires Tallied(book, visit, c + rest, needed, total, makers) && Positive(book)
    requires LevelCounted(book, c, needed, total, makers, false, false, total', makers')
      || LevelCounted(book, c, needed, total, makers, false, true, total', makers')
    ensures Tallied(book, visit, rest, needed, total', makers')
  {
    SumSplit(book, visit, makers, |c|);
    assert forall h | h in rest :: h in c + rest;
    SumAppend(book, c, rest, |c|);
    assert visit[makers'..] == (c + rest)[|c|..] == rest;
  }

  lemma StopHere(
    book: Book, visit: seq<nat>, c: seq<nat>, rest: seq<nat>, needed: int, total: int, makers: int,
    feasible: bool, total': int, makers': int)
    requires Tallied(book, visit, c + rest, needed, total, makers) && Positive(book)
    requires LevelCounted(book, c, needed, total, makers, true, feasible, total', makers')
    requires c == [] ==> rest == []
    ensures feasible <==> SumFirst(book, visit, MAX_MAKERS_PER_ORDER) >= needed
  {
    var room := MAX_MAKERS_PER_ORDER - makers;
    SumSplit(book, visit, makers, room);
    assert forall h | h in rest :: h in c + rest;
    SumAppend(book, c, rest, room);
  }

  lemma TallyEnd(book: Book, visit: seq<nat>, needed: int, total: int, makers: int)
    requires Tallied(book, visit, [], needed, total, makers)
    ensures SumFirst(book, visit, MAX_MAKERS_PER_ORDER) < needed
  {
    SumBeyond(book, visit, MAX_MAKERS_PER_ORDER);
  }

  // ---------------------------------------------------------------------
  // Every listed maker rests.

  lemma CrossingAtResting(book: Book, queues: seq<seq<nat>>, t: int, taker: Side, limit: int)
    ensures Resting(book, CrossingAt(book, queues, t, taker, limit))
  {
    if 0 <= t < |queues| && Resting(book, queues[t]) { CrossingMembers(book, queues[t], taker, limit); }
  }

  lemma {:induction false} VisitUpResting(book: Book, queues: seq<seq<nat>>, lo: nat, hi: nat, taker: Side, limit: int)
    ensures Resting(book, VisitUp(book, queues, lo, hi, taker, limit))
    decreases hi - lo
  {
    hide CrossingAt;
    if lo < hi {
      CrossingAtResting(book, queues, lo, taker, limit);
      VisitUpResting(book, queues, lo + 1, hi, taker, limit);
    }
  }

  lemma {:induction false} VisitDownResting(book: Book, queues: seq<seq<nat>>, lo: nat, hi: nat, taker: Side, limit: int)
    ensures Resting(book, VisitDown(book, queues, lo, hi, taker, limit))
    decreases hi - lo
  {
    hide CrossingAt;
    if lo < hi {
      CrossingAtResting(book, queues, hi - 1, taker, limit);
      VisitDownResting(book, queues, lo, hi - 1, taker, limit);
    }
  }

  lemma {:induction false} VisitRangesUpResting(
    book: Book, queues: seq<seq<nat>>, ranges: seq<(nat, nat)>, k: nat, taker: Side, limit: int)
    ensures Resting(book, VisitRangesUp(book, queues, ranges, k, taker, limit))
    decreases |ranges| - k
  {
    hide VisitUp;
    if k < |ranges| {
      VisitUpResting(book, queues, ranges[k].0, ranges[k].1, taker, limit);
      VisitRangesUpResting(book, queues, ranges, k + 1, taker, limit);
    }
  }

  lemma {:induction false} VisitRangesDownResting(
    book: Book, queues: seq<seq<nat>>, ranges: seq<(nat, nat)>, k: nat, taker: Side, limit: int)
    requires k <= |ranges|
    ensures Resting(book, VisitRangesDown(book, queues, ranges, k, taker, limit))
  {
    hide VisitDown;
    if k > 0 {
      VisitDownResting(book, queues, ranges[k - 1].0, ranges[k - 1].1, taker, limit);
      VisitRangesDownResting(book, queues, ranges, k - 1, taker, limit);
    }
  }

  lemma VisitAllResting(book: Book, queues: seq<seq<nat>>, ranges: seq<(nat, nat)>, taker: Side, limit: int)
    ensures Resting(book, VisitAll(book, queues, ranges, taker, limit))
  {
    VisitRangesUpResting(book, queues, ranges, 0, taker, limit);
    VisitRangesDownResting(book, queues, ranges, |ranges|, taker, limit);
  }

  // ---------------------------------------------------------------------
  // Steps of the two scans.

  lemma NextUp(
    slots: seq<OrderSlot>, book: Book, comp: CompressionMap, levels: seq<PriceLevel>, queues: seq<seq<nat>>,
    members: set<nat>, cur: nat, t: nat, hi: nat, limit: int)
    requires Arranged(slots, book, comp, levels, queues) && Marked(levels, Sell, members)
    requires cur <= t <= hi && forall s | s in members && cur <= s :: t <= s
    ensures VisitUp(book, queues, cur, hi, Buy, limit) == VisitUp(book, queues, t, hi, Buy, limit)
    ensures t < hi ==> VisitUp(book, queues, t, hi, Buy, limit)
                       == CrossingAt(book, queues, t, Buy, limit) + VisitUp(book, queues, t + 1, hi, Buy, limit)
  {
    hide Arranged, Marked, CrossingAt;
    forall s | cur <= s < t ensures CrossingAt(book, queues, s, Buy, limit) == [] {
      UnmarkedCrossing(slots, book, comp, levels, queues, members, s, Buy, limit);
    }
    VisitUpSkip(book, queues, cur, t, hi, Buy, limit);
  }

  lemma NoMoreUp(
    slots: seq<OrderSlot>, book: Book, comp: CompressionMap, levels: seq<PriceLevel>, queues: seq<seq<nat>>,
    members: set<nat>, cur: nat, hi: nat, limit: int)
    requires Arranged(slots, book, comp, levels, queues) && Marked(levels, Sell, members)
    requires forall s | s in members :: !(cur <= s < hi)
    ensures VisitUp(book, queues, cur, hi, Buy, limit) == []
  {
    hide Arranged, Marked, CrossingAt, VisitUp;
    VisitUpBackwards(book, queues, cur, hi, Buy, limit);
    VisitUpEmpty(book, queues, hi, Buy, limit);
    if cur < hi {
      forall s | cur <= s < hi ensures CrossingAt(book, queues, s, Buy, limit) == [] {
        UnmarkedCrossing(slots, book, comp, levels, queues, members, s, Buy, limit);
      }
      VisitUpSkip(book, queues, cur, hi, hi, Buy, limit);
    }
  }

  lemma NothingLaterUp(
    slots: seq<OrderSlot>, book: Book, comp: CompressionMap, levels: seq<PriceLevel>, queues: seq<seq<nat>>,
    k: nat, t: nat, g: nat, limit: int)
    requires Regular(comp) && Arranged(slots, book, comp, levels, queues)
    requires k < |PriceAsc(comp)| && InRange(PriceAsc(comp)[k], t) && t < |queues|
    requires g in queues[t] && g in book && book[g].side == Sell
    requires CrossingAt(book, queues, t, Buy, limit) == []
    ensures VisitUp(book, queues, t + 1, PriceAsc(comp)[k].1, Buy, limit) == []
    ensures VisitRangesUp(book, queues, PriceAsc(comp), k + 1, Buy, limit) == []
  {
    hide Arranged, CrossingAt, VisitUp, Regular, PriceAsc, VisitRangesUp, BandOf;
    RegularShaped(comp);
    ArrangedShaped(slots, book, comp, levels, queues);
    RangesPartition(comp, t);
    var hi := PriceAsc(comp)[k].1;
    forall j, s: nat | k <= j < |PriceAsc(comp)| && InRange(PriceAsc(comp)[j], s) && (j > k || s > t)
      ensures CrossingAt(book, queues, s, Buy, limit) == []
    {
      if s < |queues| {
        RangesPartition(comp, s);
        NothingBeyond(slots, book, comp, levels, queues, t, s, g, Buy, limit);
      } else {
        BeyondQueues(book, queues, s, Buy, limit);
      }
    }
    VisitRangesUpNone(book, queues, PriceAsc(comp), k + 1, Buy, limit);
    forall s | t + 1 <= s < hi ensures CrossingAt(book, queues, s, Buy, limit) == [] {
      assert InRange(PriceAsc(comp)[k], s);
    }
    VisitUpSkip(book, queues, t + 1, hi, hi, Buy, limit);
    VisitUpEmpty(book, queues, hi, Buy, limit);
  }

  lemma BeyondQueues(book: Book, queues: seq<seq<nat>>, s: nat, taker: Side, limit: int)
    requires s >= |queues|
    ensures CrossingAt(book, queues, s, taker, limit) == []
  {
  }

  lemma NextDown(
    slots: seq<OrderSlot>, book: Book, comp: CompressionMap, levels: seq<PriceLevel>, queues: seq<seq<nat>>,
    members: set<nat>, lo: nat, t: nat, top: nat, limit: int)
    requires Arranged(slots, book, comp, levels, queues) && Marked(levels, Buy, members)
    requires lo <= t < top && forall s | s in members && s < top :: s <= t
    ensures VisitDown(book, queues, lo, top, Sell, limit)
            == CrossingAt(book, queues, t, Sell, limit) + VisitDown(book, queues, lo, t, Sell, limit)
  {
    hide Arranged, Marked, CrossingAt;
    forall s | t + 1 <= s < top ensures CrossingAt(book, queues, s, Sell, limit) == [] {
      UnmarkedCrossing(slots, book, comp, levels, queues, members, s, Sell, limit);
    }
    VisitDownSkip(book, queues, lo, t + 1, top, Sell, limit);
  }

  lemma NoMoreDown(
    slots: seq<OrderSlot>, book: Book, comp: CompressionMap, levels: seq<PriceLevel>, queues: seq<seq<nat>>,
    members: set<nat>, lo: nat, top: nat, limit: int)
    requires Arranged(slots, book, comp, levels, queues) && Marked(levels, Buy, members)
    requires forall s | s in members :: !(lo <= s < top)
    ensures VisitDown(book, queues, lo, top, Sell, limit) == []
  {
    hide Arranged, Marked, CrossingAt, VisitDown;
    VisitUpBackwards(book, queues, lo, top, Sell, limit);
    VisitUpEmpty(book, queues, lo, Sell, limit);
    if lo < top {
      forall s | lo <= s < top ensures CrossingAt(book, queues, s, Sell, limit) == [] {
        UnmarkedCrossing(slots, book, comp, levels, queues, members, s, Sell, limit);
      }
      VisitDownSkip(book, queues, lo, lo, top, Sell, limit);
    }
  }

  lemma NothingLaterDown(
    slots: seq<OrderSlot>, book: Book, comp: CompressionMap, levels: seq<PriceLevel>, queues: seq<seq<nat>>,
    k: nat, t: nat, g: nat, limit: int)
    requires Regular(comp) && Arranged(slots, book, comp, levels, queues)
    requires k < |PriceAsc(comp)| && InRange(PriceAsc(comp)[k], t) && t < |queues|
    requires g in queues[t] && g in book && book[g].side == Buy
    requires CrossingAt(book, queues, t, Sell, limit) == []
    ensures VisitDown(book, queues, PriceAsc(comp)[k].0, t, Sell, limit) == []
    ensures VisitRangesDown(book, queues, PriceAsc(comp), k, Sell, limit) == []
  {
    hide Arranged, CrossingAt, VisitDown, Regular, PriceAsc, VisitRangesDown, BandOf;
    RegularShaped(comp);
    ArrangedShaped(slots, book, comp, levels, queues);
    RangesPartition(comp, t);
    var lo := PriceAsc(comp)[k].0;
    forall j, s: nat | 0 <= j <= k && InRange(PriceAsc(comp)[j], s) && (j < k || s < t)
      ensures CrossingAt(book, queues, s, Sell, limit) == []
    {
      if s < |queues| {
        RangesPartition(comp, s);
        NothingBeyond(slots, book, comp, levels, queues, t, s, g, Sell, limit);
      } else {
        BeyondQueues(book, queues, s, Sell, limit);
      }
    }
    VisitRangesDownNone(book, queues, PriceAsc(comp), k, Sell, limit);
    forall s | lo <= s < t ensures CrossingAt(book, queues, s, Sell, limit) == [] {
      assert InRange(PriceAsc(comp)[k], s);
    }
    VisitDownSkip(book, queues, lo, lo, t, Sell, limit);
    VisitUpEmpty(book, queues, lo, Sell, limit);
  }

  lemma TalliedRange(book: Book, visit: seq<nat>, rest: seq<nat>, needed: int, total: int, makers: int)
    requires Tallied(book, visit, rest, needed, total, makers)
    ensures 0 <= makers <= MAX_MAKERS_PER_ORDER && total < needed
  {
  }
}
