/** The simple book: resting orders by handle, matched best price first, then oldest first. */
module PriceTime {
  import opened Types
  import opened Arena

  /** A resting order. `stamp` numbers the arrivals. */
  datatype Order = Order(
    side: Side, price: int, qty: int, original: int, tif: TimeInForce, reduceOnly: bool,
    user: nat, id: OrderId, stamp: nat)

  type Book = map<nat, Order>

  /** How far a price is from the best for its side: smaller fills first. */
  function Key(side: Side, price: int): int {
    if side == Sell then price else -price
  }

  /** Priority of resting orders: better price, then earlier arrival. */
  predicate Before(a: Order, b: Order) {
    || Key(a.side, a.price) < Key(b.side, b.price)
    || (Key(a.side, a.price) == Key(b.side, b.price) && a.stamp < b.stamp)
  }

  predicate Crosses(maker: Order, taker: Side, limit: int) {
    maker.side != taker && Key(maker.side, maker.price) <= Key(maker.side, limit)
  }

  /** No two orders arrived together. */
  ghost predicate Stamped(book: Book) {
    forall g, h | g in book && h in book && book[g].stamp == book[h].stamp :: g == h
  }

  // ---------------------------------------------------------------------
  // The sorted list of one side.

  ghost predicate IsFirst(book: Book, hs: set<nat>, h: nat)
    requires hs <= book.Keys
  {
    h in hs && forall g | g in hs && g != h :: Before(book[h], book[g])
  }

  lemma {:induction false} FirstExists(book: Book, hs: set<nat>)
    requires Stamped(book) && hs <= book.Keys && hs != {}
    ensures exists h :: IsFirst(book, hs, h)
  {
    var g :| g in hs;
    var rest := hs - {g};
    assert forall x | x in hs :: x == g || x in rest;
    if rest == {} {
      assert IsFirst(book, hs, g);
    } else {
      FirstExists(book, rest);
      var h :| IsFirst(book, rest, h);
      if Before(book[g], book[h]) {
        assert IsFirst(book, hs, g);
      } else {
        assert book[g].stamp != book[h].stamp;
        assert IsFirst(book, hs, h);
      }
    }
  }

  ghost function First(book: Book, hs: set<nat>): (h: nat)
    requires Stamped(book) && hs <= book.Keys && hs != {}
    ensures IsFirst(book, hs, h)
  {
    FirstExists(book, hs);
    var h :| IsFirst(book, hs, h);
    h
  }

  ghost function Sorted(book: Book, hs: set<nat>): (q: seq<nat>)
    requires Stamped(book) && hs <= book.Keys
    ensures forall h :: h in q <==> h in hs
    decreases |hs|
  {
    if hs == {} then []
    else
      var h := First(book, hs);
      [h] + Sorted(book, hs - {h})
  }

  ghost function SideOf(book: Book, side: Side): (hs: set<nat>)
    ensures hs <= book.Keys
  {
    set h | h in book && book[h].side == side
  }

  /** The resting orders of one side, best price first, oldest first within a price. */
  ghost function Ladder(book: Book, side: Side): (q: seq<nat>)
    requires Stamped(book)
    ensures forall h :: h in q <==> h in book && book[h].side == side
  {
    Sorted(book, SideOf(book, side))
  }

  ghost predicate Ordered(book: Book, q: seq<nat>) {
    && (forall h | h in q :: h in book)
    && (forall i, j | 0 <= i < j < |q| :: Before(book[q[i]], book[q[j]]))
  }

  lemma OrderedCons(book: Book, h: nat, k: seq<nat>)
    requires h in book && Ordered(book, k)
    requires k != [] ==> Before(book[h], book[k[0]])
    ensures Ordered(book, [h] + k)
  {
    var all := [h] + k;
    forall i, j | 0 <= i < j < |all| ensures Before(book[all[i]], book[all[j]]) {
      assert all[j] == k[j - 1];
      if i > 0 {
        assert all[i] == k[i - 1];
      } else if j > 1 {
        assert Before(book[k[0]], book[k[j - 1]]);
      }
    }
  }

  lemma {:induction false} SortedOrdered(book: Book, hs: set<nat>)
    requires Stamped(book) && hs <= book.Keys
    ensures Ordered(book, Sorted(book, hs)) && Distinct(Sorted(book, hs))
    decreases |hs|
  {
    if hs != {} {
      var h := First(book, hs);
      var rest := Sorted(book, hs - {h});
      SortedOrdered(book, hs - {h});
      assert Sorted(book, hs) == [h] + rest;
      forall j | 0 <= j < |rest| ensures Before(book[h], book[rest[j]]) && rest[j] != h {
        assert rest[j] in rest;
      }
    }
  }

  lemma LadderOrdered(book: Book, side: Side)
    requires Stamped(book)
    ensures Ordered(book, Ladder(book, side)) && Distinct(Ladder(book, side))
  {
    SortedOrdered(book, SideOf(book, side));
  }

  // ---------------------------------------------------------------------
  // The simple matcher.

  type Fills = map<nat, int>

  function Least(a: int, b: int): int { if a < b then a else b }

  /** Every handle of `q` names an order. */
  predicate Resting(book: Book, q: seq<nat>) {
    forall h | h in q :: h in book
  }

  /** Walk `q`, filling each crossing maker until the taker is done or `room` makers are used. */
  function Sweep(book: Book, q: seq<nat>, taker: Side, limit: int, rem: int, room: nat): Fills
    requires Resting(book, q)
  {
    if q == [] || rem <= 0 || room == 0 then map[]
    else if !Crosses(book[q[0]], taker, limit) then Sweep(book, q[1..], taker, limit, rem, room)
    else
      var f := Least(rem, book[q[0]].qty);
      Sweep(book, q[1..], taker, limit, rem - f, room - 1)[q[0] := f]
  }

  function Got(fills: Fills, h: nat): int {
    if h in fills then fills[h] else 0
  }

  /** What the makers of `q` received together. */
  function Total(fills: Fills, q: seq<nat>): int {
    if q == [] then 0 else Got(fills, q[0]) + Total(fills, q[1..])
  }

  predicate Positive(book: Book) {
    forall h | h in book :: book[h].qty > 0
  }

  predicate FullyFilled(book: Book, fills: Fills, h: nat) {
    h in fills && h in book && fills[h] == book[h].qty
  }

  /** Each fill takes a positive part of a crossing maker. */
  predicate FillsWithin(book: Book, taker: Side, limit: int, fills: Fills) {
    forall h | h in fills :: h in book && Crosses(book[h], taker, limit) && 0 < fills[h] <= book[h].qty
  }

  /** A maker fills only after every crossing maker earlier in `q` has filled completely. */
  predicate InTurn(book: Book, q: seq<nat>, taker: Side, limit: int, fills: Fills)
    requires forall h | h in q :: h in book
  {
    forall i, j | 0 <= i < j < |q| && q[j] in fills && Crosses(book[q[i]], taker, limit) ::
      FullyFilled(book, fills, q[i])
  }

  /** The match stopped for a reason: taker done, room used up, or no crossing maker left. */
  predicate Stopped(book: Book, q: seq<nat>, taker: Side, limit: int, rem: int, room: nat, fills: Fills)
    requires forall h | h in q :: h in book
  {
    || Total(fills, q) == rem
    || |fills| == room
    || forall h | h in q && Crosses(book[h], taker, limit) :: h in fills
  }

  /** What a fair walk of `q` gives, said without walking it. */
  predicate Fair(book: Book, q: seq<nat>, taker: Side, limit: int, rem: int, room: nat, fills: Fills)
    requires forall h | h in q :: h in book
  {
    && (forall h | h in fills :: h in q)
    && FillsWithin(book, taker, limit, fills)
    && InTurn(book, q, taker, limit, fills)
    && Total(fills, q) <= rem
    && |fills| <= room
    && ((exists h :: h in fills && fills[h] < book[h].qty) ==> Total(fills, q) == rem)
    && Stopped(book, q, taker, limit, rem, room, fills)
  }

  lemma {:induction false} TotalGrows(fills: Fills, q: seq<nat>, h: nat)
    requires h in q && h in fills && forall g | g in fills :: fills[g] > 0
    ensures Total(fills, q) >= fills[h]
  {
    TotalNonNeg(fills, q[1..]);
    if q[0] != h { TotalGrows(fills, q[1..], h); }
  }

  lemma {:induction false} TotalNonNeg(fills: Fills, q: seq<nat>)
    requires forall g | g in fills :: fills[g] > 0
    ensures Total(fills, q) >= 0
  {
    if q != [] { TotalNonNeg(fills, q[1..]); }
  }

  /** Fills that agree on `q` have the same total. */
  lemma {:induction false} TotalSame(f: Fills, g: Fills, q: seq<nat>)
    requires forall h | h in q :: Got(f, h) == Got(g, h)
    ensures Total(f, q) == Total(g, q)
  {
    if q != [] { TotalSame(f, g, q[1..]); }
  }

  lemma {:induction false} TotalSum(f: Fills, g: Fills, k: Fills, q: seq<nat>)
    requires forall h | h in q :: Got(f, h) == Got(g, h) + Got(k, h)
    ensures Total(f, q) == Total(g, q) + Total(k, q)
  {
    if q != [] { TotalSum(f, g, k, q[1..]); }
  }

  lemma {:induction false} TotalEmpty(q: seq<nat>)
    ensures Total(map[], q) == 0
  {
    if q != [] { TotalEmpty(q[1..]); }
  }

  lemma {:induction false} TotalAdd(fills: Fills, q: seq<nat>, h: nat, f: int)
    requires Distinct(q) && h in q && h !in fills
    ensures Total(fills[h := f], q) == Total(fills, q) + f
  {
    if q[0] == h {
      TotalSame(fills[h := f], fills, q[1..]);
    } else {
      TotalAdd(fills, q[1..], h, f);
    }
  }

  lemma {:induction false} TotalAppend(fills: Fills, p: seq<nat>, q: seq<nat>)
    ensures Total(fills, p + q) == Total(fills, p) + Total(fills, q)
  {
    if p == [] {
      assert p + q == q;
    } else {
      assert (p + q)[1..] == p[1..] + q;
      TotalAppend(fills, p[1..], q);
    }
  }

  /** The total does not depend on the order the makers are listed in. */
  lemma {:induction false} TotalReorder(fills: Fills, p: seq<nat>, q: seq<nat>)
    requires Distinct(p) && Distinct(q)
    requires forall h | h in fills :: h in p && h in q
    ensures Total(fills, p) == Total(fills, q)
    decreases |p|
  {
    if p == [] {
      assert fills == map[];
      TotalEmpty(q);
    } else {
      var h := p[0];
      var less := fills - {h};
      TotalSame(fills, less, p[1..]);
      TotalReorder(less, p[1..], q);
      if h in fills {
        assert fills == less[h := fills[h]];
        TotalAdd(less, q, h, fills[h]);
      } else {
        assert less == fills;
      }
    }
  }

  // ---------------------------------------------------------------------
  // The walk is fair, and fairness leaves only the walk.

  lemma InTurnTail(book: Book, q: seq<nat>, taker: Side, limit: int, fills: Fills)
    requires q != [] && Distinct(q) && forall h | h in q :: h in book
    requires InTurn(book, q, taker, limit, fills)
    ensures InTurn(book, q[1..], taker, limit, fills - {q[0]})
  {
    var t, rest := q[1..], fills - {q[0]};
    forall i, j | 0 <= i < j < |t| && t[j] in rest && Crosses(book[t[i]], taker, limit)
      ensures FullyFilled(book, rest, t[i])
    {
      assert t[i] == q[i + 1] && t[j] == q[j + 1];
      assert FullyFilled(book, fills, q[i + 1]);
    }
  }

  lemma InTurnCons(book: Book, q: seq<nat>, taker: Side, limit: int, fills: Fills)
    requires q != [] && Distinct(q) && forall h | h in q :: h in book
    requires InTurn(book, q[1..], taker, limit, fills - {q[0]})
    requires Crosses(book[q[0]], taker, limit) ==>
               FullyFilled(book, fills, q[0]) || forall h | h in fills :: h == q[0]
    ensures InTurn(book, q, taker, limit, fills)
  {
    var t, rest := q[1..], fills - {q[0]};
    forall i, j | 0 <= i < j < |q| && q[j] in fills && Crosses(book[q[i]], taker, limit)
      ensures FullyFilled(book, fills, q[i])
    {
      assert q[j] == t[j - 1] && q[j] in rest;
      if i > 0 {
        assert q[i] == t[i - 1];
        assert FullyFilled(book, rest, t[i - 1]);
      }
    }
  }

  lemma TailDistinct(q: seq<nat>)
    requires q != [] && Distinct(q)
    ensures Distinct(q[1..]) && q[0] !in q[1..]
    ensures forall h :: h in q <==> h == q[0] || h in q[1..]
  {
    assert q == [q[0]] + q[1..];
  }

  lemma {:induction false} SweepFair(book: Book, q: seq<nat>, taker: Side, limit: int, rem: int, room: nat)
    requires Distinct(q) && (forall h | h in q :: h in book) && Positive(book) && rem >= 0
    ensures Fair(book, q, taker, limit, rem, room, Sweep(book, q, taker, limit, rem, room))
  {
    hide Fair, Distinct, Positive, Crosses;
    if q == [] || rem == 0 || room == 0 {
      FairNothing(book, q, taker, limit, rem, room);
      return;
    }
    TailDistinct(q);
    if !Crosses(book[q[0]], taker, limit) {
      SweepFair(book, q[1..], taker, limit, rem, room);
      FairSkip(book, q, taker, limit, rem, room, Sweep(book, q, taker, limit, rem, room));
    } else {
      var f := Least(rem, book[q[0]].qty);
      PositiveHead(book, q);
      SweepFair(book, q[1..], taker, limit, rem - f, room - 1);
      FairTake(book, q, taker, limit, rem, room, f, Sweep(book, q[1..], taker, limit, rem - f, room - 1));
    }
  }

  lemma PositiveHead(book: Book, q: seq<nat>)
    requires q != [] && q[0] in book && Positive(book)
    ensures book[q[0]].qty > 0
  {
  }

  lemma FairNothing(book: Book, q: seq<nat>, taker: Side, limit: int, rem: int, room: nat)
    requires forall h | h in q :: h in book
    requires q == [] || rem == 0 || room == 0
    requires rem >= 0
    ensures Fair(book, q, taker, limit, rem, room, map[])
  {
    TotalEmpty(q);
  }

  lemma FairSkip(book: Book, q: seq<nat>, taker: Side, limit: int, rem: int, room: nat, fills: Fills)
    requires q != [] && Distinct(q) && forall h | h in q :: h in book
    requires !Crosses(book[q[0]], taker, limit)
    requires Fair(book, q[1..], taker, limit, rem, room, fills)
    ensures Fair(book, q, taker, limit, rem, room, fills)
  {
    hide InTurn, Distinct, FillsWithin, Crosses, Total, Stopped;
    TailDistinct(q);
    assert q[0] !in fills;
    assert fills - {q[0]} == fills;
    InTurnCons(book, q, taker, limit, fills);
    StoppedSkip(book, q, taker, limit, rem, room, fills);
  }

  lemma StoppedSkip(book: Book, q: seq<nat>, taker: Side, limit: int, rem: int, room: nat, fills: Fills)
    requires q != [] && (forall h | h in q :: h in book) && q[0] !in fills && !Crosses(book[q[0]], taker, limit)
    ensures Total(fills, q) == Total(fills, q[1..])
    ensures Stopped(book, q[1..], taker, limit, rem, room, fills) ==> Stopped(book, q, taker, limit, rem, room, fills)
  {
    hide Crosses;
    assert q == [q[0]] + q[1..];
  }

  lemma TakeTotal(q: seq<nat>, f: int, rest: Fills)
    requires q != [] && Distinct(q)
    ensures Total(rest[q[0] := f], q) == f + Total(rest, q[1..])
  {
    TailDistinct(q);
    TotalSame(rest[q[0] := f], rest, q[1..]);
  }

  lemma TakeStopped(book: Book, q: seq<nat>, taker: Side, limit: int, rem: int, room: nat, f: int, rest: Fills)
    requires q != [] && Distinct(q) && (forall h | h in q :: h in book) && q[0] !in rest && room > 0
    ensures Stopped(book, q, taker, limit, rem, room, rest[q[0] := f])
            <== Stopped(book, q[1..], taker, limit, rem - f, room - 1, rest)
    ensures Crosses(book[q[0]], taker, limit) ==>
              (Stopped(book, q, taker, limit, rem, room, rest[q[0] := f])
               ==> Stopped(book, q[1..], taker, limit, rem - f, room - 1, rest))
  {
    TailDistinct(q);
    TakeTotal(q, f, rest);
    hide Crosses, Total, Distinct;
  }

  lemma FairTake(book: Book, q: seq<nat>, taker: Side, limit: int, rem: int, room: nat, f: int, rest: Fills)
    requires q != [] && Distinct(q) && (forall h | h in q :: h in book) && Positive(book)
    requires Crosses(book[q[0]], taker, limit) && rem > 0 && room > 0 && f == Least(rem, book[q[0]].qty)
    requires Fair(book, q[1..], taker, limit, rem - f, room - 1, rest)
    requires rem == f ==> rest == map[]
    ensures Fair(book, q, taker, limit, rem, room, rest[q[0] := f])
  {
    hide InTurn, Stopped, Total, Distinct, Crosses, FillsWithin;
    var fills := rest[q[0] := f];
    TailDistinct(q);
    assert q[0] !in rest;
    assert fills - {q[0]} == rest;
    WithinTake(book, taker, limit, rest, q[0], f);
    InTurnCons(book, q, taker, limit, fills);
    TakeTotal(q, f, rest);
    TakeStopped(book, q, taker, limit, rem, room, f, rest);
    if rem == f { TotalEmpty(q[1..]); }
    assert forall h | h in fills && h != q[0] :: h in rest && rest[h] == fills[h];
  }

  /** Fairness determines the fills: they are the ones the simple matcher gives. */
  lemma {:induction false} FairIsSweep(
    book: Book, q: seq<nat>, taker: Side, limit: int, rem: int, room: nat, fills: Fills)
    requires Distinct(q) && (forall h | h in q :: h in book) && Positive(book) && rem >= 0
    requires Fair(book, q, taker, limit, rem, room, fills)
    ensures fills == Sweep(book, q, taker, limit, rem, room)
  {
    hide Fair, Distinct, Positive;
    if q != [] { TailDistinct(q); }
    if q == [] || room == 0 || rem == 0 {
      FairEmpty(book, q, taker, limit, rem, room, fills);
    } else if !Crosses(book[q[0]], taker, limit) {
      FairUnskip(book, q, taker, limit, rem, room, fills);
      FairIsSweep(book, q[1..], taker, limit, rem, room, fills);
    } else {
      var f := FairUntake(book, q, taker, limit, rem, room, fills);
      FairIsSweep(book, q[1..], taker, limit, rem - f, room - 1, fills - {q[0]});
      assert fills == (fills - {q[0]})[q[0] := f];
    }
  }

  lemma FairEmpty(book: Book, q: seq<nat>, taker: Side, limit: int, rem: int, room: nat, fills: Fills)
    requires forall h | h in q :: h in book
    requires Fair(book, q, taker, limit, rem, room, fills)
    requires q == [] || room == 0 || rem == 0
    ensures fills == map[]
  {
    hide InTurn, Stopped, Crosses;
    if q != [] && room != 0 {
      forall h | h in fills ensures Total(fills, q) > 0 { TotalGrows(fills, q, h); }
    }
  }

  lemma FairUnskip(book: Book, q: seq<nat>, taker: Side, limit: int, rem: int, room: nat, fills: Fills)
    requires q != [] && Distinct(q) && forall h | h in q :: h in book
    requires !Crosses(book[q[0]], taker, limit)
    requires Fair(book, q, taker, limit, rem, room, fills)
    ensures Fair(book, q[1..], taker, limit, rem, room, fills)
  {
    hide InTurn, FillsWithin, Distinct, Crosses;
    NeverFilled(book, taker, limit, fills, q[0]);
    assert fills - {q[0]} == fills;
    TailDistinct(q);
    InTurnTail(book, q, taker, limit, fills);
  }

  lemma NeverFilled(book: Book, taker: Side, limit: int, fills: Fills, h: nat)
    requires FillsWithin(book, taker, limit, fills) && h in book && !Crosses(book[h], taker, limit)
    ensures h !in fills
  {
  }

  lemma WithinTake(book: Book, taker: Side, limit: int, rest: Fills, h: nat, f: int)
    requires FillsWithin(book, taker, limit, rest) && h in book && Crosses(book[h], taker, limit) && 0 < f <= book[h].qty
    ensures FillsWithin(book, taker, limit, rest[h := f])
  {
  }

  lemma FairUntake(book: Book, q: seq<nat>, taker: Side, limit: int, rem: int, room: nat, fills: Fills)
    returns (f: int)
    requires q != [] && Distinct(q) && (forall h | h in q :: h in book) && Positive(book)
    requires Crosses(book[q[0]], taker, limit) && rem > 0 && room > 0
    requires Fair(book, q, taker, limit, rem, room, fills)
    ensures f == Least(rem, book[q[0]].qty) && q[0] in fills && fills[q[0]] == f
    ensures Fair(book, q[1..], taker, limit, rem - f, room - 1, fills - {q[0]})
  {
    hide InTurn, Stopped, Total, Distinct, Crosses;
    FairHead(book, q, taker, limit, rem, room, fills);
    f := fills[q[0]];
    var rest := fills - {q[0]};
    TailDistinct(q);
    InTurnTail(book, q, taker, limit, fills);
    assert fills == rest[q[0] := f];
    TakeTotal(q, f, rest);
    TakeStopped(book, q, taker, limit, rem, room, f, rest);
    assert forall h | h in rest :: h in fills && rest[h] == fills[h];
  }

  lemma FairHead(book: Book, q: seq<nat>, taker: Side, limit: int, rem: int, room: nat, fills: Fills)
    requires q != [] && Distinct(q) && (forall h | h in q :: h in book) && Positive(book)
    requires Crosses(book[q[0]], taker, limit) && rem > 0 && room > 0
    requires Fair(book, q, taker, limit, rem, room, fills)
    ensures q[0] in fills && fills[q[0]] == Least(rem, book[q[0]].qty)
  {
    forall h | h in fills ensures h == q[0] || FullyFilled(book, fills, q[0]) {
      var j :| 0 <= j < |q| && q[j] == h;
    }
    if !FullyFilled(book, fills, q[0]) {
      if q[0] !in fills {
        assert fills == map[];
        TotalEmpty(q);
      } else {
        TotalSame(fills, map[], q[1..]);
        TotalEmpty(q[1..]);
      }
    } else {
      TotalGrows(fills, q, q[0]);
    }
  }
}
