/** Two books that hold the same orders, perhaps under different handles, answer alike. */
module Twins {
  import opened Types
  import opened Compression
  import opened Arena
  import opened PriceTime
  import opened Levels
  import opened Arrangement
  import opened BookFacts
  import opened MatchFacts
  import opened FokFacts
  import opened FokExact
  import opened Outcome
  import opened Positions
  import opened Laws
  import opened Runs

  /** The orders of `q` in turn, without their handles. */
  function View(book: Book, q: seq<nat>): (v: seq<Order>)
    requires Resting(book, q)
    ensures |v| == |q|
  {
    if q == [] then [] else [book[q[0]]] + View(book, q[1..])
  }

  lemma {:induction false} ViewAt(book: Book, q: seq<nat>, i: nat)
    requires Resting(book, q) && i < |q|
    ensures View(book, q)[i] == book[q[i]]
  {
    if i > 0 { ViewAt(book, q[1..], i - 1); }
  }

  /** One side as a list of orders in priority order. */
  ghost function SideView(book: Book, side: Side): seq<Order>
    requires Stamped(book)
  {
    View(book, Ladder(book, side))
  }

  /** The same orders in the same priority. */
  ghost predicate Alike(a: Book, b: Book) {
    && Stamped(a) && Stamped(b)
    && SideView(a, Buy) == SideView(b, Buy) && SideView(a, Sell) == SideView(b, Sell)
  }

  // ---------------------------------------------------------------------
  // The same fills, position by position.

  ghost predicate SameShares(p: seq<nat>, f: Fills, q: seq<nat>, g: Fills) {
    && |p| == |q|
    && forall i | 0 <= i < |p| :: (p[i] in f <==> q[i] in g) && Got(f, p[i]) == Got(g, q[i])
  }

  lemma {:induction false} SweepAlike(
    a: Book, p: seq<nat>, b: Book, q: seq<nat>, taker: Side, limit: int, rem: int, room: nat)
    requires Resting(a, p) && Resting(b, q) && Distinct(p) && Distinct(q) && View(a, p) == View(b, q)
    ensures SameShares(p, Sweep(a, p, taker, limit, rem, room), q, Sweep(b, q, taker, limit, rem, room))
  {
    hide Crosses, Distinct;
    if p != [] && rem > 0 && room > 0 {
      TailDistinct(p);
      TailDistinct(q);
      ViewTail(a, p, b, q);
      if !Crosses(a[p[0]], taker, limit) {
        SweepAlike(a, p[1..], b, q[1..], taker, limit, rem, room);
        SweepKeys(a, p[1..], taker, limit, rem, room);
        SweepKeys(b, q[1..], taker, limit, rem, room);
        SharesSkip(p, Sweep(a, p[1..], taker, limit, rem, room), q, Sweep(b, q[1..], taker, limit, rem, room));
      } else {
        var f := Least(rem, a[p[0]].qty);
        SweepAlike(a, p[1..], b, q[1..], taker, limit, rem - f, room - 1);
        SharesTake(p, Sweep(a, p[1..], taker, limit, rem - f, room - 1), q,
                   Sweep(b, q[1..], taker, limit, rem - f, room - 1), f);
      }
    }
  }

  lemma ViewTail(a: Book, p: seq<nat>, b: Book, q: seq<nat>)
    requires Resting(a, p) && Resting(b, q) && View(a, p) == View(b, q) && p != []
    ensures q != [] && a[p[0]] == b[q[0]] && View(a, p[1..]) == View(b, q[1..])
  {
    assert View(a, p)[0] == a[p[0]] && View(b, q)[0] == b[q[0]];
    assert View(a, p)[1..] == View(a, p[1..]) && View(b, q)[1..] == View(b, q[1..]);
  }

  lemma SharesSkip(p: seq<nat>, f: Fills, q: seq<nat>, g: Fills)
    requires p != [] && q != [] && SameShares(p[1..], f, q[1..], g) && p[0] !in f && q[0] !in g
    ensures SameShares(p, f, q, g)
  {
    forall i | 0 <= i < |p| ensures (p[i] in f <==> q[i] in g) && Got(f, p[i]) == Got(g, q[i]) {
      if i > 0 { assert p[1..][i - 1] == p[i] && q[1..][i - 1] == q[i]; }
    }
  }

  lemma SharesTake(p: seq<nat>, f: Fills, q: seq<nat>, g: Fills, x: int)
    requires p != [] && q != [] && SameShares(p[1..], f, q[1..], g) && Distinct(p) && Distinct(q)
    ensures SameShares(p, f[p[0] := x], q, g[q[0] := x])
  {
    var f', g' := f[p[0] := x], g[q[0] := x];
    forall i | 0 <= i < |p| ensures (p[i] in f' <==> q[i] in g') && Got(f', p[i]) == Got(g', q[i]) {
      if i > 0 { assert p[1..][i - 1] == p[i] && q[1..][i - 1] == q[i] && p[i] != p[0] && q[i] != q[0]; }
    }
  }

  lemma {:induction false} TotalAlike(p: seq<nat>, f: Fills, q: seq<nat>, g: Fills)
    requires SameShares(p, f, q, g)
    ensures Total(f, p) == Total(g, q)
  {
    if p != [] {
      SharesTail(p, f, q, g);
      TotalAlike(p[1..], f, q[1..], g);
    }
  }

  lemma SharesTail(p: seq<nat>, f: Fills, q: seq<nat>, g: Fills)
    requires SameShares(p, f, q, g) && p != []
    ensures SameShares(p[1..], f, q[1..], g)
  {
    forall i | 0 <= i < |p[1..]| ensures (p[1..][i] in f <==> q[1..][i] in g) && Got(f, p[1..][i]) == Got(g, q[1..][i]) {
      assert p[1..][i] == p[i + 1] && q[1..][i] == q[i + 1];
    }
  }

  // ---------------------------------------------------------------------
  // The same orders after the fills.

  /** The makers of `q` that are not used up, in the order of `q`. */
  function Keep(book: Book, fills: Fills, q: seq<nat>): seq<nat>
    requires Resting(book, q)
  {
    if q == [] then []
    else if FullyFilled(book, fills, q[0]) then Keep(book, fills, q[1..])
    else [q[0]] + Keep(book, fills, q[1..])
  }

  lemma {:induction false} KeepMembers(book: Book, fills: Fills, q: seq<nat>)
    requires Resting(book, q)
    ensures forall h :: h in Keep(book, fills, q) <==> h in q && !FullyFilled(book, fills, h)
  {
    hide FullyFilled;
    if q != [] {
      KeepMembers(book, fills, q[1..]);
      assert forall h :: h in q <==> h == q[0] || h in q[1..];
    }
  }

  lemma {:induction false} KeepOrdered(book: Book, fills: Fills, q: seq<nat>)
    requires Ordered(book, q)
    ensures Resting(book, q) && Ordered(AfterFills(book, fills), Keep(book, fills, q))
  {
    hide FullyFilled, Before;
    if q != [] {
      var k := Keep(book, fills, q[1..]);
      KeepMembers(book, fills, q);
      KeepMembers(book, fills, q[1..]);
      KeepOrdered(book, fills, q[1..]);
      forall j | 0 <= j < |k| ensures Before(book[q[0]], book[k[j]]) {
        assert k[j] in k;
        var i :| 0 <= i < |q[1..]| && q[1..][i] == k[j];
        assert q[i + 1] == k[j];
      }
      OrderedPush(book, fills, q[0], k);
    }
  }

  /** Fills change neither prices nor arrival numbers. */
  lemma OrderedPush(book: Book, fills: Fills, h: nat, k: seq<nat>)
    requires h in book && Resting(book, k) && Ordered(AfterFills(book, fills), k)
    requires forall j | 0 <= j < |k| :: Before(book[h], book[k[j]])
    ensures !FullyFilled(book, fills, h) ==> Ordered(AfterFills(book, fills), [h] + k)
  {
    var after := AfterFills(book, fills);
    assert forall g | g in k :: g in after;
    if !FullyFilled(book, fills, h) {
      forall i, j | 0 <= i < j < |[h] + k| ensures Before(after[([h] + k)[i]], after[([h] + k)[j]]) {
        assert ([h] + k)[j] == k[j - 1];
        if i > 0 { assert ([h] + k)[i] == k[i - 1]; }
      }
    }
  }

  /** The ladder after the fills is the old one without the makers used up. */
  lemma LadderKeeps(book: Book, fills: Fills, side: Side)
    requires Stamped(book) && Stamped(AfterFills(book, fills))
    ensures Ladder(AfterFills(book, fills), side) == Keep(book, fills, Ladder(book, side))
  {
    hide Stamped, Ladder, Before, Distinct;
    var q := Ladder(book, side);
    LadderOrdered(book, side);
    LadderOrdered(AfterFills(book, fills), side);
    KeepOrdered(book, fills, q);
    KeepMembers(book, fills, q);
    OrderedUnique(AfterFills(book, fills), Ladder(AfterFills(book, fills), side), Keep(book, fills, q));
  }

  lemma {:induction false} KeepAlike(a: Book, p: seq<nat>, f: Fills, b: Book, q: seq<nat>, g: Fills)
    requires Resting(a, p) && Resting(b, q) && View(a, p) == View(b, q) && SameShares(p, f, q, g)
    ensures var p', q' := Keep(a, f, p), Keep(b, g, q);
            && Resting(AfterFills(a, f), p') && Resting(AfterFills(b, g), q')
            && View(AfterFills(a, f), p') == View(AfterFills(b, g), q')
  {
    hide AfterFills, FullyFilled;
    KeepRests(a, f, p);
    KeepRests(b, g, q);
    if p != [] {
      ViewTail(a, p, b, q);
      SharesTail(p, f, q, g);
      KeepAlike(a, p[1..], f, b, q[1..], g);
      HeadAlike(a, p[0], f, b, q[0], g);
      if !FullyFilled(a, f, p[0]) {
        assert ([p[0]] + Keep(a, f, p[1..]))[1..] == Keep(a, f, p[1..]);
        assert ([q[0]] + Keep(b, g, q[1..]))[1..] == Keep(b, g, q[1..]);
      }
    }
  }

  lemma KeepRests(book: Book, fills: Fills, q: seq<nat>)
    requires Resting(book, q)
    ensures Resting(AfterFills(book, fills), Keep(book, fills, q))
  {
    KeepMembers(book, fills, q);
  }

  lemma HeadAlike(a: Book, h: nat, f: Fills, b: Book, k: nat, g: Fills)
    requires h in a && k in b && a[h] == b[k] && (h in f <==> k in g) && Got(f, h) == Got(g, k)
    ensures FullyFilled(a, f, h) <==> FullyFilled(b, g, k)
    ensures !FullyFilled(a, f, h) ==>
              h in AfterFills(a, f) && k in AfterFills(b, g) && AfterFills(a, f)[h] == AfterFills(b, g)[k]
  {
  }

  // ---------------------------------------------------------------------
  // The same orders after one more comes to rest.

  /** `q` with `h` at its place by priority. */
  function Placed(book: Book, q: seq<nat>, h: nat): seq<nat>
    requires Resting(book, q) && h in book
  {
    if q == [] then [h]
    else if Before(book[h], book[q[0]]) then [h] + q
    else [q[0]] + Placed(book, q[1..], h)
  }

  function PlacedOrder(v: seq<Order>, o: Order): seq<Order> {
    if v == [] then [o]
    else if Before(o, v[0]) then [o] + v
    else [v[0]] + PlacedOrder(v[1..], o)
  }

  lemma {:induction false} PlacedMembers(book: Book, q: seq<nat>, h: nat)
    requires Resting(book, q) && h in book
    ensures forall g :: g in Placed(book, q, h) <==> g in q || g == h
  {
    hide Before;
    if q != [] {
      PlacedMembers(book, q[1..], h);
      assert forall g :: g in q <==> g == q[0] || g in q[1..];
    }
  }

  lemma {:induction false} PlacedView(book: Book, q: seq<nat>, h: nat)
    requires Resting(book, q) && h in book
    ensures Resting(book, Placed(book, q, h)) && View(book, Placed(book, q, h)) == PlacedOrder(View(book, q), book[h])
  {
    hide Before;
    PlacedMembers(book, q, h);
    if q == [] {
      assert View(book, [h]) == [book[h]] by { assert [h][1..] == []; }
    } else {
      PlacedView(book, q[1..], h);
      assert View(book, q)[1..] == View(book, q[1..]);
      if Before(book[h], book[q[0]]) {
        assert ([h] + q)[1..] == q;
      } else {
        assert ([q[0]] + Placed(book, q[1..], h))[1..] == Placed(book, q[1..], h);
      }
    }
  }

  lemma {:induction false} PlacedOrdered(book: Book, q: seq<nat>, h: nat)
    requires Stamped(book) && Ordered(book, q) && h in book && h !in q
    ensures Resting(book, q) && Ordered(book, Placed(book, q, h))
  {
    if q != [] {
      PlacedMembers(book, q[1..], h);
      PlacedOrdered(book, q[1..], h);
      assert forall j | 0 < j < |q| :: Before(book[q[0]], book[q[j]]);
      if Before(book[h], book[q[0]]) {
        OrderedCons(book, h, q);
      } else {
        var k := Placed(book, q[1..], h);
        assert q[0] in q && book[q[0]].stamp != book[h].stamp;
        forall j | 0 <= j < |k| ensures Before(book[q[0]], book[k[j]]) {
          assert k[j] in k;
          if k[j] != h { var i :| 0 <= i < |q[1..]| && q[1..][i] == k[j]; assert q[i + 1] == k[j]; }
        }
        OrderedCons(book, q[0], k);
      }
    }
  }

  lemma LadderPlaces(after: Book, h: nat, o: Order)
    requires Stamped(after) && Stamped(after[h := o]) && h !in after
    ensures var book := after[h := o];
            && Resting(book, Ladder(after, o.side)) && Ladder(book, o.side) == Placed(book, Ladder(after, o.side), h)
            && Ladder(book, o.side.Opposite()) == Ladder(after, o.side.Opposite())
  {
    hide Ladder, Before, Distinct, Stamped;
    var book := after[h := o];
    LadderOrdered(after, o.side);
    LadderOrdered(book, o.side);
    OrderedKept(after, book, Ladder(after, o.side));
    PlacedOrdered(book, Ladder(after, o.side), h);
    PlacedMembers(book, Ladder(after, o.side), h);
    OrderedUnique(book, Ladder(book, o.side), Placed(book, Ladder(after, o.side), h));
    var opp := o.side.Opposite();
    LadderOrdered(after, opp);
    LadderOrdered(book, opp);
    OrderedKept(after, book, Ladder(after, opp));
    OrderedUnique(book, Ladder(book, opp), Ladder(after, opp));
  }

  lemma OrderedKept(a: Book, b: Book, q: seq<nat>)
    requires Ordered(a, q) && forall h | h in a :: h in b && b[h] == a[h]
    ensures Ordered(b, q)
  {
  }

  lemma {:induction false} ViewKept(a: Book, b: Book, q: seq<nat>)
    requires Resting(a, q) && forall h | h in a :: h in b && b[h] == a[h]
    ensures Resting(b, q) && View(a, q) == View(b, q)
  {
    if q != [] { ViewKept(a, b, q[1..]); }
  }

  lemma RestView(after: Book, h: nat, o: Order)
    requires Stamped(after) && Stamped(after[h := o]) && h !in after
    ensures SideView(after[h := o], o.side) == PlacedOrder(SideView(after, o.side), o)
    ensures SideView(after[h := o], o.side.Opposite()) == SideView(after, o.side.Opposite())
  {
    hide Ladder, Placed, PlacedOrder, View, Stamped;
    LadderPlaces(after, h, o);
    ViewKept(after, after[h := o], Ladder(after, o.side));
    ViewKept(after, after[h := o], Ladder(after, o.side.Opposite()));
    PlacedView(after[h := o], Ladder(after, o.side), h);
  }

  lemma RestAlike(a: Book, h: nat, b: Book, k: nat, o: Order)
    requires Alike(a, b) && h !in a && k !in b && Stamped(a[h := o]) && Stamped(b[k := o])
    ensures Alike(a[h := o], b[k := o])
  {
    hide SideView, Stamped;
    RestView(a, h, o);
    RestView(b, k, o);
  }

  // ---------------------------------------------------------------------
  // The same verdict.

  lemma CrossView(book: Book, taker: Side, limit: int)
    requires Stamped(book)
    ensures var v := SideView(book, taker.Opposite());
            SomeCross(book, taker, limit) <==> exists i :: 0 <= i < |v| && Crosses(v[i], taker, limit)
  {
    hide Ladder, View, Stamped;
    var q := Ladder(book, taker.Opposite());
    var v := View(book, q);
    forall i | 0 <= i < |q| ensures v[i] == book[q[i]] { ViewAt(book, q, i); }
    if SomeCross(book, taker, limit) {
      var h :| h in book && Crosses(book[h], taker, limit);
      var i :| 0 <= i < |q| && q[i] == h;
      assert Crosses(v[i], taker, limit);
    }
    if i :| 0 <= i < |v| && Crosses(v[i], taker, limit) {
      assert q[i] in q && Crosses(book[q[i]], taker, limit);
      assert SomeCross(book, taker, limit);
      var w := SideView(book, taker.Opposite());
      assert w == v && Crosses(w[i], taker, limit);
    }
  }

  lemma CrossAlike(a: Book, b: Book, taker: Side, limit: int)
    requires Alike(a, b)
    ensures SomeCross(a, taker, limit) <==> SomeCross(b, taker, limit)
  {
    hide SideView, Stamped, SomeCross;
    CrossView(a, taker, limit);
    CrossView(b, taker, limit);
  }

  lemma AfterAlike(a: Book, f: Fills, b: Book, g: Fills, side: Side)
    requires Alike(a, b) && SameShares(Ladder(a, side), f, Ladder(b, side), g)
    requires Stamped(AfterFills(a, f)) && Stamped(AfterFills(b, g))
    ensures SideView(AfterFills(a, f), side) == SideView(AfterFills(b, g), side)
  {
    hide Ladder, View, Stamped, AfterFills, SameShares;
    LadderKeeps(a, f, side);
    LadderKeeps(b, g, side);
    KeepAlike(a, Ladder(a, side), f, b, Ladder(b, side), g);
  }

  /** Nothing on the taker's own side fills. */
  lemma OwnSideUntouched(a: Book, f: Fills, b: Book, g: Fills, order: IncomingOrder)
    requires Alike(a, b)
    requires FillsWithin(a, order.side, order.price, f) && FillsWithin(b, order.side, order.price, g)
    ensures SameShares(Ladder(a, order.side), f, Ladder(b, order.side), g)
  {
    hide Ladder, SideView, Stamped, FillsWithin;
    SameLength(a, b, order.side);
    OwnSideUnfilled(a, f, order);
    OwnSideUnfilled(b, g, order);
  }

  lemma OwnSideUnfilled(book: Book, fills: Fills, order: IncomingOrder)
    requires Stamped(book) && FillsWithin(book, order.side, order.price, fills)
    ensures forall i | 0 <= i < |Ladder(book, order.side)| :: Ladder(book, order.side)[i] !in fills
  {
    hide Ladder;
    var q := Ladder(book, order.side);
    forall i | 0 <= i < |q| ensures q[i] !in fills { assert q[i] in q; }
  }

  lemma FillsAlike(a: Book, b: Book, order: IncomingOrder, size: int)
    requires Alike(a, b) && Positive(a) && Positive(b) && size >= 0
    ensures var f, g := FillsFor(a, order, size), FillsFor(b, order, size);
            var opp := order.side.Opposite();
            && SameShares(Ladder(a, opp), f, Ladder(b, opp), g)
            && Traded(a, order, f) == Traded(b, order, g)
            && Alike(AfterFills(a, f), AfterFills(b, g))
  {
    hide Ladder, View, Stamped, AfterFills, SameShares, Sweep, Total, Positive, Distinct, FillsWithin;
    var f, g := FillsFor(a, order, size), FillsFor(b, order, size);
    var opp := order.side.Opposite();
    LadderOrdered(a, opp);
    LadderOrdered(b, opp);
    SweepAlike(a, Ladder(a, opp), b, Ladder(b, opp), order.side, order.price, size, MAX_MAKERS_PER_ORDER);
    TotalAlike(Ladder(a, opp), f, Ladder(b, opp), g);
    SweptFills(a, order, size);
    SweptFills(b, order, size);
    OwnSideUntouched(a, f, b, g, order);
    AfterStamped(a, f);
    AfterStamped(b, g);
    AfterAlike(a, f, b, g, opp);
    AfterAlike(a, f, b, g, order.side);
  }

  /** The same fills and the same verdict, unless the fill-or-kill pre-checks differ. */
  lemma JudgeAlike(
    a: Book, b: Book, users: map<nat, int>, config: BookConfig, order: IncomingOrder, countedA: int, countedB: int)
    requires Alike(a, b) && Positive(a) && Positive(b) && config.tickSize >= 1 && config.lotSize >= 1
    requires order.tif != FOK || countedA == countedB
    ensures var (f, v) := Judge(a, users, config, order, countedA);
            var (g, w) := Judge(b, users, config, order, countedB);
            && v == w && SameShares(Ladder(a, order.side.Opposite()), f, Ladder(b, order.side.Opposite()), g)
            && Alike(AfterFills(a, f), AfterFills(b, g))
  {
    hide Ladder, Stamped, AfterFills, Positive, SideView, FillsFor, Traded, SomeCross, ValidTick, ValidLot, Reduces;
    CrossAlike(a, b, order.side, order.price);
    var size := Size(users, order);
    if Gate(a, users, config, order, countedA).None? {
      SizePositive(a, users, config, order, countedA);
      FillsAlike(a, b, order, size);
      CrossAlike(AfterFills(a, FillsFor(a, order, size)), AfterFills(b, FillsFor(b, order, size)), order.side, order.price);
    } else {
      NothingFilled(a);
      NothingFilled(b);
      SameLength(a, b, order.side.Opposite());
    }
  }

  lemma SizePositive(book: Book, users: map<nat, int>, config: BookConfig, order: IncomingOrder, counted: int)
    requires config.tickSize >= 1 && config.lotSize >= 1 && Gate(book, users, config, order, counted).None?
    ensures Size(users, order) > 0
  {
  }

  lemma SameLength(a: Book, b: Book, side: Side)
    requires Alike(a, b)
    ensures |Ladder(a, side)| == |Ladder(b, side)|
  {
    assert |Ladder(a, side)| == |SideView(a, side)| && |Ladder(b, side)| == |SideView(b, side)|;
  }

  // ---------------------------------------------------------------------
  // The same positions.

  lemma SharesReorder(book: Book, fills: Fills, trace: seq<nat>, q: seq<nat>, u: nat)
    requires Traces(trace, fills) && Distinct(q) && forall h | h in fills :: h in q
    ensures Total(fills, trace) == Total(fills, q)
    ensures Total(SharesOf(book, fills, u), trace) == Total(SharesOf(book, fills, u), q)
  {
    TotalReorder(fills, trace, q);
    TotalReorder(SharesOf(book, fills, u), trace, q);
  }

  lemma SharesAlike(a: Book, p: seq<nat>, f: Fills, b: Book, q: seq<nat>, g: Fills, u: nat)
    requires Resting(a, p) && Resting(b, q) && View(a, p) == View(b, q) && SameShares(p, f, q, g)
    ensures SameShares(p, SharesOf(a, f, u), q, SharesOf(b, g, u))
  {
    hide View;
    forall i | 0 <= i < |p| ensures a[p[i]] == b[q[i]] { ViewAt(a, p, i); ViewAt(b, q, i); }
    assert forall i | 0 <= i < |p| :: p[i] in p && q[i] in q;
  }

  lemma TouchedAlike(
    users: map<nat, int>, a: Book, p: seq<nat>, f: Fills, s: seq<nat>, b: Book, q: seq<nat>, g: Fills, t: seq<nat>,
    taker: IncomingOrder, u: nat)
    requires Resting(a, p) && Resting(b, q) && View(a, p) == View(b, q) && SameShares(p, f, q, g)
    requires Traces(s, f) && Traces(t, g) && (forall h | h in f :: h in p) && (forall h | h in g :: h in q)
    ensures Touched(users, a, s, taker, u) ==> Touched(users, b, t, taker, u)
  {
    hide View, Distinct;
    if h :| h in s && h in a && (a[h].user == u || u == taker.user) {
      var i :| 0 <= i < |p| && p[i] == h;
      ViewAt(a, p, i);
      ViewAt(b, q, i);
      assert q[i] in g && q[i] in t;
    } else {
      NoMembers(s);
      assert forall h | h in s :: h in f && h in p;
    }
  }

  lemma UsersAlike(
    users: map<nat, int>, a: Book, p: seq<nat>, f: Fills, s: seq<nat>, b: Book, q: seq<nat>, g: Fills, t: seq<nat>,
    taker: IncomingOrder)
    requires Resting(a, p) && Resting(b, q) && View(a, p) == View(b, q) && SameShares(p, f, q, g)
    requires Distinct(p) && Distinct(q) && Traces(s, f) && Traces(t, g)
    requires (forall h | h in f :: h in p) && (forall h | h in g :: h in q)
    requires (forall h | h in s :: h in a && h in f) && (forall h | h in t :: h in b && h in g)
    ensures UsersAfter(users, a, s, f, taker) == UsersAfter(users, b, t, g, taker)
  {
    hide View, Distinct, Total, UsersAfter, SameShares, SharesOf, Touched, Traces;
    var x, y := UsersAfter(users, a, s, f, taker), UsersAfter(users, b, t, g, taker);
    forall u: nat ensures (u in x <==> u in y) && Net(x, u) == Net(y, u) {
      UsersNet(users, a, s, f, taker, u);
      UsersNet(users, b, t, g, taker, u);
      SharesReorder(a, f, s, p, u);
      SharesReorder(b, g, t, q, u);
      SharesAlike(a, p, f, b, q, g, u);
      TotalAlike(p, f, q, g);
      TotalAlike(p, SharesOf(a, f, u), q, SharesOf(b, g, u));
      TouchedAlike(users, a, p, f, s, b, q, g, t, taker, u);
      SharesFlip(p, f, q, g);
      TouchedAlike(users, b, q, g, t, a, p, f, s, taker, u);
    }
    SameNets(x, y);
  }

  lemma SharesFlip(p: seq<nat>, f: Fills, q: seq<nat>, g: Fills)
    requires SameShares(p, f, q, g)
    ensures SameShares(q, g, p, f)
  {
  }

  lemma SameNets(x: map<nat, int>, y: map<nat, int>)
    requires forall u: nat :: (u in x <==> u in y) && Net(x, u) == Net(y, u)
    ensures x == y
  {
    assert forall u | u in x :: x[u] == Net(x, u) && y[u] == Net(y, u);
  }

  // ---------------------------------------------------------------------
  // The same best prices.

  lemma BestAlike(a: Book, b: Book, side: Side)
    requires Alike(a, b)
    ensures BestOf(a, side) == BestOf(b, side)
  {
    hide Ladder, Stamped;
    SameLength(a, b, side);
    var p, q := Ladder(a, side), Ladder(b, side);
    if p != [] { ViewTail(a, p, b, q); }
  }

  lemma {:induction false} TallyAlike(m: Measure, a: Book, p: seq<nat>, b: Book, q: seq<nat>)
    requires Resting(a, p) && Resting(b, q) && View(a, p) == View(b, q)
    ensures Tally(m, a, p) == Tally(m, b, q)
  {
    hide View, Weight;
    ViewSize(a, p, b, q);
    if p != [] {
      ViewTail(a, p, b, q);
      TallyAlike(m, a, p[1..], b, q[1..]);
    }
  }

  lemma ViewSize(a: Book, p: seq<nat>, b: Book, q: seq<nat>)
    requires Resting(a, p) && Resting(b, q) && View(a, p) == View(b, q)
    ensures |p| == |q|
  {
    assert |View(a, p)| == |p| && |View(b, q)| == |q|;
  }

  lemma RestingAlike(a: Book, b: Book, side: Side, price: int)
    requires Alike(a, b)
    ensures RestingAt(a, side, price) == RestingAt(b, side, price)
  {
    hide Ladder, View, Stamped, Tally;
    TallyAlike(QuantityAt(side, price), a, Ladder(a, side), b, Ladder(b, side));
  }

  lemma ReportAlike(a: Book, a': Book, b: Book, b': Book)
    requires Alike(a, b) && Alike(a', b')
    ensures BboReport(a, a') == BboReport(b, b')
  {
    hide SideView, Stamped, BestOf, RestingAt;
    BestAlike(a, b, Buy);
    BestAlike(a, b, Sell);
    BestAlike(a', b', Buy);
    BestAlike(a', b', Sell);
    RestingAlike(a', b', Buy, BestOf(a', Buy));
    RestingAlike(a', b', Sell, BestOf(a', Sell));
  }

  // ---------------------------------------------------------------------
  // Cancels and reductions.

  lemma SamePlace(a: Book, h: nat, b: Book, k: nat, x: int, side: Side)
    requires Alike(a, b) && h in a && k in b && a[h] == b[k]
    ensures SameShares(Ladder(a, side), map[h := x], Ladder(b, side), map[k := x])
  {
    hide Ladder, View;
    var p, q := Ladder(a, side), Ladder(b, side);
    ViewSize(a, p, b, q);
    forall i | 0 <= i < |p| ensures p[i] == h <==> q[i] == k {
      ViewAt(a, p, i);
      ViewAt(b, q, i);
      assert p[i] in p && q[i] in q;
    }
  }

  lemma EditAlike(a: Book, h: nat, b: Book, k: nat, x: int)
    requires Alike(a, b) && h in a && k in b && a[h] == b[k]
    ensures Alike(AfterFills(a, map[h := x]), AfterFills(b, map[k := x]))
  {
    hide Ladder, SideView, Stamped, AfterFills, SameShares;
    AfterStamped(a, map[h := x]);
    AfterStamped(b, map[k := x]);
    SamePlace(a, h, b, k, x, Buy);
    SamePlace(a, h, b, k, x, Sell);
    AfterAlike(a, map[h := x], b, map[k := x], Buy);
    AfterAlike(a, map[h := x], b, map[k := x], Sell);
  }

  /** Removing or reducing an order is a fill of one. */
  lemma EditIsFill(book: Book, h: nat, newQty: int)
    requires h in book
    ensures AfterFills(book, map[h := book[h].qty]) == book - {h}
    ensures newQty > 0 ==> AfterFills(book, map[h := book[h].qty - newQty]) == book[h := book[h].(qty := newQty)]
  {
  }

  // ---------------------------------------------------------------------
  // Runs.

  ghost predicate Twin(s: State, t: State) {
    Alike(s.book, t.book) && s.users == t.users && s.sequence == t.sequence
  }

  /** The named order is the same one on both books, or neither book has it. */
  ghost predicate SameName(a: Book, h: nat, b: Book, k: nat, user: nat, id: OrderId) {
    && (Named(a, h, user, id) <==> Named(b, k, user, id))
    && (Named(a, h, user, id) ==> a[h] == b[k])
  }

  /** The same command, up to the handle that names an order. */
  ghost predicate SameCommand(s: State, c: Command, t: State, d: Command) {
    match c
    case Submit(order) => d == c
    case Cancel(h, user, id) =>
      d.Cancel? && d.user == user && d.id == id && SameName(s.book, h, t.book, d.handle, user, id)
    case Reduce(h, newQty, user, id) =>
      d.Reduce? && d.newQty == newQty && d.user == user && d.id == id && SameName(s.book, h, t.book, d.handle, user, id)
    case Recenter(_) => d.Recenter?
  }

  /** A fill-or-kill order passed the same pre-check; other orders have none. */
  ghost predicate SameCheck(c: Command, r: Reply, q: Reply) {
    c.Submit? && c.order.tif == FOK ==> r.Answered? && q.Answered? && r.counted == q.counted
  }

  /** The same shares position by position, the same verdict, the same best-price report. */
  ghost predicate SameAnswer(s: State, c: Command, r: Reply, s': State, t: State, q: Reply, t': State) {
    && Stamped(s.book) && Stamped(t.book) && Stamped(s'.book) && Stamped(t'.book)
    && (c.Submit? ==>
          && r.Answered? && q.Answered? && r.verdict == q.verdict
          && SameShares(Ladder(s.book, c.order.side.Opposite()), r.fills, Ladder(t.book, c.order.side.Opposite()), q.fills)
          && BboReport(s.book, s'.book) == BboReport(t.book, t'.book))
    && (!c.Submit? ==> r == q)
  }

  lemma TwinSubmit(config: BookConfig, s: State, c: Command, r: Reply, s': State, t: State, q: Reply, t': State)
    requires Twin(s, t) && Sane(config, s) && Sane(config, t) && c.Submit? && SameCheck(c, r, q)
    requires Stepped(config, s, c, r, s') && Stepped(config, t, c, q, t')
    ensures Twin(s', t') && SameAnswer(s, c, r, s', t, q, t')
  {
    hide Ladder, Stamped, AfterFills, Positive, SideView, Judge, UsersAfter, FillEvents, BboReport, SameShares, Terminal,
         Recorded, Uncrossed, Traces, View;
    var opp := c.order.side.Opposite();
    JudgeAlike(s.book, t.book, s.users, config, c.order, r.counted, q.counted);
    JudgedFills(s.book, s.users, config, c.order, r.counted);
    JudgedFills(t.book, t.users, config, c.order, q.counted);
    if r.verdict.Rested? {
      RestAlike(AfterFills(s.book, r.fills), r.placed, AfterFills(t.book, q.fills), q.placed,
                Remnant(c.order, r.verdict.resting, s'.sequence));
    }
    ReportAlike(s.book, s'.book, t.book, t'.book);
    FilledOnLadder(s.book, c.order, r.fills);
    FilledOnLadder(t.book, c.order, q.fills);
    OppositeView(s.book, t.book, opp);
    UsersAlike(s.users, s.book, Ladder(s.book, opp), r.fills, r.trace, t.book, Ladder(t.book, opp), q.fills, q.trace, c.order);
  }

  lemma FilledOnLadder(book: Book, order: IncomingOrder, fills: Fills)
    requires Stamped(book) && FillsWithin(book, order.side, order.price, fills)
    ensures forall h | h in fills :: h in Ladder(book, order.side.Opposite())
    ensures Distinct(Ladder(book, order.side.Opposite())) && Resting(book, Ladder(book, order.side.Opposite()))
  {
    LadderOrdered(book, order.side.Opposite());
  }

  lemma OppositeView(a: Book, b: Book, side: Side)
    requires Alike(a, b)
    ensures View(a, Ladder(a, side)) == View(b, Ladder(b, side))
  {
    hide View, Ladder;
  }

  lemma TwinEdit(config: BookConfig, s: State, c: Command, r: Reply, s': State, t: State, d: Command, q: Reply, t': State)
    requires Twin(s, t) && !c.Submit? && SameCommand(s, c, t, d)
    requires Stepped(config, s, c, r, s') && Stepped(config, t, d, q, t')
    ensures Twin(s', t') && r == q
  {
    hide Ladder, Stamped, AfterFills, SideView;
    if (c.Cancel? || c.Reduce?) && Named(s.book, c.handle, c.user, c.id) {
      var o := s.book[c.handle];
      var left := if c.Cancel? then 0 else c.newQty;
      EditIsFill(s.book, c.handle, left);
      EditIsFill(t.book, d.handle, left);
      EditAlike(s.book, c.handle, t.book, d.handle, o.qty - left);
    }
  }

  lemma TwinStep(config: BookConfig, s: State, c: Command, r: Reply, s': State, t: State, d: Command, q: Reply, t': State)
    requires Twin(s, t) && Sane(config, s) && Sane(config, t) && SameCommand(s, c, t, d) && SameCheck(c, r, q)
    requires Stepped(config, s, c, r, s') && Stepped(config, t, d, q, t')
    ensures Twin(s', t') && SameAnswer(s, c, r, s', t, q, t')
  {
    hide Sane, Alike, SameShares, Ladder, Stamped, BboReport, Stepped, SameName, SameCheck;
    if c.Submit? {
      TwinSubmit(config, s, c, r, s', t, q, t');
    } else {
      TwinEdit(config, s, c, r, s', t, d, q, t');
      TwinStamped(s, t);
      TwinStamped(s', t');
    }
  }

  lemma TwinStamped(s: State, t: State)
    requires Twin(s, t)
    ensures Stamped(s.book) && Stamped(t.book)
  {
  }

  /**
   * Two runs of the same commands from twin states, on whatever compression maps: at every step the
   * same verdicts, the same shares in priority order and the same best prices.
   */
  lemma {:induction false} TwinRuns(
    config: BookConfig, cs: seq<Command>, rs: seq<Reply>, ss: seq<State>, ds: seq<Command>, qs: seq<Reply>, ts: seq<State>,
    n: nat)
    requires Trail(config, cs, rs, ss) && Trail(config, ds, qs, ts) && |cs| == |ds| && n < |ss|
    requires Sane(config, ss[0]) && Sane(config, ts[0]) && Twin(ss[0], ts[0])
    requires forall i | 0 <= i < |cs| :: SameCommand(ss[i], cs[i], ts[i], ds[i]) && SameCheck(cs[i], rs[i], qs[i])
    ensures Twin(ss[n], ts[n])
    ensures forall i | 0 <= i < n :: SameAnswer(ss[i], cs[i], rs[i], ss[i + 1], ts[i], qs[i], ts[i + 1])
  {
    hide Sane, Stepped, Twin, SameAnswer, SameCommand, Admissible, SameCheck;
    if n > 0 {
      var m := n - 1;
      TwinRuns(config, cs, rs, ss, ds, qs, ts, m);
      RunSane(config, cs, rs, ss, m);
      RunSane(config, ds, qs, ts, m);
      assert Stepped(config, ss[m], cs[m], rs[m], ss[m + 1]) && Stepped(config, ts[m], ds[m], qs[m], ts[m + 1]);
      TwinStep(config, ss[m], cs[m], rs[m], ss[n], ts[m], ds[m], qs[m], ts[n]);
    }
  }

  /** What can be filled is the same on twin books. */
  lemma FillableAlike(a: Book, b: Book, order: IncomingOrder)
    requires Alike(a, b) && Positive(a) && Positive(b)
    ensures Fillable(a, order.side, order.price) == Fillable(b, order.side, order.price)
  {
    hide Alike, Positive, Fillable, FillsFor, Traded, SameShares, Ladder, AfterFills;
    AlikeStamped(a, b);
    var all := Max(0, Max(Fillable(a, order.side, order.price), Fillable(b, order.side, order.price)));
    FillsAlike(a, b, order, all);
    FillsTotal(a, order, all);
    FillsTotal(b, order, all);
  }

  lemma {:induction false} CrossingAlike(a: Book, p: seq<nat>, b: Book, q: seq<nat>, taker: Side, limit: int)
    requires Resting(a, p) && Resting(b, q) && View(a, p) == View(b, q)
    ensures |Crossing(a, p, taker, limit)| == |Crossing(b, q, taker, limit)|
  {
    hide View, Crosses;
    ViewSize(a, p, b, q);
    if p != [] {
      ViewTail(a, p, b, q);
      CrossingAlike(a, p[1..], b, q[1..], taker, limit);
    }
  }

  /** Twin books hold as many crossing makers. */
  lemma QueueAlike(a: Book, b: Book, taker: Side, limit: int)
    requires Alike(a, b)
    ensures |Queue(a, taker, limit)| == |Queue(b, taker, limit)|
  {
    hide View, Ladder, Crossing, Stamped;
    CrossingAlike(a, Ladder(a, taker.Opposite()), b, Ladder(b, taker.Opposite()), taker, limit);
  }

  /** With no more crossing makers than the cap, the pre-check counts the same under any two maps. */
  lemma CountedAlike(
    slots: seq<OrderSlot>, a: Book, comp: CompressionMap, levels: seq<PriceLevel>, queues: seq<seq<nat>>,
    slots': seq<OrderSlot>, b: Book, comp': CompressionMap, levels': seq<PriceLevel>, queues': seq<seq<nat>>,
    order: IncomingOrder)
    requires Regular(comp) && Shaped(comp) && Arranged(slots, a, comp, levels, queues) && Priced(a, comp.tick)
    requires Regular(comp') && Shaped(comp') && Arranged(slots', b, comp', levels', queues') && Priced(b, comp'.tick)
    requires Alike(a, b) && Positive(a) && Positive(b)
    requires |Queue(a, order.side, order.price)| <= MAX_MAKERS_PER_ORDER
    ensures CountedQty(a, queues, PriceAsc(comp), order.side, order.price)
            == CountedQty(b, queues', PriceAsc(comp'), order.side, order.price)
  {
    hide Alike, Positive, Fillable, Queue, Arranged, Regular, Priced, CountedQty, PriceAsc, Shaped;
    AlikeStamped(a, b);
    QueueAlike(a, b, order.side, order.price);
    PreCheckExact(slots, a, comp, levels, queues, order.side, order.price);
    PreCheckExact(slots', b, comp', levels', queues', order.side, order.price);
    FillableAlike(a, b, order);
  }

  lemma AlikeStamped(a: Book, b: Book)
    requires Alike(a, b)
    ensures Stamped(a) && Stamped(b)
  {
  }

  /** A recentering can be cut out of a run without a trace. */
  lemma RecenterUnseen(config: BookConfig, cs: seq<Command>, rs: seq<Reply>, ss: seq<State>, k: nat)
    requires Trail(config, cs, rs, ss) && k < |cs| && cs[k].Recenter?
    ensures ss[k + 1] == ss[k]
    ensures Trail(config, cs[..k] + cs[k + 1..], rs[..k] + rs[k + 1..], ss[..k] + ss[k + 1..])
  {
    assert Stepped(config, ss[k], cs[k], rs[k], ss[k + 1]);
    hide Stepped, Admissible;
    var ds, qs, ts := cs[..k] + cs[k + 1..], rs[..k] + rs[k + 1..], ss[..k] + ss[k + 1..];
    forall i | 0 <= i < |ds| ensures Stepped(config, ts[i], ds[i], qs[i], ts[i + 1]) && Admissible(ds[i], qs[i]) {
      if i < k {
        assert Stepped(config, ss[i], cs[i], rs[i], ss[i + 1]);
        assert ts[i + 1] == ss[i + 1];
      } else {
        assert Stepped(config, ss[i + 1], cs[i + 1], rs[i + 1], ss[i + 1 + 1]);
        assert ts[i] == ss[i + 1] && ts[i + 1] == ss[i + 2];
      }
    }
  }

  // ---------------------------------------------------------------------
  // Runs of order books.

  /** A fill-or-kill order meets no more crossing makers than the cap allows. */
  ghost predicate WithinCap(s: State, c: Command) {
    c.Submit? && c.order.tif == FOK && Stamped(s.book) ==>
      |Queue(s.book, c.order.side, c.order.price)| <= MAX_MAKERS_PER_ORDER
  }

  lemma ChecksAlike(
    config: BookConfig, s: State, c: Command, r: Reply, l: Layout, t: State, d: Command, q: Reply, m: Layout)
    requires Twin(s, t) && Sane(config, s) && Sane(config, t) && SameCommand(s, c, t, d) && WithinCap(s, c)
    requires Backs(config, s, l) && Backs(config, t, m) && CountedIn(s, c, r, l) && CountedIn(t, d, q, m)
    ensures SameCheck(c, r, q)
  {
    hide Alike, Positive, Queue, Arranged, Regular, Priced, CountedQty, PriceAsc, Shaped, Uncrossed, SameName;
    if c.Submit? && c.order.tif == FOK {
      AlikeStamped(s.book, t.book);
      CountedAlike(l.slots, s.book, l.comp, l.levels, l.queues, m.slots, t.book, m.comp, m.levels, m.queues, c.order);
    }
  }

  /**
   * Two runs of the same commands on two order books with the same orders, under any maps: at every
   * step the same verdicts, the same shares in priority order and the same best prices, for all
   * kinds of orders, as long as fill-or-kill orders meet no more makers than the cap.
   */
  lemma {:induction false} RunsOfBooks(
    config: BookConfig, cs: seq<Command>, rs: seq<Reply>, ss: seq<State>, ls: seq<Layout>,
    ds: seq<Command>, qs: seq<Reply>, ts: seq<State>, ms: seq<Layout>, n: nat)
    requires Trail(config, cs, rs, ss) && Trail(config, ds, qs, ts) && |cs| == |ds| && n < |ss|
    requires Backed(config, cs, rs, ss, ls) && Backed(config, ds, qs, ts, ms)
    requires Sane(config, ss[0]) && Sane(config, ts[0]) && Twin(ss[0], ts[0])
    requires forall i | 0 <= i < |cs| :: SameCommand(ss[i], cs[i], ts[i], ds[i]) && WithinCap(ss[i], cs[i])
    ensures Twin(ss[n], ts[n])
    ensures forall i | 0 <= i < n ::
              SameCheck(cs[i], rs[i], qs[i]) && SameAnswer(ss[i], cs[i], rs[i], ss[i + 1], ts[i], qs[i], ts[i + 1])
  {
    hide Sane, Stepped, Twin, SameAnswer, SameCommand, Admissible, SameCheck, WithinCap, Backs, CountedIn;
    if n > 0 {
      var m := n - 1;
      RunsOfBooks(config, cs, rs, ss, ls, ds, qs, ts, ms, m);
      RunSane(config, cs, rs, ss, m);
      RunSane(config, ds, qs, ts, m);
      ChecksAlike(config, ss[m], cs[m], rs[m], ls[m], ts[m], ds[m], qs[m], ms[m]);
      assert Stepped(config, ss[m], cs[m], rs[m], ss[m + 1]) && Stepped(config, ts[m], ds[m], qs[m], ts[m + 1]);
      TwinStep(config, ss[m], cs[m], rs[m], ss[n], ts[m], ds[m], qs[m], ts[n]);
    }
  }
}
