/** Net positions: how fills move them, and that they balance. */
module Positions {
  import opened Types
  import opened Arena
  import opened PriceTime
  import opened BookFacts
  import opened MatchFacts

  function Net(users: map<nat, int>, u: nat): int {
    if u in users then users[u] else 0
  }

  function Signed(side: Side, n: int): int { if side == Buy then n else -n }

  /** The shares of the makers of one user. */
  function SharesOf(book: Book, fills: Fills, u: nat): Fills {
    map h | h in fills && h in book && book[h].user == u :: fills[h]
  }

  /** Which users have a position after the fills. */
  ghost predicate Touched(users: map<nat, int>, book: Book, trace: seq<nat>, taker: IncomingOrder, u: nat) {
    u in users || (trace != [] && u == taker.user) || exists h :: h in trace && h in book && book[h].user == u
  }

  lemma FillNet(users: map<nat, int>, taker: nat, maker: nat, side: Side, qty: int, u: nat)
    ensures var after := ApplyFill(users, taker, maker, side, qty);
            && (u in after <==> u in users || u == taker || u == maker)
            && Net(after, u) == Net(users, u) + (if u == taker then Signed(side, qty) else 0)
                                - (if u == maker then Signed(side, qty) else 0)
  {
  }

  /** A position moves by what the user took and by what the user's makers gave. */
  lemma {:induction false} UsersNet(
    users: map<nat, int>, book: Book, trace: seq<nat>, fills: Fills, taker: IncomingOrder, u: nat)
    requires forall h | h in trace :: h in book && h in fills
    ensures var after := UsersAfter(users, book, trace, fills, taker);
            && (u in after <==> Touched(users, book, trace, taker, u))
            && Net(after, u) == Net(users, u) + (if u == taker.user then Signed(taker.side, Total(fills, trace)) else 0)
                                - Signed(taker.side, Total(SharesOf(book, fills, u), trace))
  {
    hide ApplyFill, Touched, SharesOf;
    TouchedStep(users, book, trace, taker, u);
    if trace != [] {
      var n := |trace| - 1;
      var h, first := trace[n], trace[..n];
      ShareAt(book, fills, u, h);
      UsersNet(users, book, first, fills, taker, u);
      FillNet(UsersAfter(users, book, first, fills, taker), taker.user, book[h].user, taker.side, fills[h], u);
      assert trace == first + [h];
      LastShare(fills, first, h);
      LastShare(SharesOf(book, fills, u), first, h);
    }
  }

  lemma TouchedStep(users: map<nat, int>, book: Book, trace: seq<nat>, taker: IncomingOrder, u: nat)
    requires forall h | h in trace :: h in book
    ensures if trace == [] then Touched(users, book, trace, taker, u) <==> u in users
            else
              var n := |trace| - 1;
              Touched(users, book, trace, taker, u)
              <==> Touched(users, book, trace[..n], taker, u) || u == taker.user || u == book[trace[n]].user
  {
    if trace != [] {
      var n := |trace| - 1;
      assert trace == trace[..n] + [trace[n]];
      assert trace[n] in trace && forall h | h in trace :: h in trace[..n] || h == trace[n];
      assert forall h | h in trace[..n] :: h in trace;
    }
  }

  lemma ShareAt(book: Book, fills: Fills, u: nat, h: nat)
    requires h in book && h in fills
    ensures Got(SharesOf(book, fills, u), h) == if book[h].user == u then fills[h] else 0
  {
  }

  lemma LastShare(fills: Fills, first: seq<nat>, h: nat)
    ensures Total(fills, first + [h]) == Total(fills, first) + Got(fills, h)
  {
    TotalAppend(fills, first, [h]);
    assert [h][1..] == [];
  }

  // ---------------------------------------------------------------------
  // What one user gains another loses.

  lemma OnePosition(u: nat, d: int, q: seq<nat>)
    requires Distinct(q) && u in q
    ensures Total(map[u := d], q) == d
  {
    TotalEmpty(q);
    TotalAdd(map[], q, u, d);
    assert map[][u := d] == map[u := d];
  }

  /** A fill moves quantity between two positions and leaves their sum alone. */
  lemma FillBalances(users: map<nat, int>, taker: nat, maker: nat, side: Side, qty: int, q: seq<nat>)
    requires Distinct(q) && taker in q && maker in q
    ensures Total(ApplyFill(users, taker, maker, side, qty), q) == Total(users, q)
  {
    hide ApplyFill, Distinct, Total;
    var after, d := ApplyFill(users, taker, maker, side, qty), Signed(side, qty);
    var mid := users[taker := Net(users, taker) + d];
    forall u: nat ensures Got(after, u) == Got(mid, u) + Got(map[maker := -d], u)
                          && Got(mid, u) == Got(users, u) + Got(map[taker := d], u) {
      FillNet(users, taker, maker, side, qty, u);
    }
    TotalSum(after, mid, map[maker := -d], q);
    TotalSum(mid, users, map[taker := d], q);
    OnePosition(maker, -d, q);
    OnePosition(taker, d, q);
  }

  /** All fills of a call leave the sum of the positions alone. */
  lemma {:induction false} PositionsBalance(
    users: map<nat, int>, book: Book, trace: seq<nat>, fills: Fills, taker: IncomingOrder, q: seq<nat>)
    requires forall h | h in trace :: h in book && h in fills
    requires Distinct(q) && forall u | u in UsersAfter(users, book, trace, fills, taker) :: u in q
    ensures Total(UsersAfter(users, book, trace, fills, taker), q) == Total(users, q)
    ensures users.Keys <= UsersAfter(users, book, trace, fills, taker).Keys
  {
    hide ApplyFill, Distinct, Total;
    if trace != [] {
      var n := |trace| - 1;
      var h, first := trace[n], trace[..n];
      var before := UsersAfter(users, book, first, fills, taker);
      forall u: nat ensures u in ApplyFill(before, taker.user, book[h].user, taker.side, fills[h])
                            <==> u in before || u == taker.user || u == book[h].user {
        FillNet(before, taker.user, book[h].user, taker.side, fills[h], u);
      }
      PositionsBalance(users, book, first, fills, taker, q);
      FillBalances(before, taker.user, book[h].user, taker.side, fills[h], q);
    }
  }

  lemma AssignedBalances(users: map<nat, int>, user: nat, q: seq<nat>)
    ensures Total(Assigned(users, user), q) == Total(users, q) && users.Keys <= Assigned(users, user).Keys
  {
    TotalSame(Assigned(users, user), users, q);
  }

  // ---------------------------------------------------------------------
  // The source's saturating updates.

  /** The nearest `i64` value. */
  function Clamp(n: int): int {
    if n > I64_MAX then I64_MAX else if n < -I64_MAX - 1 then -I64_MAX - 1 else n
  }

  /** One fill with saturating additions. */
  function SaturatingFill(users: map<nat, int>, taker: nat, maker: nat, side: Side, qty: int): map<nat, int> {
    var delta := if side == Buy then qty else -qty;
    var u := Assigned(users, taker);
    var v := Assigned(u[taker := Clamp(u[taker] + delta)], maker);
    v[maker := Clamp(v[maker] - delta)]
  }

  /** All fills of a call with saturating additions. */
  function SaturatingUsers(users: map<nat, int>, book: Book, trace: seq<nat>, fills: Fills, taker: IncomingOrder)
    : map<nat, int>
    requires forall h | h in trace :: h in book && h in fills
  {
    if trace == [] then users
    else
      var h := trace[|trace| - 1];
      SaturatingFill(SaturatingUsers(users, book, trace[..|trace| - 1], fills, taker), taker.user, book[h].user, taker.side,
                     fills[h])
  }

  /** Each position, moved by all the call trades either way, stays an `i64`. */
  ghost predicate HasHeadroom(users: map<nat, int>, traded: int) {
    forall u: nat :: -I64_MAX <= Net(users, u) - traded && Net(users, u) + traded <= I64_MAX
  }

  lemma {:induction false} SharesBounded(book: Book, fills: Fills, trace: seq<nat>, u: nat)
    requires forall h | h in fills :: fills[h] > 0
    ensures 0 <= Total(SharesOf(book, fills, u), trace) <= Total(fills, trace)
  {
    if trace != [] { SharesBounded(book, fills, trace[1..], u); }
  }

  lemma PlainFill(users: map<nat, int>, taker: nat, maker: nat, side: Side, qty: int)
    requires qty > 0
    requires -I64_MAX <= Net(users, taker) - qty && Net(users, taker) + qty <= I64_MAX
    requires -I64_MAX <= Net(users, maker) - qty && Net(users, maker) + qty <= I64_MAX
    ensures SaturatingFill(users, taker, maker, side, qty) == ApplyFill(users, taker, maker, side, qty)
  {
  }

  /** With headroom the source's saturating updates are plain additions. */
  lemma {:induction false} NoSaturation(
    users: map<nat, int>, book: Book, trace: seq<nat>, fills: Fills, taker: IncomingOrder)
    requires (forall h | h in trace :: h in book && h in fills) && forall h | h in fills :: fills[h] > 0
    requires HasHeadroom(users, Total(fills, trace))
    ensures SaturatingUsers(users, book, trace, fills, taker) == UsersAfter(users, book, trace, fills, taker)
  {
    hide SaturatingFill, ApplyFill, SharesOf, Touched;
    if trace != [] {
      var n := |trace| - 1;
      var h, first := trace[n], trace[..n];
      assert trace == first + [h];
      LastShare(fills, first, h);
      TotalNonNeg(fills, first);
      NoSaturation(users, book, first, fills, taker);
      var before := UsersAfter(users, book, first, fills, taker);
      forall u: nat ensures -I64_MAX <= Net(before, u) - fills[h] && Net(before, u) + fills[h] <= I64_MAX {
        UsersNet(users, book, first, fills, taker, u);
        SharesBounded(book, fills, first, u);
        assert Net(users, u) + Total(fills, trace) <= I64_MAX;
      }
      PlainFill(before, taker.user, book[h].user, taker.side, fills[h]);
    }
  }
}
