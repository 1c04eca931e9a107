/** Runs of commands on the order book itself. */
module Engine {
  import opened Types
  import opened Compression
  import opened Bitmap
  import opened Arena
  import opened PriceTime
  import opened Arrangement
  import opened BookFacts
  import opened OrderBook
  import opened MatchFacts
  import opened FokFacts
  import opened Outcome
  import opened NewOrder
  import opened Migration
  import opened Runs

  /** The simple book behind an order book. */
  ghost function StateOf(book: Orderbook): State
    reads book
  {
    State(book.live, book.users, book.sequence)
  }

  /** What the book asks of a command. */
  predicate Fitting(config: BookConfig, c: Command) {
    match c
    case Submit(order) => order.remaining == order.qty && order.price <= I64_MAX
    case Cancel(_, _, _) => true
    case Reduce(_, newQty, _, _) => newQty >= 0
    case Recenter(mid) => Regular(NewMap(mid, config.tickSize))
  }

  lemma ValidSane(book: Orderbook)
    requires book.Valid()
    ensures Sane(book.config, StateOf(book))
  {
    hide Represents, PriceAsc, Marked, Owned, Uncrossed, Positive, Arranged, SlabOk, PriceToIndex, Regular, BestOk, Recorded;
    TickPositive(book.live, book.config.tickSize, book.sequence);
    SlabBounds(book.orders.slots, book.orders.freeHead, book.orders.bumpNext, book.orders.free);
    ArrangedBounds(book.orders.slots, book.live, book.comp, book.activeLevels, book.queues);
  }

  /** The layout of an order book. */
  ghost function LayoutOf(book: Orderbook): Layout
    reads book, book.orders
  {
    Layout(book.orders.slots, book.comp, book.activeLevels, book.queues)
  }

  lemma ValidBacks(book: Orderbook)
    requires book.Valid()
    ensures Backs(book.config, StateOf(book), LayoutOf(book)) && book.priceAsc == PriceAsc(book.comp)
  {
    hide Represents, PriceAsc, Marked, Owned, Uncrossed, Positive, Arranged, SlabOk, PriceToIndex, Regular, BestOk, Recorded;
    RegularShaped(book.comp);
  }

  lemma PlacedRests(config: BookConfig, s: State, c: Command, r: Reply, s': State)
    requires Stepped(config, s, c, r, s') && NONE !in s'.book
    ensures Admissible(c, r) <==> (c.Submit? ==> c.order.price <= I64_MAX)
  {
    hide Judge, FillEvents, UsersAfter, Traces, BboReport, AfterFills, Terminal;
  }

  /**
   * Execute one command. Only an order that would rest in a full slab stops the process.
   */
  method Execute(book: Orderbook, c: Command) returns (done: bool, ghost r: Reply)
    requires book.Valid() && Fitting(book.config, c)
    modifies book, book.orders, book.bidOcc, book.askOcc
    ensures done ==> Stepped(book.config, old(StateOf(book)), c, r, StateOf(book)) && Admissible(c, r)
    ensures done ==> CountedIn(old(StateOf(book)), c, r, old(LayoutOf(book)))
    ensures !done <==>
              c.Submit? && FindsNoRoom(old(book.live), old(book.users), book.config, c.order, |book.orders.slots|)
    ensures |book.orders.slots| == |old(book.orders.slots)|
    ensures (book.bidOcc == old(book.bidOcc) || fresh(book.bidOcc)) && (book.askOcc == old(book.askOcc) || fresh(book.askOcc))
    ensures book.Valid()
  {
    hide Responded, CountedQty, Regular, NewMap, Sane, FindsNoRoom, Arranged, PriceAsc;
    hide Orderbook.Valid;
    done := true;
    match c
    case Submit(order) =>
      ValidBacks(book);
      ghost var counted := CountedQty(book.live, book.queues, book.priceAsc, order.side, order.price);
      var exhausted, remaining;
      ghost var fills, verdict, trace, handle;
      exhausted, remaining, fills, verdict, trace, handle := ProcessNewOrder(book, order);
      r := Answered(fills, verdict, trace, handle, counted, book.events);
      if exhausted { return false, r; }
      ValidSane(book);
      HandlesBelow(book.config, StateOf(book));
      PlacedRests(book.config, old(StateOf(book)), c, r, StateOf(book));
    case Cancel(handle, user, id) =>
      var ok := book.CancelOrderChecked(handle, user, id);
      r := Edited(ok);
    case Reduce(handle, newQty, user, id) =>
      var ok := book.ModifyOrderQtyDown(handle, newQty, user, id);
      r := Edited(ok && newQty == 0);
    case Recenter(mid) =>
      RecenterNow(book, mid);
      r := Recentered;
  }

  lemma HandlesBelow(config: BookConfig, s: State)
    requires Sane(config, s)
    ensures NONE !in s.book
  {
  }

  /**
   * Execute a run of commands of any length. The order book stays valid throughout, and what was
   * executed is a run of the simple book. It ends early only at an order that would rest while
   * every handle of the slab is in use.
   */
  method ExecuteAll(book: Orderbook, cs: seq<Command>)
    returns (k: nat, ghost rs: seq<Reply>, ghost ss: seq<State>, ghost ls: seq<Layout>)
    requires book.Valid() && (forall c | c in cs :: Fitting(book.config, c))
    modifies book, book.orders, book.bidOcc, book.askOcc
    ensures k <= |cs| && Trail(book.config, cs[..k], rs, ss) && Sane(book.config, ss[0])
    ensures Backed(book.config, cs[..k], rs, ss, ls)
    ensures ss[0] == old(StateOf(book)) && (k == |cs| ==> ss[k] == StateOf(book))
    ensures k < |cs| ==>
              cs[k].Submit? && FindsNoRoom(ss[k].book, ss[k].users, book.config, cs[k].order, |book.orders.slots|)
    ensures book.Valid()
  {
    hide Stepped, Sane, Fitting, StateOf, Admissible, Backs, CountedIn, FindsNoRoom, LayoutOf;
    hide Orderbook.Valid;
    ValidSane(book);
    k, rs, ss, ls := 0, [], [StateOf(book)], [];
    while k < |cs|
      invariant k <= |cs| && |rs| == |ls| == k && |ss| == k + 1
      invariant ss[0] == old(StateOf(book)) && ss[k] == StateOf(book)
      invariant Trail(book.config, cs[..k], rs, ss) && Backed(book.config, cs[..k], rs, ss, ls)
      invariant book.bidOcc == old(book.bidOcc) || fresh(book.bidOcc)
      invariant book.askOcc == old(book.askOcc) || fresh(book.askOcc)
      invariant |book.orders.slots| == |old(book.orders.slots)|
      invariant book.Valid()
      decreases |cs| - k
    {
      ghost var l := LayoutOf(book);
      StateParts(book);
      ValidBacks(book);
      var done;
      ghost var r;
      done, r := Execute(book, cs[k]);
      if !done { return; }
      TrailGrows(book.config, cs, k, rs, ss, ls, r, StateOf(book), l);
      rs, ss, ls := rs + [r], ss + [StateOf(book)], ls + [l];
      k := k + 1;
    }
    assert cs[..|cs|] == cs;
  }

  lemma StateParts(book: Orderbook)
    ensures StateOf(book).book == book.live && StateOf(book).users == book.users
  {
  }

  lemma TrailGrows(
    config: BookConfig, cs: seq<Command>, i: nat, rs: seq<Reply>, ss: seq<State>, ls: seq<Layout>, r: Reply, s': State,
    l: Layout)
    requires i < |cs| && Trail(config, cs[..i], rs, ss) && Backed(config, cs[..i], rs, ss, ls)
    requires Stepped(config, ss[i], cs[i], r, s') && Admissible(cs[i], r)
    requires Backs(config, ss[i], l) && CountedIn(ss[i], cs[i], r, l)
    ensures Trail(config, cs[..i + 1], rs + [r], ss + [s'])
    ensures Backed(config, cs[..i + 1], rs + [r], ss + [s'], ls + [l])
  {
    hide Stepped, Admissible, Backs, CountedIn;
    var ds, qs, ts, ms := cs[..i + 1], rs + [r], ss + [s'], ls + [l];
    forall k | 0 <= k < |ds| ensures Stepped(config, ts[k], ds[k], qs[k], ts[k + 1]) && Admissible(ds[k], qs[k])
                                     && Backs(config, ts[k], ms[k]) && CountedIn(ts[k], ds[k], qs[k], ms[k]) {
      if k < i {
        assert ds[k] == cs[..i][k] && ts[k] == ss[k] && ts[k + 1] == ss[k + 1] && ms[k] == ls[k];
      }
    }
  }
}
