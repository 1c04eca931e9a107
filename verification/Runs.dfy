/** Whole runs of commands on the simple book. */
module Runs {
  import opened Types
  import opened Compression
  import opened Arena
  import opened PriceTime
  import opened Arrangement
  import opened BookFacts
  import opened MatchFacts
  import opened FokFacts
  import opened FokExact
  import opened Outcome
  import opened Positions
  import opened Laws

  datatype Command =
    | Submit(order: IncomingOrder)
    | Cancel(handle: nat, user: nat, id: OrderId)
    | Reduce(handle: nat, newQty: int, user: nat, id: OrderId)
    | Recenter(mid: int)

  /** What the simple book remembers between commands. */
  datatype State = State(book: Book, users: map<nat, int>, sequence: nat)

  /** What one command did. */
  datatype Reply =
    | Answered(fills: Fills, verdict: Verdict, trace: seq<nat>, placed: nat, counted: int, events: seq<Event>)
    | Edited(removed: bool)
    | Recentered

  ghost predicate Stepped(config: BookConfig, s: State, c: Command, r: Reply, s': State) {
    match c
    case Submit(order) =>
      && r.Answered?
      && Responded(s.book, s.users, config, order, r.counted, r.fills, r.verdict, r.trace, r.placed, s'.sequence,
                   s'.book, s'.users, r.events)
      && s'.sequence == (if r.verdict.Rested? then s.sequence + 1 else s.sequence)
    case Cancel(handle, user, id) =>
      && r == Edited(Named(s.book, handle, user, id))
      && s' == s.(book := if Named(s.book, handle, user, id) then s.book - {handle} else s.book)
    case Reduce(handle, newQty, user, id) =>
      && newQty >= 0
      && var ok := Named(s.book, handle, user, id) && newQty < s.book[handle].qty;
         && r == Edited(ok && newQty == 0)
         && s' == s.(book := if !ok then s.book
                             else if newQty == 0 then s.book - {handle}
                             else s.book[handle := s.book[handle].(qty := newQty)])
    case Recenter(_) => r == Recentered && s' == s
  }

  /** Well-formed between commands: aligned prices, distinct arrivals, positive quantities, not crossed. */
  ghost predicate Sane(config: BookConfig, s: State) {
    && config.tickSize >= 1 && config.lotSize >= 1
    && Recorded(s.book, config.tickSize, s.sequence)
    && Positive(s.book) && Uncrossed(s.book)
    && NONE !in s.book
  }

  /** Prices are `i64` values, and the slab hands out handles below `NONE`. */
  ghost predicate Admissible(c: Command, r: Reply) {
    c.Submit? && r.Answered? ==> c.order.price <= I64_MAX && (r.verdict.Rested? ==> r.placed != NONE)
  }

  // ---------------------------------------------------------------------
  // What the fill-or-kill pre-check saw.

  /** How an order book lays its resting orders out. */
  datatype Layout = Layout(
    slots: seq<OrderSlot>, comp: CompressionMap, levels: seq<PriceLevel>, queues: seq<seq<nat>>)

  /** The layout holds exactly the orders of the state, under a regular map. */
  ghost predicate Backs(config: BookConfig, s: State, l: Layout) {
    && Regular(l.comp) && Shaped(l.comp) && l.comp.tick == config.tickSize
    && Arranged(l.slots, s.book, l.comp, l.levels, l.queues)
  }

  /** The pre-check counted what it finds in this layout. */
  ghost predicate CountedIn(s: State, c: Command, r: Reply, l: Layout) {
    c.Submit? ==>
      && r.Answered? && Shaped(l.comp)
      && r.counted == CountedQty(s.book, l.queues, PriceAsc(l.comp), c.order.side, c.order.price)
  }

  // ---------------------------------------------------------------------
  // Every command keeps the book well-formed.

  lemma AfterSane(book: Book, tick: int, sequence: nat, taker: Side, limit: int, fills: Fills)
    requires Recorded(book, tick, sequence) && Positive(book) && FillsWithin(book, taker, limit, fills)
    ensures Recorded(AfterFills(book, fills), tick, sequence) && Positive(AfterFills(book, fills))
    ensures AfterFills(book, fills).Keys <= book.Keys
  {
  }

  lemma RestSane(after: Book, tick: int, sequence: nat, h: nat, o: Order)
    requires Recorded(after, tick, sequence) && Positive(after) && h !in after
    requires o.qty > 0 && o.stamp == sequence + 1 && 0 < o.price <= I64_MAX && o.price % tick == 0
    ensures Recorded(after[h := o], tick, sequence + 1) && Positive(after[h := o])
  {
    RecordedLater(after, tick, sequence, sequence + 1);
    RecordedInsert(after, tick, sequence + 1, h, o);
  }

  lemma RestedPositive(book: Book, users: map<nat, int>, config: BookConfig, order: IncomingOrder, counted: int)
    requires Stamped(book) && Positive(book) && config.tickSize >= 1 && config.lotSize >= 1
    ensures var verdict := Judge(book, users, config, order, counted).1;
            verdict.Rested? ==> verdict.resting > 0 && ValidTick(config, order.price)
  {
    hide Stamped, Positive, FillsFor, Traded, AfterFills, SomeCross;
    if Gate(book, users, config, order, counted).None? { SweptFills(book, order, Size(users, order)); }
  }

  lemma SubmitSane(config: BookConfig, s: State, c: Command, r: Reply, s': State)
    requires Sane(config, s) && Stepped(config, s, c, r, s') && c.Submit? && Admissible(c, r)
    ensures Sane(config, s')
  {
    hide Judge, FillEvents, UsersAfter, Traces, BboReport, Terminal, Uncrossed, Positive, Recorded, FillsWithin,
         AfterFills, Size, Traded;
    RecordedStamps(s.book, config.tickSize, s.sequence);
    JudgedFills(s.book, s.users, config, c.order, r.counted);
    RestedPositive(s.book, s.users, config, c.order, r.counted);
    OnlyGtcRests(s.book, s.users, config, c.order, r.counted, r.fills, r.verdict, r.trace, r.placed, s'.sequence,
                 s'.book, s'.users, r.events);
    AfterSane(s.book, config.tickSize, s.sequence, c.order.side, c.order.price, r.fills);
    if r.verdict.Rested? {
      RestSane(AfterFills(s.book, r.fills), config.tickSize, s.sequence, r.placed,
               Remnant(c.order, r.verdict.resting, s'.sequence));
    }
  }

  lemma RecordedStamps(book: Book, tick: int, sequence: nat)
    requires Recorded(book, tick, sequence)
    ensures Stamped(book) && forall h | h in book :: book[h].stamp <= sequence
  {
  }

  /** Every command keeps the book well-formed and uncrossed. */
  lemma StepSane(config: BookConfig, s: State, c: Command, r: Reply, s': State)
    requires Sane(config, s) && Stepped(config, s, c, r, s') && Admissible(c, r)
    ensures Sane(config, s') && s'.sequence >= s.sequence
  {
    if c.Submit? {
      SubmitSane(config, s, c, r, s');
    }
  }

  // ---------------------------------------------------------------------
  // Arrivals and departures.

  /** The arrival numbers resting in a book. */
  ghost function Stamps(book: Book): set<nat> {
    set h | h in book :: book[h].stamp
  }

  /** Makers reported done by the events of a call. */
  ghost function Done(s: State, r: Reply): set<nat> {
    if r.Answered? then
      set e | e in r.events && e.OrderDone? && e.handle != NONE && e.handle in s.book :: s.book[e.handle].stamp
    else {}
  }

  /** The order taken out by a successful cancel, or by a reduction to zero. */
  ghost function Cancelled(s: State, c: Command, r: Reply): set<nat> {
    if (c.Cancel? || c.Reduce?) && r.Edited? && r.removed && c.handle in s.book then {s.book[c.handle].stamp} else {}
  }

  /** The order that came to rest. */
  ghost function Arrived(r: Reply, s': State): set<nat> {
    if r.Answered? && r.verdict.Rested? then {s'.sequence} else {}
  }

  /** The makers reported done are exactly those filled completely. */
  lemma DoneIsFilled(config: BookConfig, s: State, c: Command, r: Reply, s': State, h: nat)
    requires Sane(config, s) && Stepped(config, s, c, r, s') && c.Submit?
    ensures FullyFilled(s.book, r.fills, h)
            <==> h in s.book && exists e :: e in r.events && e.OrderDone? && e.handle == h && h != NONE
  {
    hide Judge, FillEvents, UsersAfter, Traces, BboReport, Uncrossed, Positive, Settle, Recorded;
    EventsInOrder(s.book, s.users, config, c.order, r.counted, r.fills, r.verdict, r.trace, r.placed, s'.sequence,
                  s'.book, s'.users, r.events);
    DoneReported(s.book, r.fills, c.order, Terminal(c.order, r.verdict, r.placed), r.events, h);
  }

  lemma DoneReported(book: Book, fills: Fills, taker: IncomingOrder, outcome: Event, events: seq<Event>, h: nat)
    requires InOrder(book, fills, taker, outcome, events) && NONE !in book
    requires forall g | g in fills :: exists e :: e in events && e.Fill? && e.maker == g
    ensures FullyFilled(book, fills, h)
            <==> h in book && exists e :: e in events && e.OrderDone? && e.handle == h && h != NONE
  {
    hide FillReport;
    var k :| && 0 <= k < |events| && events[k] == outcome && IsOutcome(outcome)
             && Reported(book, fills, taker, events[..k])
             && (forall i | k < i < |events| :: events[i].Bbo?);
    var first := events[..k];
    if FullyFilled(book, fills, h) {
      var e :| e in events && e.Fill? && e.maker == h;
      var i :| 0 <= i < |events| && events[i] == e;
      assert first[i] == e;
      assert DoneReport(book, fills, taker, first[i], first[i + 1]);
      assert events[i + 1] == first[i + 1] && events[i + 1] in events;
    }
    if h in book && exists e :: e in events && e.OrderDone? && e.handle == h && h != NONE {
      var e :| e in events && e.OrderDone? && e.handle == h && h != NONE;
      var i :| 0 <= i < |events| && events[i] == e;
      assert first[i] == e;
      assert FillReport(book, fills, taker, first[i]) || (i > 0 && DoneReport(book, fills, taker, first[i - 1], first[i]));
      FillIsFill(book, fills, taker, first[i]);
    }
  }

  lemma FillIsFill(book: Book, fills: Fills, taker: IncomingOrder, e: Event)
    ensures FillReport(book, fills, taker, e) ==> e.Fill?
  {
  }

  lemma DoneStamps(config: BookConfig, s: State, c: Command, r: Reply, s': State, h: nat)
    requires Sane(config, s) && Stepped(config, s, c, r, s') && c.Submit? && h in s.book
    ensures s.book[h].stamp in Done(s, r) <==> FullyFilled(s.book, r.fills, h)
  {
    hide Judge, FillEvents, UsersAfter, Traces, BboReport, Uncrossed, Positive, Settle, Recorded, Responded,
         FullyFilled;
    RecordedStamps(s.book, config.tickSize, s.sequence);
    DoneIsFilled(config, s, c, r, s', h);
    if s.book[h].stamp in Done(s, r) {
      var e :| e in r.events && e.OrderDone? && e.handle != NONE && e.handle in s.book && s.book[e.handle].stamp == s.book[h].stamp;
      assert e.handle == h;
    }
  }

  lemma SubmitAccounts(config: BookConfig, s: State, c: Command, r: Reply, s': State)
    requires Sane(config, s) && Stepped(config, s, c, r, s') && c.Submit?
    ensures Done(s, r) <= Stamps(s.book) && Cancelled(s, c, r) == {}
    ensures Stamps(s'.book) == Stamps(s.book) - Done(s, r) + Arrived(r, s')
  {
    hide Judge, FillEvents, UsersAfter, Traces, BboReport, Uncrossed, Positive, Recorded, Terminal, FullyFilled, Done;
    var after := AfterFills(s.book, r.fills);
    DoneAreResting(s, r);
    forall x ensures x in Stamps(after) <==> x in Stamps(s.book) && x !in Done(s, r) {
      if x in Stamps(s.book) {
        var h :| h in s.book && s.book[h].stamp == x;
        DoneStamps(config, s, c, r, s', h);
        if h in after { assert after[h].stamp in Stamps(after); }
        if x in Stamps(after) {
          var g :| g in after && after[g].stamp == x;
          DoneStamps(config, s, c, r, s', g);
        }
      }
    }
    assert Stamps(after) == Stamps(s.book) - Done(s, r);
    SettleStamps(after, c.order, r.verdict, r.placed, s'.sequence);
  }

  lemma DoneAreResting(s: State, r: Reply)
    ensures Done(s, r) <= Stamps(s.book)
  {
    forall x | x in Done(s, r) ensures x in Stamps(s.book) {
      var e :| e in r.events && e.OrderDone? && e.handle != NONE && e.handle in s.book && s.book[e.handle].stamp == x;
      assert s.book[e.handle].stamp in Stamps(s.book);
    }
  }

  lemma SettleStamps(after: Book, order: IncomingOrder, verdict: Verdict, h: nat, stamp: nat)
    requires verdict.Rested? ==> h !in after
    ensures Stamps(Settle(after, order, verdict, h, stamp)) == Stamps(after) + if verdict.Rested? then {stamp} else {}
  {
    if verdict.Rested? {
      var book := Settle(after, order, verdict, h, stamp);
      assert book[h].stamp == stamp && book[h].stamp in Stamps(book);
      forall x | x in Stamps(after) ensures x in Stamps(book) {
        var g :| g in after && after[g].stamp == x;
        assert book[g].stamp in Stamps(book);
      }
    }
  }

  lemma EditAccounts(config: BookConfig, s: State, c: Command, r: Reply, s': State)
    requires Sane(config, s) && Stepped(config, s, c, r, s') && !c.Submit?
    ensures Done(s, r) == {} == Arrived(r, s') && Cancelled(s, c, r) <= Stamps(s.book)
    ensures Stamps(s'.book) == Stamps(s.book) - Cancelled(s, c, r)
  {
    hide Uncrossed, Positive, Priced;
    if (c.Cancel? || c.Reduce?) && c.handle in s.book {
      assert s.book[c.handle].stamp in Stamps(s.book);
      if c.handle in s'.book {
        SameStamps(s.book, s'.book);
      } else {
        LessOne(s.book, c.handle);
      }
    }
  }

  lemma SameStamps(book: Book, book': Book)
    requires book.Keys == book'.Keys && forall h | h in book :: book'[h].stamp == book[h].stamp
    ensures Stamps(book) == Stamps(book')
  {
    forall x ensures x in Stamps(book) <==> x in Stamps(book') {
      if x in Stamps(book) { var h :| h in book && book[h].stamp == x; assert book'[h].stamp in Stamps(book'); }
      if x in Stamps(book') { var h :| h in book' && book'[h].stamp == x; assert book[h].stamp in Stamps(book); }
    }
  }

  lemma LessOne(book: Book, h: nat)
    requires Stamped(book) && h in book
    ensures Stamps(book - {h}) == Stamps(book) - {book[h].stamp}
  {
    forall x ensures x in Stamps(book - {h}) <==> x in Stamps(book) && x != book[h].stamp {
      if x in Stamps(book - {h}) { var g :| g in book - {h} && book[g].stamp == x; assert book[g].stamp in Stamps(book); }
      if x in Stamps(book) && x != book[h].stamp {
        var g :| g in book && book[g].stamp == x;
        assert (book - {h})[g].stamp in Stamps(book - {h});
      }
    }
  }

  /** Orders that left the book in a step, by whichever way. */
  ghost function Exits(s: State, c: Command, r: Reply): set<nat> {
    Done(s, r) + Cancelled(s, c, r)
  }

  /** A step removes exactly the orders done or cancelled, never both, and adds at most the new one. */
  lemma StepAccounts(config: BookConfig, s: State, c: Command, r: Reply, s': State)
    requires Sane(config, s) && Stepped(config, s, c, r, s')
    ensures Done(s, r) !! Cancelled(s, c, r) && Exits(s, c, r) <= Stamps(s.book)
    ensures Stamps(s'.book) == Stamps(s.book) - Exits(s, c, r) + Arrived(r, s')
    ensures forall x | x in Stamps(s.book) :: x <= s.sequence
    ensures forall x | x in Arrived(r, s') :: x == s'.sequence == s.sequence + 1
  {
    hide Sane, Done, Cancelled, Responded, Uncrossed, Positive;
    SaneStamps(config, s);
    if c.Submit? { SubmitAccounts(config, s, c, r, s'); } else { EditAccounts(config, s, c, r, s'); }
  }

  lemma SaneStamps(config: BookConfig, s: State)
    requires Sane(config, s)
    ensures forall x | x in Stamps(s.book) :: x <= s.sequence
  {
    hide Uncrossed, Positive, Priced;
  }

  // ---------------------------------------------------------------------
  // Runs.

  /** A run: each command takes each state to the next. */
  ghost predicate Trail(config: BookConfig, cs: seq<Command>, rs: seq<Reply>, ss: seq<State>) {
    && |ss| == |cs| + 1 == |rs| + 1
    && forall i | 0 <= i < |cs| :: Stepped(config, ss[i], cs[i], rs[i], ss[i + 1]) && Admissible(cs[i], rs[i])
  }

  /** Every state of the run was laid out in an order book, and every pre-check counted there. */
  ghost predicate Backed(config: BookConfig, cs: seq<Command>, rs: seq<Reply>, ss: seq<State>, ls: seq<Layout>)
    requires |ss| == |cs| + 1 == |rs| + 1
  {
    && |ls| == |cs|
    && forall i | 0 <= i < |cs| :: Backs(config, ss[i], ls[i]) && CountedIn(ss[i], cs[i], rs[i], ls[i])
  }

  /** A run never leaves the well-formed states: prices aligned, quantities positive, never crossed. */
  lemma {:induction false} RunSane(config: BookConfig, cs: seq<Command>, rs: seq<Reply>, ss: seq<State>, n: nat)
    requires Trail(config, cs, rs, ss) && Sane(config, ss[0]) && n < |ss|
    ensures Sane(config, ss[n]) && Uncrossed(ss[n].book)
    ensures forall m | 0 <= m <= n :: ss[m].sequence <= ss[n].sequence
  {
    hide Sane, Stepped;
    if n > 0 {
      RunSane(config, cs, rs, ss, n - 1);
      assert Stepped(config, ss[n - 1], cs[n - 1], rs[n - 1], ss[n - 1 + 1]);
      StepSane(config, ss[n - 1], cs[n - 1], rs[n - 1], ss[n]);
    }
    SaneUncrossed(config, ss[n]);
  }

  lemma SaneUncrossed(config: BookConfig, s: State)
    requires Sane(config, s)
    ensures Uncrossed(s.book)
  {
  }

  /** An order that left never rests again. */
  lemma {:induction false} GoneForGood(
    config: BookConfig, cs: seq<Command>, rs: seq<Reply>, ss: seq<State>, i: nat, j: nat, x: nat)
    requires Trail(config, cs, rs, ss) && Sane(config, ss[0]) && i < j < |ss|
    requires x in Exits(ss[i], cs[i], rs[i])
    ensures x !in Stamps(ss[j].book) && x <= ss[i].sequence
  {
    hide Sane, Stepped, Exits, Stamps, Arrived;
    var k := j - 1;
    RunSane(config, cs, rs, ss, i);
    RunSane(config, cs, rs, ss, k);
    assert Stepped(config, ss[i], cs[i], rs[i], ss[i + 1]);
    assert Stepped(config, ss[k], cs[k], rs[k], ss[k + 1]);
    StepAccounts(config, ss[i], cs[i], rs[i], ss[i + 1]);
    StepAccounts(config, ss[k], cs[k], rs[k], ss[k + 1]);
    if i < k { GoneForGood(config, cs, rs, ss, i, k, x); }
  }

  /** Over a whole run an order leaves at most once, done or cancelled but never both. */
  lemma SingleCompletion(config: BookConfig, cs: seq<Command>, rs: seq<Reply>, ss: seq<State>, i: nat, j: nat)
    requires Trail(config, cs, rs, ss) && Sane(config, ss[0]) && i < j < |cs|
    ensures Exits(ss[i], cs[i], rs[i]) !! Exits(ss[j], cs[j], rs[j])
    ensures Done(ss[i], rs[i]) !! Cancelled(ss[i], cs[i], rs[i])
  {
    hide Sane, Stepped, Exits, Stamps, Done, Cancelled;
    RunSane(config, cs, rs, ss, i);
    RunSane(config, cs, rs, ss, j);
    assert Stepped(config, ss[i], cs[i], rs[i], ss[i + 1]) && Stepped(config, ss[j], cs[j], rs[j], ss[j + 1]);
    StepAccounts(config, ss[i], cs[i], rs[i], ss[i + 1]);
    StepAccounts(config, ss[j], cs[j], rs[j], ss[j + 1]);
    forall x | x in Exits(ss[i], cs[i], rs[i]) ensures x !in Exits(ss[j], cs[j], rs[j]) {
      GoneForGood(config, cs, rs, ss, i, j, x);
    }
  }

  /** An order resting at some point still rests at the end or has left exactly once since. */
  lemma {:induction false} NoOrderLost(
    config: BookConfig, cs: seq<Command>, rs: seq<Reply>, ss: seq<State>, i: nat, n: nat, x: nat)
    requires Trail(config, cs, rs, ss) && Sane(config, ss[0]) && i <= n < |ss| && x in Stamps(ss[i].book)
    ensures x in Stamps(ss[n].book) <==> forall k | i <= k < n :: x !in Exits(ss[k], cs[k], rs[k])
    decreases n - i
  {
    hide Sane, Stepped, Exits, Stamps, Arrived;
    if i < n {
      var m := n - 1;
      NoOrderLost(config, cs, rs, ss, i, m, x);
      RunSane(config, cs, rs, ss, m);
      assert Stepped(config, ss[m], cs[m], rs[m], ss[m + 1]);
      StepAccounts(config, ss[m], cs[m], rs[m], ss[m + 1]);
      RunSane(config, cs, rs, ss, i);
      assert i < |cs| && Stepped(config, ss[i], cs[i], rs[i], ss[i + 1]);
      StepAccounts(config, ss[i], cs[i], rs[i], ss[i + 1]);
      forall k | i <= k < n && x in Exits(ss[k], cs[k], rs[k]) ensures x !in Stamps(ss[n].book) {
        GoneForGood(config, cs, rs, ss, k, n, x);
      }
    }
  }

  // ---------------------------------------------------------------------
  // Positions over a run.

  lemma StepBalances(config: BookConfig, s: State, c: Command, r: Reply, s': State, q: seq<nat>)
    requires Stepped(config, s, c, r, s') && Distinct(q) && forall u | u in s'.users :: u in q
    ensures Total(s'.users, q) == Total(s.users, q) && s.users.Keys <= s'.users.Keys
  {
    hide Judge, FillEvents, UsersAfter, Traces, BboReport, Terminal, Settle, AfterFills, Total, Distinct, Assigned;
    if c.Submit? {
      var mid := UsersAfter(s.users, s.book, r.trace, r.fills, c.order);
      AssignedBalances(mid, c.order.user, q);
      PositionsBalance(s.users, s.book, r.trace, r.fills, c.order, q);
    }
  }

  /** Over every run the net positions of all users together stay what they were. */
  lemma {:induction false} RunBalances(
    config: BookConfig, cs: seq<Command>, rs: seq<Reply>, ss: seq<State>, n: nat, q: seq<nat>)
    requires Trail(config, cs, rs, ss) && n < |ss| && Distinct(q) && forall u | u in ss[n].users :: u in q
    ensures Total(ss[n].users, q) == Total(ss[0].users, q)
  {
    hide Stepped, Admissible, Total, Distinct;
    if n > 0 {
      var m := n - 1;
      assert Stepped(config, ss[m], cs[m], rs[m], ss[m + 1]);
      StepBalances(config, ss[m], cs[m], rs[m], ss[n], q);
      RunBalances(config, cs, rs, ss, m, q);
    }
  }

  // ---------------------------------------------------------------------
  // Fill-or-kill orders over a run.

  /** In every run a fill-or-kill order changes nothing, fills completely, or its size was in the gap. */
  lemma RunFok(config: BookConfig, cs: seq<Command>, rs: seq<Reply>, ss: seq<State>, ls: seq<Layout>, i: nat)
    requires Trail(config, cs, rs, ss) && Backed(config, cs, rs, ss, ls) && Sane(config, ss[0])
    requires i < |cs| && cs[i].Submit? && cs[i].order.tif == FOK
    ensures Stamped(ss[i].book) && rs[i].Answered?
    ensures var s, order, v := ss[i], cs[i].order, rs[i].verdict;
            || (rs[i].fills == map[] && ss[i + 1].book == s.book)
            || v == Completed(Filled, Size(s.users, order), 0)
            || (v.Completed? && v.reason == MatchLimit
                && InGap(s.book, ls[i].queues, ls[i].comp, order.side, order.price, Size(s.users, order)))
  {
    hide Sane, Stepped, Judge, InGap, CountedQty, Regular, Shaped, Arranged, PriceAsc, Recorded, Positive, Priced,
         AfterFills, FillEvents, UsersAfter, BboReport, Admissible, Fillable, Uncrossed;
    RunSane(config, cs, rs, ss, i);
    assert Stepped(config, ss[i], cs[i], rs[i], ss[i + 1]);
    assert Backs(config, ss[i], ls[i]) && CountedIn(ss[i], cs[i], rs[i], ls[i]);
    FokStep(config, ss[i], cs[i], rs[i], ss[i + 1], ls[i]);
  }

  lemma FokStep(config: BookConfig, s: State, c: Command, r: Reply, s': State, l: Layout)
    requires Sane(config, s) && Stepped(config, s, c, r, s') && Backs(config, s, l) && CountedIn(s, c, r, l)
    requires c.Submit? && c.order.tif == FOK
    ensures Stamped(s.book) && r.Answered?
    ensures || (r.fills == map[] && s'.book == s.book)
            || r.verdict == Completed(Filled, Size(s.users, c.order), 0)
            || (r.verdict.Completed? && r.verdict.reason == MatchLimit
                && InGap(s.book, l.queues, l.comp, c.order.side, c.order.price, Size(s.users, c.order)))
  {
    hide InGap, CountedQty, Regular, Shaped, Arranged, PriceAsc, Positive, Priced, AfterFills, FillEvents, UsersAfter,
         BboReport, Fillable, Uncrossed, Traces, Residual, FillsFor, Traded, SomeCross, Size, Terminal, Stamped,
         ValidTick, ValidLot, Reduces;
    FokAllOrNothing(l.slots, s.book, l.comp, l.levels, l.queues, s.users, config, c.order);
  }

  // ---------------------------------------------------------------------
  // Names over a run.

  /** The order at `h` is the same order on both books, except that its quantity may have shrunk. */
  ghost predicate SameOrder(book: Book, book': Book, h: nat) {
    && h in book && h in book'
    && book'[h] == book[h].(qty := book'[h].qty) && book'[h].qty <= book[h].qty
  }

  lemma AfterNames(book: Book, taker: Side, limit: int, fills: Fills)
    requires FillsWithin(book, taker, limit, fills)
    ensures forall g | g in AfterFills(book, fills) :: SameOrder(book, AfterFills(book, fills), g)
  {
  }

  /** An order that still rests after a step rests under the handle it had before. */
  lemma StepKeepsHandle(config: BookConfig, s: State, c: Command, r: Reply, s': State, h: nat)
    requires Sane(config, s) && Stepped(config, s, c, r, s') && h in s.book && s.book[h].stamp in Stamps(s'.book)
    ensures SameOrder(s.book, s'.book, h)
  {
    hide Judge, FillEvents, UsersAfter, Traces, BboReport, Terminal, Uncrossed, Positive, Priced, AfterFills,
         FillsWithin, Size, Traded, OldestFirst;
    var g :| g in s'.book && s'.book[g].stamp == s.book[h].stamp;
    if c.Submit? {
      JudgedFills(s.book, s.users, config, c.order, r.counted);
      AfterNames(s.book, c.order.side, c.order.price, r.fills);
      assert g != r.placed || !r.verdict.Rested?;
    }
  }

  /** Over a run an order keeps its handle for as long as it rests. */
  lemma {:induction false} HandleKept(
    config: BookConfig, cs: seq<Command>, rs: seq<Reply>, ss: seq<State>, i: nat, n: nat, h: nat)
    requires Trail(config, cs, rs, ss) && Sane(config, ss[0]) && i <= n < |ss|
    requires h in ss[i].book && ss[i].book[h].stamp in Stamps(ss[n].book)
    ensures SameOrder(ss[i].book, ss[n].book, h)
    decreases n - i
  {
    hide Sane, Stepped, Stamps, Arrived, Exits, Admissible;
    if i < n {
      var m, x := n - 1, ss[i].book[h].stamp;
      RunSane(config, cs, rs, ss, i);
      RunSane(config, cs, rs, ss, m);
      assert Stepped(config, ss[m], cs[m], rs[m], ss[m + 1]);
      StepAccounts(config, ss[m], cs[m], rs[m], ss[m + 1]);
      StampIssued(config, ss[i], h);
      HandleKept(config, cs, rs, ss, i, m, h);
      StepKeepsHandle(config, ss[m], cs[m], rs[m], ss[m + 1], h);
    }
  }

  lemma StampIssued(config: BookConfig, s: State, h: nat)
    requires Sane(config, s) && h in s.book
    ensures s.book[h].stamp <= s.sequence && s.book[h].stamp in Stamps(s.book)
  {
    hide Uncrossed, Positive, Priced;
  }

  /** Over the whole run user and identity name one order. */
  ghost predicate Identified(ss: seq<State>) {
    forall i, j, g, h | 0 <= i < |ss| && 0 <= j < |ss| && g in ss[i].book && h in ss[j].book
                        && ss[i].book[g].user == ss[j].book[h].user && ss[i].book[g].id == ss[j].book[h].id ::
      ss[i].book[g].stamp == ss[j].book[h].stamp
  }

  /**
   * A cancel that names the handle and the identity an order had on arrival succeeds exactly when
   * that order still rests, although the handle may have gone to another order since.
   */
  lemma CancelByName(config: BookConfig, cs: seq<Command>, rs: seq<Reply>, ss: seq<State>, i: nat, n: nat, h: nat)
    requires Trail(config, cs, rs, ss) && Sane(config, ss[0]) && Identified(ss)
    requires i <= n < |cs| && h in ss[i].book
    requires cs[n] == Cancel(h, ss[i].book[h].user, ss[i].book[h].id)
    ensures rs[n] == Edited(ss[i].book[h].stamp in Stamps(ss[n].book))
    ensures rs[n].removed ==> SameOrder(ss[i].book, ss[n].book, h) && ss[n + 1].book == ss[n].book - {h}
  {
    hide Sane, Admissible, Responded;
    assert Stepped(config, ss[n], cs[n], rs[n], ss[n + 1]);
    if ss[i].book[h].stamp in Stamps(ss[n].book) { HandleKept(config, cs, rs, ss, i, n, h); }
    RunSane(config, cs, rs, ss, n);
    if h in ss[n].book { StampIssued(config, ss[n], h); }
  }
}
