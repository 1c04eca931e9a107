/** Whole runs as the submitter sees them: which submission a resting order came from, and what a cancel hits. */
module Histories {
  import opened Types
  import opened PriceTime
  import opened Arrangement
  import opened BookFacts
  import opened MatchFacts
  import opened Outcome
  import opened Laws
  import opened Answers
  import opened Runs

  /** A submission and its answer, as one call. */
  function CallOf(config: BookConfig, s: State, c: Command, r: Reply, s': State): Call
    requires c.Submit? && r.Answered?
  {
    Call(s.book, s.users, config, c.order, r.counted, r.fills, r.verdict, r.trace, r.placed, s'.sequence,
         s'.book, s'.users, r.events)
  }

  /** Every submission of a run is such a call, so everything said of one call holds of each. */
  lemma RunServed(config: BookConfig, cs: seq<Command>, rs: seq<Reply>, ss: seq<State>, i: nat)
    requires Trail(config, cs, rs, ss) && Sane(config, ss[0]) && i < |cs| && cs[i].Submit?
    ensures rs[i].Answered? && Served(CallOf(config, ss[i], cs[i], rs[i], ss[i + 1]))
  {
    hide Sane, Stepped, Served, Admissible;
    RunSane(config, cs, rs, ss, i);
    assert Stepped(config, ss[i], cs[i], rs[i], ss[i + 1]);
    StepServed(config, ss[i], cs[i], rs[i], ss[i + 1]);
  }

  lemma StepServed(config: BookConfig, s: State, c: Command, r: Reply, s': State)
    requires Sane(config, s) && Stepped(config, s, c, r, s') && c.Submit?
    ensures r.Answered? && Served(CallOf(config, s, c, r, s'))
  {
    hide Responded, Uncrossed, Positive, Priced, Stamped;
  }

  /** `o` is what the order submitted at step `k` left resting: everything but the quantity is the submitter's. */
  ghost predicate CameFrom(cs: seq<Command>, rs: seq<Reply>, ss: seq<State>, k: nat, o: Order) {
    && k < |cs| <= |rs| && |cs| < |ss| && cs[k].Submit? && rs[k].Answered? && rs[k].verdict.Rested?
    && o.stamp == ss[k + 1].sequence
    && var order := cs[k].order;
       && o.side == order.side && o.price == order.price && o.user == order.user && o.id == order.id
       && o.tif == order.tif && o.reduceOnly == order.reduceOnly && 0 < o.qty <= o.original <= order.qty
  }

  /** The order at `h` was there before the run and is the same still. */
  ghost predicate WasThere(ss: seq<State>, n: nat, h: nat) {
    0 < |ss| && n < |ss| && SameOrder(ss[0].book, ss[n].book, h)
  }

  /** In every state of a run each resting order was there at the start or came from one earlier submission. */
  lemma {:induction false} Origin(config: BookConfig, cs: seq<Command>, rs: seq<Reply>, ss: seq<State>, n: nat, h: nat)
    requires Trail(config, cs, rs, ss) && Sane(config, ss[0]) && n < |ss| && h in ss[n].book
    ensures WasThere(ss, n, h) || exists k: nat :: k < n && CameFrom(cs, rs, ss, k, ss[n].book[h])
  {
    hide Sane, Stepped, Admissible, Served;
    if n > 0 {
      var m := n - 1;
      RunSane(config, cs, rs, ss, m);
      assert Stepped(config, ss[m], cs[m], rs[m], ss[m + 1]) && Admissible(cs[m], rs[m]);
      StepSane(config, ss[m], cs[m], rs[m], ss[n]);
      if cs[m].Submit? { StepServed(config, ss[m], cs[m], rs[m], ss[n]); }
      if cs[m].Submit? && rs[m].verdict.Rested? && rs[m].placed == h {
        PlacedFrom(config, ss[m], cs[m], rs[m], ss[n]);
        assert CameFrom(cs, rs, ss, m, ss[n].book[h]);
      } else {
        StepOrigin(config, ss[m], cs[m], rs[m], ss[n], h);
        SanePositive(config, ss[n], h);
        Origin(config, cs, rs, ss, m, h);
        if !WasThere(ss, m, h) {
          var k: nat :| k < m && CameFrom(cs, rs, ss, k, ss[m].book[h]);
          assert CameFrom(cs, rs, ss, k, ss[n].book[h]);
        }
      }
    }
  }

  lemma SanePositive(config: BookConfig, s: State, h: nat)
    requires Sane(config, s) && h in s.book
    ensures s.book[h].qty > 0
  {
  }

  /** An order a step did not insert was there before it. */
  lemma StepOrigin(config: BookConfig, s: State, c: Command, r: Reply, s': State, h: nat)
    requires Sane(config, s) && Stepped(config, s, c, r, s') && h in s'.book
    requires !(c.Submit? && r.Answered? && r.verdict.Rested? && r.placed == h)
    ensures SameOrder(s.book, s'.book, h)
  {
    hide Judge, FillEvents, UsersAfter, Traces, BboReport, Terminal, Uncrossed, Positive, Priced, AfterFills,
         FillsWithin, Size, Traded, OldestFirst, Stamped;
    if c.Submit? {
      JudgedFills(s.book, s.users, config, c.order, r.counted);
      AfterNames(s.book, c.order.side, c.order.price, r.fills);
      AfterKeys(s.book, r.fills);
    }
  }

  lemma AfterKeys(book: Book, fills: Fills)
    ensures AfterFills(book, fills).Keys <= book.Keys
  {
  }

  /** What a submission leaves resting is the order submitted. */
  lemma PlacedFrom(config: BookConfig, s: State, c: Command, r: Reply, s': State)
    requires Sane(config, s) && Stepped(config, s, c, r, s') && c.Submit? && r.Answered? && r.verdict.Rested?
    ensures r.placed in s'.book
    ensures var o, order := s'.book[r.placed], c.order;
            && o.stamp == s'.sequence == s.sequence + 1
            && o.side == order.side && o.price == order.price && o.user == order.user && o.id == order.id
            && o.tif == order.tif && o.reduceOnly == order.reduceOnly && 0 < o.qty == o.original <= order.qty
  {
    hide Judge, FillEvents, UsersAfter, Traces, BboReport, Terminal, Uncrossed, Positive, Priced, AfterFills,
         FillsWithin, Traded, OldestFirst, Stamped;
    JudgedFills(s.book, s.users, config, c.order, r.counted);
    RestedPositive(s.book, s.users, config, c.order, r.counted);
  }

  /** User and identity are submitted once, and no order resting at the start carries them. */
  ghost predicate NamedOnce(cs: seq<Command>, start: Book, i: nat) {
    && i < |cs| && cs[i].Submit?
    && (forall k | 0 <= k < |cs| && cs[k].Submit? && cs[k].order.user == cs[i].order.user && cs[k].order.id == cs[i].order.id ::
          k == i)
    && (forall h | h in start :: start[h].user != cs[i].order.user || start[h].id != cs[i].order.id)
  }

  /** The order submitted at step `i` rests before step `n`. */
  ghost predicate StillRests(ss: seq<State>, i: nat, n: nat) {
    i + 1 < |ss| && n < |ss| && exists g :: g in ss[n].book && ss[n].book[g].stamp == ss[i + 1].sequence
  }

  /** Which order carries the name of a submission: that submission's, under the handle it was given. */
  lemma NameFinds(config: BookConfig, cs: seq<Command>, rs: seq<Reply>, ss: seq<State>, i: nat, n: nat, e: Event)
    requires Trail(config, cs, rs, ss) && Sane(config, ss[0]) && NamedOnce(cs, ss[0].book, i) && i < n < |ss|
    requires rs[i].Answered? && e in rs[i].events && e.OrderInserted?
    ensures Named(ss[n].book, e.handle, cs[i].order.user, cs[i].order.id) <==> StillRests(ss, i, n)
    ensures StillRests(ss, i, n) ==> CameFrom(cs, rs, ss, i, ss[n].book[e.handle])
  {
    hide Sane, Stepped, Admissible, Served;
    RunServed(config, cs, rs, ss, i);
    RunSane(config, cs, rs, ss, i);
    assert Stepped(config, ss[i], cs[i], rs[i], ss[i + 1]);
    OutcomeIs(CallOf(config, ss[i], cs[i], rs[i], ss[i + 1]), e);
    assert rs[i].verdict.Rested? && e.handle == rs[i].placed;
    PlacedFrom(config, ss[i], cs[i], rs[i], ss[i + 1]);
    var h := e.handle;
    if StillRests(ss, i, n) {
      var g :| g in ss[n].book && ss[n].book[g].stamp == ss[i + 1].sequence;
      assert ss[i + 1].book[h].stamp in Stamps(ss[n].book);
      HandleKept(config, cs, rs, ss, i + 1, n, h);
      RunSane(config, cs, rs, ss, n);
      SanePositive(config, ss[n], h);
    }
    if Named(ss[n].book, h, cs[i].order.user, cs[i].order.id) {
      Origin(config, cs, rs, ss, n, h);
      assert !WasThere(ss, n, h);
      var k: nat :| k < n && CameFrom(cs, rs, ss, k, ss[n].book[h]);
      assert k == i;
    }
  }

  /**
   * A cancel that names the handle reported to a submitter and the submitter's own user and identity
   * succeeds exactly when that order still rests, and then removes it and nothing else.
   */
  lemma CancelSubmitted(config: BookConfig, cs: seq<Command>, rs: seq<Reply>, ss: seq<State>, i: nat, n: nat, e: Event)
    requires Trail(config, cs, rs, ss) && Sane(config, ss[0]) && NamedOnce(cs, ss[0].book, i) && i < n < |cs|
    requires rs[i].Answered? && e in rs[i].events && e.OrderInserted?
    requires cs[n] == Cancel(e.handle, cs[i].order.user, cs[i].order.id)
    ensures rs[n] == Edited(StillRests(ss, i, n))
    ensures ss[n + 1] == ss[n].(book := if StillRests(ss, i, n) then ss[n].book - {e.handle} else ss[n].book)
  {
    hide Sane, Admissible, Responded, StillRests, CameFrom, Named;
    assert Stepped(config, ss[n], cs[n], rs[n], ss[n + 1]);
    NameFinds(config, cs, rs, ss, i, n, e);
  }

  /** A reduction so named shrinks that order in place if it still rests and holds more. */
  lemma ReduceSubmitted(config: BookConfig, cs: seq<Command>, rs: seq<Reply>, ss: seq<State>, i: nat, n: nat, e: Event)
    requires Trail(config, cs, rs, ss) && Sane(config, ss[0]) && NamedOnce(cs, ss[0].book, i) && i < n < |cs|
    requires rs[i].Answered? && e in rs[i].events && e.OrderInserted?
    requires cs[n].Reduce? && cs[n].handle == e.handle && cs[n].user == cs[i].order.user && cs[n].id == cs[i].order.id
    ensures StillRests(ss, i, n) ==> e.handle in ss[n].book
    ensures if StillRests(ss, i, n) && cs[n].newQty < ss[n].book[e.handle].qty
            then if cs[n].newQty == 0 then ss[n + 1].book == ss[n].book - {e.handle} && !StillRests(ss, i, n + 1)
                 else ss[n + 1].book == ss[n].book[e.handle := ss[n].book[e.handle].(qty := cs[n].newQty)]
            else ss[n + 1] == ss[n]
  {
    hide Sane, Admissible, Responded, CameFrom;
    assert Stepped(config, ss[n], cs[n], rs[n], ss[n + 1]);
    NameFinds(config, cs, rs, ss, i, n, e);
    NameFinds(config, cs, rs, ss, i, n + 1, e);
  }
}
