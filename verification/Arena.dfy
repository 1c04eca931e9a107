/** Fixed-capacity arena whose freelist is threaded through the slots' `next` field. */
module Arena {
  import opened Types

  /** The handle after position `i` of a chain, or `NONE` at its end. */
  function NextOf(q: seq<nat>, i: nat): nat
    requires i < |q|
  {
    if i + 1 < |q| then q[i + 1] else NONE
  }

  function HeadOf(q: seq<nat>): nat {
    if q == [] then NONE else q[0]
  }

  predicate Distinct(q: seq<nat>) {
    forall i, j | 0 <= i < j < |q| :: q[i] != q[j]
  }

  /** Following `next` from the head visits exactly `q`. */
  predicate Chain(slots: seq<OrderSlot>, head: nat, q: seq<nat>) {
    && head == HeadOf(q)
    && (forall i {:trigger q[i]} | 0 <= i < |q| :: q[i] < |slots|)
    && (forall i {:trigger slots[q[i]]} | 0 <= i < |q| :: slots[q[i]].next == NextOf(q, i))
  }

  /** The freelist is an acyclic chain of handles that were allocated before. */
  ghost predicate SlabOk(slots: seq<OrderSlot>, freeHead: nat, bumpNext: nat, free: seq<nat>) {
    && bumpNext <= |slots| <= NONE
    && (forall h | h in free :: h < bumpNext)
    && Distinct(free)
    && Chain(slots, freeHead, free)
  }

  /** The handle of the `k`-th allocation to come, if none is freed in between. */
  function Upcoming(free: seq<nat>, bumpNext: nat, k: nat): nat {
    if k < |free| then free[k] else bumpNext + (k - |free|)
  }

  /** Handle `h` joined the ones in use, and nothing else changed hands. */
  ghost predicate Taken(bumpNext: nat, free: seq<nat>, bumpNext': nat, free': seq<nat>, h: nat) {
    forall g: nat :: g < bumpNext' && g !in free' <==> (g < bumpNext && g !in free) || g == h
  }

  lemma SlabBounds(slots: seq<OrderSlot>, freeHead: nat, bumpNext: nat, free: seq<nat>)
    requires SlabOk(slots, freeHead, bumpNext, free)
    ensures bumpNext <= |slots| <= NONE
  {
  }

  /** The freelist does not mind changes to slots outside it. */
  lemma SlabFrame(slots: seq<OrderSlot>, slots': seq<OrderSlot>, freeHead: nat, bumpNext: nat, free: seq<nat>)
    requires SlabOk(slots, freeHead, bumpNext, free) && |slots| == |slots'|
    requires forall h | h in free && h < |slots| :: slots'[h].next == slots[h].next
    ensures SlabOk(slots', freeHead, bumpNext, free)
  {
  }

  /** Taking the head off the freelist. */
  lemma TakenHead(bumpNext: nat, free: seq<nat>)
    requires free != [] && Distinct(free) && forall h | h in free :: h < bumpNext
    ensures Taken(bumpNext, free, bumpNext, free[1..], free[0])
    ensures Distinct(free[1..]) && free[0] !in free[1..] && forall h | h in free[1..] :: h in free
  {
    assert free == [free[0]] + free[1..];
    assert free[0] in free && free[0] !in free[1..];
    forall g: nat
      ensures g < bumpNext && g !in free[1..] <==> (g < bumpNext && g !in free) || g == free[0]
    {
      assert g in free <==> g == free[0] || g in free[1..];
    }
  }

  /** Taking a handle never used before. */
  lemma TakenFresh(bumpNext: nat)
    ensures Taken(bumpNext, [], bumpNext + 1, [], bumpNext)
  {
    forall g: nat ensures g < bumpNext + 1 && g !in [] <==> (g < bumpNext && g !in []) || g == bumpNext {
    }
  }

  lemma UpcomingTail(bumpNext: nat, free: seq<nat>, k: nat)
    ensures free != [] ==> Upcoming(free[1..], bumpNext, k) == Upcoming(free, bumpNext, k + 1)
    ensures Upcoming([], bumpNext + 1, k) == Upcoming([], bumpNext, k + 1)
  {
  }

  lemma FreeHead(slots: seq<OrderSlot>, freeHead: nat, bumpNext: nat, free: seq<nat>)
    requires SlabOk(slots, freeHead, bumpNext, free)
    ensures freeHead == NONE <==> free == []
    ensures free != [] ==> freeHead == free[0] < bumpNext && free[0] in free
    ensures Upcoming(free, bumpNext, 0) == if free != [] then free[0] else bumpNext
  {
    if free != [] { assert free[0] in free; }
  }

  lemma ChainTail(slots: seq<OrderSlot>, q: seq<nat>)
    requires q != [] && Chain(slots, q[0], q)
    ensures slots[q[0]].next == HeadOf(q[1..])
    ensures Chain(slots, HeadOf(q[1..]), q[1..])
  {
    assert slots[q[0]].next == NextOf(q, 0);
    forall i | 0 <= i < |q[1..]| ensures slots[q[1..][i]].next == NextOf(q[1..], i) {
      assert slots[q[i + 1]].next == NextOf(q, i + 1);
    }
  }

  lemma ChainPush(slots: seq<OrderSlot>, head: nat, q: seq<nat>, h: nat)
    requires Chain(slots, head, q) && h < |slots| && h !in q
    ensures Chain(slots[h := slots[h].(next := head)], h, [h] + q)
  {
    var after, p := slots[h := slots[h].(next := head)], [h] + q;
    forall i | 0 <= i < |p| ensures after[p[i]].next == NextOf(p, i) {
      if i > 0 {
        assert p[i] == q[i - 1];
        assert slots[q[i - 1]].next == NextOf(q, i - 1);
      }
    }
  }

  class Slab {
    var slots: seq<OrderSlot>
    var freeHead: nat
    var bumpNext: nat
    ghost var free: seq<nat>

    ghost predicate Valid()
      reads this
    {
      SlabOk(slots, freeHead, bumpNext, free)
    }

    /** Handed out and not yet returned. */
    ghost predicate InUse(h: nat)
      reads this
    {
      h < bumpNext && h !in free
    }

    constructor (capacity: nat)
      requires capacity <= NONE
      ensures Valid() && free == [] && bumpNext == 0
      ensures slots == seq(capacity, _ => DEFAULT_SLOT)
    {
      slots := seq(capacity, _ => DEFAULT_SLOT);
      freeHead, bumpNext, free := NONE, 0, [];
    }

    /** No handle is left to hand out: `Alloc` would stop the process. */
    predicate IsExhausted()
      reads this
    {
      freeHead == NONE && bumpNext >= |slots|
    }

    method Alloc() returns (idx: nat)
      requires Valid()
      requires free != [] || bumpNext < |slots|
      modifies this
      ensures Valid() && slots == old(slots)
      ensures !old(InUse(idx)) && idx < |slots|
      ensures idx !in free && forall g | g in free :: g in old(free)
      ensures Taken(old(bumpNext), old(free), bumpNext, free, idx)
      ensures idx == Upcoming(old(free), old(bumpNext), 0)
      ensures forall k: nat :: Upcoming(free, bumpNext, k) == Upcoming(old(free), old(bumpNext), k + 1)
      ensures if old(free) != [] then free == old(free)[1..] && bumpNext == old(bumpNext)
              else free == [] && bumpNext == old(bumpNext) + 1
    {
      hide Taken, Upcoming, Distinct;
      if freeHead != NONE {
        idx := freeHead;
        FreeHead(slots, freeHead, bumpNext, free);
        ChainTail(slots, free);
        TakenHead(bumpNext, free);
        freeHead := slots[idx].next;
        free := free[1..];
      } else {
        FreeHead(slots, freeHead, bumpNext, free);
        TakenFresh(bumpNext);
        idx := bumpNext;
        bumpNext := bumpNext + 1;
      }
      forall k: nat ensures Upcoming(free, bumpNext, k) == Upcoming(old(free), old(bumpNext), k + 1) {
        UpcomingTail(old(bumpNext), old(free), k);
      }
    }

    method Free(idx: nat)
      requires Valid() && InUse(idx)
      modifies this
      ensures Valid()
      ensures slots == old(slots)[idx := old(slots)[idx].(next := old(freeHead))]
      ensures free == [idx] + old(free) && bumpNext == old(bumpNext) && freeHead == idx
      ensures forall h: nat :: InUse(h) <==> old(InUse(h)) && h != idx
    {
      ChainPush(slots, freeHead, free, idx);
      slots := slots[idx := slots[idx].(next := freeHead)];
      freeHead := idx;
      free := [idx] + free;
    }

    method IsFree(idx: nat) returns (r: bool)
      requires Valid()
      ensures r <==> idx in free
    {
      var cur := freeHead;
      ghost var i := 0;
      while cur != NONE
        invariant i <= |free| && Chain(slots, cur, free[i..]) && idx !in free[..i]
        decreases |free| - i
      {
        if cur == idx {
          assert free[i] in free;
          return true;
        }
        ChainTail(slots, free[i..]);
        assert free[i..][1..] == free[i + 1..];
        cur := slots[cur].next;
        i := i + 1;
      }
      assert free[..i] == free;
      return false;
    }

    method FreeCount() returns (n: nat)
      requires Valid()
      ensures n == |free|
    {
      n := 0;
      var cur := freeHead;
      while cur != NONE
        invariant n <= |free| && Chain(slots, cur, free[n..])
        decreases |free| - n
      {
        ChainTail(slots, free[n..]);
        assert free[n..][1..] == free[n + 1..];
        n := n + 1;
        cur := slots[cur].next;
      }
    }

    /** Free handles in the order future allocations take them. */
    method FreeHandles() returns (handles: seq<nat>)
      requires Valid()
      ensures handles == free
    {
      handles := [];
      var cur := freeHead;
      while cur != NONE
        invariant |handles| <= |free| && handles == free[..|handles|]
        invariant Chain(slots, cur, free[|handles|..])
        decreases |free| - |handles|
      {
        ghost var i := |handles|;
        ChainTail(slots, free[i..]);
        assert free[i..][1..] == free[i + 1..];
        handles := handles + [cur];
        cur := slots[cur].next;
      }
    }

    /** Rebuild the freelist from a list of free handles. */
    method RestoreFreeHandles(handles: seq<nat>)
      requires bumpNext <= |slots| <= NONE
      requires Distinct(handles) && forall h | h in handles :: h < bumpNext
      modifies this
      ensures Valid() && free == handles && bumpNext == old(bumpNext)
      ensures |slots| == |old(slots)|
      ensures forall h | 0 <= h < |slots| :: slots[h] == old(slots[h]).(next := slots[h].next)
      ensures forall h | 0 <= h < |slots| && h !in handles :: slots[h] == old(slots[h])
    {
      freeHead, free := NONE, [];
      for i := |handles| downto 0
        invariant free == handles[i..] && Chain(slots, freeHead, free)
        invariant bumpNext == old(bumpNext) && |slots| == |old(slots)|
        invariant forall h | 0 <= h < |slots| :: slots[h] == old(slots[h]).(next := slots[h].next)
        invariant forall h | 0 <= h < |slots| && h !in handles :: slots[h] == old(slots[h])
      {
        var idx := handles[i];
        assert idx in handles && idx !in handles[i + 1..];
        ChainPush(slots, freeHead, free, idx);
        slots := slots[idx := slots[idx].(next := freeHead)];
        freeHead := idx;
        free := [idx] + free;
        assert free == handles[i..];
      }
    }
  }
}
