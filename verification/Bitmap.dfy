/** Hierarchical bitmap: a slot bitmap under levels of 64-bit summary words. */
module Bitmap {
  import opened Types
  import opened Word

  type Words = seq<nat>

  function WordsFor(count: nat): (n: nat)
    ensures n >= 1 && count <= 64 * n
  {
    if (count + 63) / 64 < 1 then 1 else (count + 63) / 64
  }

  /** How many bits level `k` stands for. */
  function Count(levels: seq<Words>, n: nat, k: nat): nat
    requires k <= |levels|
  {
    if k == 0 then n else |levels[k - 1]|
  }

  /** Level `k` has the words its bits need, and each word has 64 bits. */
  predicate Sized(levels: seq<Words>, n: nat, k: nat)
    requires k < |levels|
  {
    && |levels[k]| == WordsFor(Count(levels, n, k))
    && forall w | 0 <= w < |levels[k]| :: Fits(levels[k][w], 64)
  }

  predicate Shape(levels: seq<Words>, n: nat) {
    && |levels| >= 1
    && (forall k {:trigger Sized(levels, n, k)} | 0 <= k < |levels| :: Sized(levels, n, k))
    && |levels[|levels| - 1]| == 1
  }

  predicate BitAt(words: Words, j: nat)
    requires j < 64 * |words|
  {
    Bit(words[j / 64], j % 64)
  }

  /** Whether bit `j` of level `k` should be set. */
  ghost predicate Want(levels: seq<Words>, members: set<nat>, k: nat, j: nat)
    requires k <= |levels|
  {
    if k == 0 then j in members else j < |levels[k - 1]| && levels[k - 1][j] != 0
  }

  ghost predicate Agree(levels: seq<Words>, members: set<nat>, k: nat, j: nat)
    requires k < |levels| && j < 64 * |levels[k]|
  {
    BitAt(levels[k], j) <==> Want(levels, members, k, j)
  }

  /** Every bit is as wanted, except possibly bit `i` of level `e`. */
  ghost predicate AgreeExcept(levels: seq<Words>, members: set<nat>, e: nat, i: nat) {
    forall k, j {:trigger Agree(levels, members, k, j)}
      | 0 <= k < |levels| && 0 <= j < 64 * |levels[k]| && !(k == e && j == i) :: Agree(levels, members, k, j)
  }

  ghost predicate AllAgree(levels: seq<Words>, members: set<nat>) {
    forall k, j {:trigger Agree(levels, members, k, j)}
      | 0 <= k < |levels| && 0 <= j < 64 * |levels[k]| :: Agree(levels, members, k, j)
  }

  /** The bitmap represents `members`, a set of slots below `n`. */
  ghost predicate Represents(levels: seq<Words>, n: nat, members: set<nat>) {
    && Shape(levels, n)
    && (forall m | m in members :: m < n)
    && AllAgree(levels, members)
  }

  // ---------------------------------------------------------------------
  // Changing one word.

  function Put(levels: seq<Words>, k: nat, w: nat, v: nat): seq<Words>
    requires k < |levels| && w < |levels[k]|
  {
    var row: Words := levels[k][w := v];
    levels[k := row]
  }

  lemma PutShape(levels: seq<Words>, n: nat, k: nat, w: nat, v: nat)
    requires Shape(levels, n) && k < |levels| && w < |levels[k]| && Fits(v, 64)
    ensures Shape(Put(levels, k, w, v), n)
  {
    var after := Put(levels, k, w, v);
    forall j | 0 <= j < |levels| ensures Sized(after, n, j) {
      assert Sized(levels, n, j);
      assert |after[j]| == |levels[j]|;
      assert Count(after, n, j) == Count(levels, n, j);
    }
  }

  /** `v` is `old` with bit `b` set to `value`. */
  ghost predicate WordChanged(old': nat, v: nat, b: nat, value: bool) {
    forall c | 0 <= c < 64 :: Bit(v, c) <==> if c == b then value else Bit(old', c)
  }

  lemma PutAgree(levels: seq<Words>, members: set<nat>, k: nat, i: nat, v: nat, l: nat, j: nat)
    requires k < |levels| && i < 64 * |levels[k]|
    requires l < |levels| && j < 64 * |levels[l]|
    requires AgreeExcept(levels, members, k, i)
    requires WordChanged(levels[k][i / 64], v, i % 64, Want(levels, members, k, i))
    requires !(l == k + 1 && j == i / 64)
    ensures Agree(Put(levels, k, i / 64, v), members, l, j)
  {
    var after := Put(levels, k, i / 64, v);
    if l == k {
      assert j / 64 == i / 64 && j % 64 == i % 64 ==> j == i;
      assert j != i ==> Agree(levels, members, k, j);
    } else {
      assert after[l] == levels[l];
      assert Agree(levels, members, l, j);
    }
  }

  /** After a word changes, only its own summary bit can be out of date, and only
      when the word turned from empty to non-empty or back. */
  lemma PutStep(levels: seq<Words>, members: set<nat>, k: nat, i: nat, v: nat)
    requires k < |levels| && i < 64 * |levels[k]|
    requires AgreeExcept(levels, members, k, i)
    requires WordChanged(levels[k][i / 64], v, i % 64, Want(levels, members, k, i))
    ensures AgreeExcept(Put(levels, k, i / 64, v), members, k + 1, i / 64)
    ensures k + 1 == |levels| ==> AllAgree(Put(levels, k, i / 64, v), members)
    ensures (v == 0) == (levels[k][i / 64] == 0) ==> AllAgree(Put(levels, k, i / 64, v), members)
  {
    var after := Put(levels, k, i / 64, v);
    forall l: nat, j: nat | l < |after| && j < 64 * |after[l]| && !(l == k + 1 && j == i / 64)
      ensures Agree(after, members, l, j)
    {
      PutAgree(levels, members, k, i, v, l, j);
    }
    if k + 1 < |levels| && i / 64 < 64 * |levels[k + 1]| && (v == 0) == (levels[k][i / 64] == 0) {
      assert Agree(levels, members, k + 1, i / 64);
      assert Agree(after, members, k + 1, i / 64);
    }
  }

  // ---------------------------------------------------------------------
  // The word above a slot at each level.

  function Ancestor(m: nat, k: nat): nat {
    if k == 0 then m else Ancestor(m, k - 1) / 64
  }

  lemma {:induction false} AncestorBit(levels: seq<Words>, n: nat, members: set<nat>, m: nat, k: nat)
    requires Represents(levels, n, members) && m in members && k < |levels|
    ensures Ancestor(m, k) < Count(levels, n, k) <= 64 * |levels[k]|
    ensures BitAt(levels[k], Ancestor(m, k))
  {
    assert Sized(levels, n, k);
    if k == 0 {
      assert Agree(levels, members, 0, m);
    } else {
      AncestorBit(levels, n, members, m, k - 1);
      var j := Ancestor(m, k - 1);
      if levels[k - 1][j / 64] == 0 { ZeroHasNoBit(j % 64); }
      assert Agree(levels, members, k, j / 64);
    }
  }

  // ---------------------------------------------------------------------
  // Searching inside one word.

  lemma NextBit(w: nat, off: nat)
    requires Fits(w, 64)
    ensures var masked := KeepFrom(w, off);
            && (masked == 0 ==> forall b: nat | off <= b :: !Bit(w, b))
            && (masked != 0 ==>
                  var z := TrailingZeros(masked);
                  off <= z < 64 && Bit(w, z) && forall b | off <= b < z :: !Bit(w, b))
  {
    var masked := KeepFrom(w, off);
    forall b: nat | off <= b ensures Bit(w, b) ==> masked != 0 && TrailingZeros(masked) <= b {
      KeepFromBits(w, off, b);
      if masked == 0 { ZeroHasNoBit(b); } else { TrailingZerosIsLowest(masked, b); }
    }
    if masked != 0 {
      var z := TrailingZeros(masked);
      TrailingZerosIsLowest(masked, z);
      KeepFromBits(w, off, z);
      FitsBound(w, 64, z);
    }
  }

  lemma PrevBit(w: nat, off: nat)
    ensures var masked := KeepBelow(w, off + 1);
            && (masked == 0 ==> forall b: nat | b <= off :: !Bit(w, b))
            && (masked != 0 ==>
                  var h := HighestBit(masked);
                  h <= off && Bit(w, h) && forall b | h < b <= off :: !Bit(w, b))
  {
    var masked := KeepBelow(w, off + 1);
    forall b: nat | b <= off ensures Bit(w, b) ==> masked != 0 && b <= HighestBit(masked) {
      KeepBelowBits(w, off + 1, b);
      if masked == 0 { ZeroHasNoBit(b); } else { HighestBitIsHighest(masked, b); }
    }
    if masked != 0 {
      var h := HighestBit(masked);
      HighestBitIsHighest(masked, h);
      KeepBelowBits(w, off + 1, h);
    }
  }

  lemma BitAtSplit(words: Words, w: nat, b: nat)
    requires w < |words| && b < 64
    ensures BitAt(words, w * 64 + b) == Bit(words[w], b)
  {
  }

  lemma NextInWord(words: Words, i: nat)
    requires i < 64 * |words| && Fits(words[i / 64], 64)
    ensures var masked := KeepFrom(words[i / 64], i % 64);
            && (masked == 0 ==> forall j | i <= j < (i / 64 + 1) * 64 :: !BitAt(words, j))
            && (masked != 0 ==>
                  var found := i / 64 * 64 + TrailingZeros(masked);
                  && i <= found < (i / 64 + 1) * 64 && BitAt(words, found)
                  && forall j | i <= j < found :: !BitAt(words, j))
  {
    hide KeepFrom, TrailingZeros, Bit, Fits, BitAt;
    var w := i / 64;
    NextBit(words[w], i % 64);
    forall j | i <= j < (w + 1) * 64 ensures BitAt(words, j) == Bit(words[w], j - w * 64) {
      BitAtSplit(words, w, j - w * 64);
    }
  }

  lemma PrevInWord(words: Words, i: nat)
    requires i < 64 * |words|
    ensures var masked := KeepBelow(words[i / 64], i % 64 + 1);
            && (masked == 0 ==> forall j | i / 64 * 64 <= j <= i :: !BitAt(words, j))
            && (masked != 0 ==>
                  var found := i / 64 * 64 + HighestBit(masked);
                  && i / 64 * 64 <= found <= i && BitAt(words, found)
                  && forall j | found < j <= i :: !BitAt(words, j))
  {
    hide KeepBelow, HighestBit, Bit, BitAt;
    var w := i / 64;
    PrevBit(words[w], i % 64);
    forall j | w * 64 <= j <= i ensures BitAt(words, j) == Bit(words[w], j - w * 64) {
      BitAtSplit(words, w, j - w * 64);
    }
  }

  // ---------------------------------------------------------------------
  // Climbing and descending. `idx` at level `k` stands for the slots below it.

  /** At level `k` the members from `from` on lie at `idx` or later, and nothing earlier does. */
  ghost predicate Ahead(members: set<nat>, from: nat, k: nat, idx: nat) {
    && (forall m | m in members && from <= m :: idx <= Ancestor(m, k))
    && (forall x: nat | idx <= Ancestor(x, k) :: from <= x)
  }

  /** At level `k` the members up to `from` lie at `idx` or earlier, and nothing later does. */
  ghost predicate Behind(members: set<nat>, from: nat, k: nat, idx: nat) {
    && (forall m | m in members && m <= from :: Ancestor(m, k) <= idx)
    && (forall x: nat | Ancestor(x, k) <= idx :: x <= from)
  }

  lemma ClimbNext(levels: seq<Words>, n: nat, members: set<nat>, from: nat, k: nat, idx: nat)
    requires Represents(levels, n, members) && k < |levels| && idx < 64 * |levels[k]|
    requires Ahead(members, from, k, idx)
    requires forall j | idx <= j < (idx / 64 + 1) * 64 :: !BitAt(levels[k], j)
    ensures Ahead(members, from, k + 1, idx / 64 + 1)
  {
    forall m | m in members && from <= m ensures idx / 64 + 1 <= Ancestor(m, k + 1) {
      AncestorBit(levels, n, members, m, k);
    }
    var up := k + 1;
    forall x: nat | idx / 64 + 1 <= Ancestor(x, up) ensures from <= x {
      assert idx <= Ancestor(x, k);
    }
  }

  lemma ClimbPrev(levels: seq<Words>, n: nat, members: set<nat>, from: nat, k: nat, idx: nat)
    requires Represents(levels, n, members) && k < |levels| && idx < 64 * |levels[k]|
    requires Behind(members, from, k, idx)
    requires forall j | idx / 64 * 64 <= j <= idx :: !BitAt(levels[k], j)
    ensures forall m | m in members && m <= from :: Ancestor(m, k + 1) < idx / 64
    ensures idx / 64 > 0 ==> Behind(members, from, k + 1, idx / 64 - 1)
  {
    forall m | m in members && m <= from ensures Ancestor(m, k + 1) < idx / 64 {
      AncestorBit(levels, n, members, m, k);
    }
    var up := k + 1;
    forall x: nat | Ancestor(x, up) <= idx / 64 - 1 ensures x <= from {
      assert Ancestor(x, k) <= idx;
    }
  }

  /** A found bit that is the nearest one keeps the bracket tight. */
  lemma TightenNext(levels: seq<Words>, n: nat, members: set<nat>, from: nat, k: nat, idx: nat, found: nat)
    requires Represents(levels, n, members) && k < |levels| && idx <= found < 64 * |levels[k]|
    requires Ahead(members, from, k, idx)
    requires forall j | idx <= j < found :: !BitAt(levels[k], j)
    ensures Ahead(members, from, k, found)
  {
    forall m | m in members && from <= m ensures found <= Ancestor(m, k) {
      AncestorBit(levels, n, members, m, k);
    }
  }

  lemma TightenPrev(levels: seq<Words>, n: nat, members: set<nat>, from: nat, k: nat, idx: nat, found: nat)
    requires Represents(levels, n, members) && k < |levels| && found <= idx < 64 * |levels[k]|
    requires Behind(members, from, k, idx)
    requires forall j | found < j <= idx :: !BitAt(levels[k], j)
    ensures Behind(members, from, k, found)
  {
    forall m | m in members && m <= from ensures Ancestor(m, k) <= found {
      AncestorBit(levels, n, members, m, k);
    }
  }

  /** Below a set summary bit the child word is non-empty and its lowest bit is next. */
  lemma DescendNext(levels: seq<Words>, n: nat, members: set<nat>, from: nat, k: nat, pos: nat)
    requires Represents(levels, n, members) && 0 < k < |levels| && pos < 64 * |levels[k]|
    requires Ahead(members, from, k, pos) && BitAt(levels[k], pos)
    ensures pos < |levels[k - 1]| && levels[k - 1][pos] != 0
    ensures var p := pos * 64 + TrailingZeros(levels[k - 1][pos]);
            p < 64 * |levels[k - 1]| && BitAt(levels[k - 1], p) && Ahead(members, from, k - 1, p)
  {
    assert Agree(levels, members, k, pos);
    assert Sized(levels, n, k - 1);
    var w, down := levels[k - 1][pos], k - 1;
    TrailingZerosIsLowest(w, 0);
    FitsBound(w, 64, TrailingZeros(w));
    var p := pos * 64 + TrailingZeros(w);
    BitAtSplit(levels[down], pos, TrailingZeros(w));
    hide Represents, TrailingZeros, Bit, Fits;
    forall m | m in members && from <= m ensures p <= Ancestor(m, down) {
      AncestorBit(levels, n, members, m, down);
      TrailingZerosIsLowest(w, Ancestor(m, down) % 64);
    }
    forall x: nat | p <= Ancestor(x, down) ensures from <= x {
      assert pos <= Ancestor(x, k);
    }
  }

  lemma DescendPrev(levels: seq<Words>, n: nat, members: set<nat>, from: nat, k: nat, pos: nat)
    requires Represents(levels, n, members) && 0 < k < |levels| && pos < 64 * |levels[k]|
    requires Behind(members, from, k, pos) && BitAt(levels[k], pos)
    ensures pos < |levels[k - 1]| && levels[k - 1][pos] != 0
    ensures var p := pos * 64 + HighestBit(levels[k - 1][pos]);
            p < 64 * |levels[k - 1]| && BitAt(levels[k - 1], p) && Behind(members, from, k - 1, p)
  {
    assert Agree(levels, members, k, pos);
    assert Sized(levels, n, k - 1);
    var w, down := levels[k - 1][pos], k - 1;
    HighestBitIsHighest(w, 0);
    FitsBound(w, 64, HighestBit(w));
    var p := pos * 64 + HighestBit(w);
    BitAtSplit(levels[down], pos, HighestBit(w));
    hide Represents, HighestBit, Bit, Fits;
    forall m | m in members && m <= from ensures Ancestor(m, down) <= p {
      AncestorBit(levels, n, members, m, down);
      HighestBitIsHighest(w, Ancestor(m, down) % 64);
    }
    forall x: nat | Ancestor(x, down) <= p ensures x <= from {
      assert Ancestor(x, k) <= pos;
    }
  }

  // ---------------------------------------------------------------------

  class Occupancy {
    var levels: seq<Words>
    var n: nat
    ghost var members: set<nat>

    ghost predicate Valid()
      reads this
    {
      Represents(levels, n, members)
    }

    constructor (n: nat)
      ensures Valid() && this.n == n && members == {}
    {
      this.n := n;
      members := {};
      levels := [];
      new;
      var count := n;
      var more := true;
      while more
        invariant count == Count(levels, n, |levels|)
        invariant !more ==> |levels| >= 1 && |levels[|levels| - 1]| == 1
        invariant forall k {:trigger Sized(levels, n, k)} | 0 <= k < |levels| :: Sized(levels, n, k)
        invariant forall k, w | 0 <= k < |levels| && 0 <= w < |levels[k]| :: levels[k][w] == 0
        invariant this.n == n && members == {}
        decreases more, count
      {
        var words := WordsFor(count);
        var row: Words := seq(words, _ => 0);
        ghost var before := levels;
        levels := levels + [row];
        EmptyRow(before, n, row);
        if words == 1 { more := false; }
        count := words;
      }
      EmptyAgrees(levels, n);
    }

    /** Mark slot `i` occupied; climbs only while a word turns from empty. */
    method Set(i: nat)
      requires Valid() && i < n
      modifies this
      ensures Valid() && n == old(n)
      ensures members == old(members) + {i}
    {
      hide Represents, AllAgree, AgreeExcept, Bit, SetBit, Fits;
      var idx: nat, k: nat := i, 0;
      MemberChange(levels, n, members, members + {i}, i);
      members := members + {i};
      var climbing := true;
      while climbing && k < |levels|
        invariant k <= |levels| && n == old(n) && members == old(members) + {i}
        invariant Pending(levels, n, members)
        invariant climbing ==> AgreeExcept(levels, members, k, idx)
        invariant climbing && k < |levels| ==> idx < 64 * |levels[k]| && Want(levels, members, k, idx)
        invariant !climbing || k == |levels| ==> Represents(levels, n, members)
      {
        var word, bit := idx / 64, idx % 64;
        var prev := levels[k][word];
        ghost var before := levels;
        levels := Put(levels, k, word, SetBit(prev, bit));
        SetStep(before, n, members, k, idx);
        if prev != 0 { climbing := false; }
        idx := word;
        k := k + 1;
      }
    }

    /** Mark slot `i` empty; climbs only while a word turns empty. */
    method Clear(i: nat)
      requires Valid() && i < n
      modifies this
      ensures Valid() && n == old(n)
      ensures members == old(members) - {i}
    {
      hide Represents, AllAgree, AgreeExcept, Bit, ClearBit, Fits;
      var idx: nat, k: nat := i, 0;
      MemberChange(levels, n, members, members - {i}, i);
      members := members - {i};
      var climbing := true;
      while climbing && k < |levels|
        invariant k <= |levels| && n == old(n) && members == old(members) - {i}
        invariant Pending(levels, n, members)
        invariant climbing ==> AgreeExcept(levels, members, k, idx)
        invariant climbing && k < |levels| ==> idx < 64 * |levels[k]| && !Want(levels, members, k, idx)
        invariant !climbing || k == |levels| ==> Represents(levels, n, members)
      {
        var word, bit := idx / 64, idx % 64;
        ghost var before := levels;
        levels := Put(levels, k, word, ClearBit(levels[k][word], bit));
        ClearStep(before, n, members, k, idx);
        if levels[k][word] != 0 { climbing := false; }
        idx := word;
        k := k + 1;
      }
    }

    /** The lowest occupied slot at or above `from`. */
    method FindNext(from: nat) returns (r: Option<nat>)
      requires Valid()
      ensures r.None? ==> forall m | m in members :: m < from
      ensures r.Some? ==> r.value in members && from <= r.value
                          && forall m | m in members && from <= m :: r.value <= m
    {
      hide Represents, Ahead, KeepFrom, TrailingZeros, BitAt, Fits;
      MembersBelow(levels, n, members);
      if from >= n { return None; }
      FromZero(levels, n, members, from);
      var depth, k: nat, idx: nat := |levels|, 0, from;
      var found: nat;
      while true
        invariant k < depth && Ahead(members, from, k, idx)
        decreases depth - k
      {
        var word := idx / 64;
        if word >= |levels[k]| {
          PastEnd(levels, n, members, from, k, idx);
          return None;
        }
        var masked := KeepFrom(levels[k][word], idx % 64);
        AllFit(levels, n, members, k, word);
        NextInWord(levels[k], idx);
        if masked != 0 {
          found := word * 64 + TrailingZeros(masked);
          TightenNext(levels, n, members, from, k, idx, found);
          break;
        }
        ClimbNext(levels, n, members, from, k, idx);
        k := k + 1;
        if k >= depth {
          PastTop(levels, n, members, from, idx / 64 + 1);
          return None;
        }
        idx := word + 1;
      }
      var pos: nat := found;
      while k > 0
        invariant k < depth && pos < 64 * |levels[k]|
        invariant Ahead(members, from, k, pos) && BitAt(levels[k], pos)
      {
        DescendNext(levels, n, members, from, k, pos);
        k := k - 1;
        pos := pos * 64 + TrailingZeros(levels[k][pos]);
      }
      AtSlots(levels, n, members, pos);
      AheadAtSlots(members, from, pos);
      return Some(pos);
    }

    /** The highest occupied slot at or below `from`. */
    method FindPrev(from: nat) returns (r: Option<nat>)
      requires Valid()
      ensures r.None? ==> forall m | m in members :: from < m
      ensures r.Some? ==> r.value in members && r.value <= from
                          && forall m | m in members && m <= from :: m <= r.value
    {
      hide Represents, Behind, KeepBelow, HighestBit, BitAt, Fits;
      MembersBelow(levels, n, members);
      if n == 0 { return None; }
      var start := if from < n - 1 then from else n - 1;
      FromZeroDown(levels, n, members, start);
      var depth, k: nat, idx: nat := |levels|, 0, start;
      var found: nat;
      while true
        invariant k < depth && idx < 64 * |levels[k]| && Behind(members, start, k, idx)
        decreases depth - k
      {
        var word := idx / 64;
        var masked := KeepBelow(levels[k][word], idx % 64 + 1);
        PrevInWord(levels[k], idx);
        if masked != 0 {
          found := word * 64 + HighestBit(masked);
          TightenPrev(levels, n, members, start, k, idx, found);
          break;
        }
        ClimbPrev(levels, n, members, start, k, idx);
        if word == 0 { return None; }
        TopHasOneWord(levels, n, members, k);
        k := k + 1;
        if k >= depth { return None; }
        idx := word - 1;
      }
      var pos: nat := found;
      while k > 0
        invariant k < depth && pos < 64 * |levels[k]|
        invariant Behind(members, start, k, pos) && BitAt(levels[k], pos)
      {
        DescendPrev(levels, n, members, start, k, pos);
        k := k - 1;
        pos := pos * 64 + HighestBit(levels[k][pos]);
      }
      AtSlots(levels, n, members, pos);
      BehindAtSlots(members, start, pos);
      return Some(pos);
    }

    /** The lowest occupied slot in `[lo, hi)`. */
    method FindFirstIn(lo: nat, hi: nat) returns (r: Option<nat>)
      requires Valid()
      ensures r.None? ==> forall m | m in members :: !(lo <= m < hi)
      ensures r.Some? ==> r.value in members && lo <= r.value < hi
                          && forall m | m in members && lo <= m :: r.value <= m
    {
      if lo >= hi { return None; }
      r := FindNext(lo);
      if r.Some? && r.value >= hi { r := None; }
    }

    /** The highest occupied slot in `[lo, hi)`. */
    method FindLastIn(lo: nat, hi: nat) returns (r: Option<nat>)
      requires Valid()
      ensures r.None? ==> forall m | m in members :: !(lo <= m < hi)
      ensures r.Some? ==> r.value in members && lo <= r.value < hi
                          && forall m | m in members && m < hi :: m <= r.value
    {
      if lo >= hi { return None; }
      r := FindPrev(hi - 1);
      if r.Some? && r.value < lo { r := None; }
    }
  }

  lemma MembersBelow(levels: seq<Words>, n: nat, members: set<nat>)
    requires Represents(levels, n, members)
    ensures |levels| >= 1 && forall m | m in members :: m < n
  {
  }

  lemma FromZero(levels: seq<Words>, n: nat, members: set<nat>, from: nat)
    requires Represents(levels, n, members)
    ensures |levels| >= 1 && Ahead(members, from, 0, from)
  {
  }

  lemma FromZeroDown(levels: seq<Words>, n: nat, members: set<nat>, from: nat)
    requires Represents(levels, n, members) && from < n
    ensures |levels| >= 1 && from < 64 * |levels[0]| && Behind(members, from, 0, from)
    ensures forall m | m in members :: m < n
  {
    assert Sized(levels, n, 0);
  }

  lemma AllFit(levels: seq<Words>, n: nat, members: set<nat>, k: nat, w: nat)
    requires Represents(levels, n, members) && k < |levels| && w < |levels[k]|
    ensures Fits(levels[k][w], 64)
  {
    assert Sized(levels, n, k);
  }

  lemma PastEnd(levels: seq<Words>, n: nat, members: set<nat>, from: nat, k: nat, idx: nat)
    requires Represents(levels, n, members) && k < |levels| && idx / 64 >= |levels[k]|
    requires Ahead(members, from, k, idx)
    ensures forall m | m in members :: m < from
  {
    forall m | m in members ensures m < from {
      AncestorBit(levels, n, members, m, k);
    }
  }

  lemma PastTop(levels: seq<Words>, n: nat, members: set<nat>, from: nat, idx: nat)
    requires Represents(levels, n, members) && idx >= 1
    requires Ahead(members, from, |levels|, idx)
    ensures forall m | m in members :: m < from
  {
    forall m | m in members ensures m < from {
      AncestorBit(levels, n, members, m, |levels| - 1);
    }
  }

  lemma TopHasOneWord(levels: seq<Words>, n: nat, members: set<nat>, k: nat)
    requires Represents(levels, n, members) && k < |levels|
    ensures k + 1 == |levels| ==> |levels[k]| == 1
    ensures k + 1 < |levels| ==> |levels[k]| <= 64 * |levels[k + 1]|
  {
    if k + 1 < |levels| { assert Sized(levels, n, k + 1); }
  }

  lemma AtSlots(levels: seq<Words>, n: nat, members: set<nat>, pos: nat)
    requires Represents(levels, n, members) && pos < 64 * |levels[0]| && BitAt(levels[0], pos)
    ensures pos in members
  {
    assert Agree(levels, members, 0, pos);
  }

  lemma AheadAtSlots(members: set<nat>, from: nat, pos: nat)
    requires Ahead(members, from, 0, pos)
    ensures from <= pos && forall m | m in members && from <= m :: pos <= m
  {
    assert Ancestor(pos, 0) == pos;
    forall m | m in members && from <= m ensures pos <= m { assert Ancestor(m, 0) == m; }
  }

  lemma BehindAtSlots(members: set<nat>, from: nat, pos: nat)
    requires Behind(members, from, 0, pos)
    ensures pos <= from && forall m | m in members && m <= from :: m <= pos
  {
    assert Ancestor(pos, 0) == pos;
    forall m | m in members && m <= from ensures m <= pos { assert Ancestor(m, 0) == m; }
  }

  /** The shape alone, between the steps of a climb. */
  ghost predicate Pending(levels: seq<Words>, n: nat, members: set<nat>) {
    Shape(levels, n) && forall m | m in members :: m < n
  }

  lemma MemberChange(levels: seq<Words>, n: nat, before: set<nat>, after: set<nat>, i: nat)
    requires Represents(levels, n, before) && i < n
    requires after == before + {i} || after == before - {i}
    ensures Pending(levels, n, after) && AgreeExcept(levels, after, 0, i)
    ensures i < 64 * |levels[0]|
  {
    assert Sized(levels, n, 0);
    forall k: nat, j: nat | k < |levels| && j < 64 * |levels[k]| && !(k == 0 && j == i)
      ensures Agree(levels, after, k, j)
    {
      assert Agree(levels, before, k, j);
    }
  }

  lemma ParentFits(levels: seq<Words>, n: nat, k: nat, i: nat)
    requires Shape(levels, n) && k + 1 < |levels| && i < 64 * |levels[k]|
    ensures i / 64 < |levels[k]| <= 64 * |levels[k + 1]|
  {
    assert Sized(levels, n, k + 1);
  }

  lemma SetStep(levels: seq<Words>, n: nat, members: set<nat>, k: nat, i: nat)
    requires Pending(levels, n, members) && k < |levels| && i < 64 * |levels[k]|
    requires AgreeExcept(levels, members, k, i) && Want(levels, members, k, i)
    ensures var prev := levels[k][i / 64];
            var after := Put(levels, k, i / 64, SetBit(prev, i % 64));
            && Pending(after, n, members)
            && AgreeExcept(after, members, k + 1, i / 64)
            && Want(after, members, k + 1, i / 64)
            && (k + 1 < |levels| ==> i / 64 < 64 * |after[k + 1]|)
            && (k + 1 == |levels| || prev != 0 ==> Represents(after, n, members))
  {
    var prev := levels[k][i / 64];
    var v := SetBit(prev, i % 64);
    assert Sized(levels, n, k);
    SetBitFits(prev, 64, i % 64);
    SetBitBits(prev, i % 64, 0);
    forall c | 0 <= c < 64 ensures Bit(v, c) <==> Bit(prev, c) || c == i % 64 {
      SetBitBits(prev, i % 64, c);
    }
    PutShape(levels, n, k, i / 64, v);
    PutStep(levels, members, k, i, v);
    if k + 1 < |levels| { ParentFits(levels, n, k, i); }
    hide AgreeExcept, AllAgree, SetBit, Shape;
  }

  lemma ClearStep(levels: seq<Words>, n: nat, members: set<nat>, k: nat, i: nat)
    requires Pending(levels, n, members) && k < |levels| && i < 64 * |levels[k]|
    requires AgreeExcept(levels, members, k, i) && !Want(levels, members, k, i)
    ensures var v := ClearBit(levels[k][i / 64], i % 64);
            var after := Put(levels, k, i / 64, v);
            && Pending(after, n, members)
            && AgreeExcept(after, members, k + 1, i / 64)
            && (v == 0 ==> !Want(after, members, k + 1, i / 64))
            && (k + 1 < |levels| ==> i / 64 < 64 * |after[k + 1]|)
            && (k + 1 == |levels| || v != 0 ==> Represents(after, n, members))
  {
    var prev := levels[k][i / 64];
    var v := ClearBit(prev, i % 64);
    assert Sized(levels, n, k);
    ClearBitFits(prev, 64, i % 64);
    forall c | 0 <= c < 64 ensures Bit(v, c) <==> Bit(prev, c) && c != i % 64 {
      ClearBitBits(prev, i % 64, c);
    }
    if prev == 0 { ClearZero(i % 64); }
    PutShape(levels, n, k, i / 64, v);
    PutStep(levels, members, k, i, v);
    if k + 1 < |levels| { ParentFits(levels, n, k, i); }
    hide AgreeExcept, AllAgree, ClearBit, Shape;
  }

  lemma ZeroFits(width: nat)
    ensures Fits(0, width)
  {
  }

  lemma EmptyRow(levels: seq<Words>, n: nat, row: Words)
    requires forall k {:trigger Sized(levels, n, k)} | 0 <= k < |levels| :: Sized(levels, n, k)
    requires |row| == WordsFor(Count(levels, n, |levels|))
    requires forall w | 0 <= w < |row| :: row[w] == 0
    ensures var after := levels + [row];
            forall k {:trigger Sized(after, n, k)} | 0 <= k < |after| :: Sized(after, n, k)
  {
    var after := levels + [row];
    ZeroFits(64);
    forall k | 0 <= k < |after| ensures Sized(after, n, k) {
      if k < |levels| { assert Sized(levels, n, k); }
    }
  }

  lemma EmptyAgrees(levels: seq<Words>, n: nat)
    requires forall k, w | 0 <= k < |levels| && 0 <= w < |levels[k]| :: levels[k][w] == 0
    ensures AllAgree(levels, {})
  {
    forall k: nat, j: nat | k < |levels| && j < 64 * |levels[k]| ensures Agree(levels, {}, k, j) {
      ZeroHasNoBit(j % 64);
    }
  }
}
