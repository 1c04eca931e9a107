/** Machine words as numbers: each bitwise operation by its effect on the binary digits. */
module Word {

  predicate Bit(w: nat, i: nat) {
    if i == 0 then w % 2 == 1 else Bit(w / 2, i - 1)
  }

  /** The word has no digit at or above position `width`. */
  predicate Fits(w: nat, width: nat) {
    if width == 0 then w == 0 else Fits(w / 2, width - 1)
  }

  /** `w | (1 << i)` */
  function SetBit(w: nat, i: nat): nat {
    if i == 0 then w - w % 2 + 1 else 2 * SetBit(w / 2, i - 1) + w % 2
  }

  /** `w & !(1 << i)` */
  function ClearBit(w: nat, i: nat): nat {
    if i == 0 then w - w % 2 else 2 * ClearBit(w / 2, i - 1) + w % 2
  }

  /** `w & (u64::MAX << i)` */
  function KeepFrom(w: nat, i: nat): nat {
    if i == 0 then w else 2 * KeepFrom(w / 2, i - 1)
  }

  /** `w & ((1 << n) - 1)` */
  function KeepBelow(w: nat, n: nat): nat {
    if n == 0 then 0 else 2 * KeepBelow(w / 2, n - 1) + w % 2
  }

  /** Position of the lowest set bit. */
  function TrailingZeros(w: nat): nat
    requires w != 0
  {
    if w % 2 == 1 then 0 else 1 + TrailingZeros(w / 2)
  }

  /** Position of the highest set bit, `63 - w.leading_zeros()`. */
  function HighestBit(w: nat): nat
    requires w != 0
  {
    if w == 1 then 0 else 1 + HighestBit(w / 2)
  }

  lemma {:induction false} SetBitBits(w: nat, i: nat, k: nat)
    ensures Bit(SetBit(w, i), k) <==> Bit(w, k) || k == i
    ensures SetBit(w, i) != 0
  {
    if i > 0 {
      SetBitBits(w / 2, i - 1, if k > 0 then k - 1 else 0);
      assert SetBit(w, i) / 2 == SetBit(w / 2, i - 1);
    } else {
      assert SetBit(w, 0) / 2 == w / 2;
    }
  }

  lemma {:induction false} ClearBitBits(w: nat, i: nat, k: nat)
    ensures Bit(ClearBit(w, i), k) <==> Bit(w, k) && k != i
  {
    if i > 0 {
      ClearBitBits(w / 2, i - 1, if k > 0 then k - 1 else 0);
      assert ClearBit(w, i) / 2 == ClearBit(w / 2, i - 1);
    } else {
      assert ClearBit(w, 0) / 2 == w / 2;
    }
  }

  lemma {:induction false} KeepFromBits(w: nat, i: nat, k: nat)
    ensures Bit(KeepFrom(w, i), k) <==> Bit(w, k) && i <= k
  {
    if i > 0 && k > 0 {
      KeepFromBits(w / 2, i - 1, k - 1);
    }
  }

  lemma {:induction false} KeepBelowBits(w: nat, n: nat, k: nat)
    ensures Bit(KeepBelow(w, n), k) <==> Bit(w, k) && k < n
  {
    if n > 0 && k > 0 {
      KeepBelowBits(w / 2, n - 1, k - 1);
      assert KeepBelow(w, n) / 2 == KeepBelow(w / 2, n - 1);
    } else if n == 0 {
      ZeroHasNoBit(k);
    }
  }

  lemma {:induction false} ZeroHasNoBit(k: nat)
    ensures !Bit(0, k)
  {
    if k > 0 { ZeroHasNoBit(k - 1); }
  }

  lemma {:induction false} TrailingZerosIsLowest(w: nat, k: nat)
    requires w != 0
    ensures Bit(w, TrailingZeros(w))
    ensures Bit(w, k) ==> TrailingZeros(w) <= k
  {
    if w % 2 == 0 { TrailingZerosIsLowest(w / 2, if k > 0 then k - 1 else 0); }
  }

  lemma {:induction false} HighestBitIsHighest(w: nat, k: nat)
    requires w != 0
    ensures Bit(w, HighestBit(w))
    ensures Bit(w, k) ==> k <= HighestBit(w)
  {
    if w == 1 {
      if k > 0 { ZeroHasNoBit(k - 1); }
    } else if k > 0 {
      HighestBitIsHighest(w / 2, k - 1);
    } else {
      HighestBitIsHighest(w / 2, 0);
    }
  }

  lemma {:induction false} FitsBound(w: nat, width: nat, k: nat)
    requires Fits(w, width) && Bit(w, k)
    ensures k < width
  {
    if width == 0 {
      ZeroHasNoBit(k);
    } else if k > 0 {
      FitsBound(w / 2, width - 1, k - 1);
    }
  }

  lemma {:induction false} SetBitFits(w: nat, width: nat, i: nat)
    requires Fits(w, width) && i < width
    ensures Fits(SetBit(w, i), width)
  {
    if i > 0 {
      SetBitFits(w / 2, width - 1, i - 1);
      assert SetBit(w, i) / 2 == SetBit(w / 2, i - 1);
    } else {
      assert SetBit(w, 0) / 2 == w / 2;
    }
  }

  lemma {:induction false} ClearBitFits(w: nat, width: nat, i: nat)
    requires Fits(w, width)
    ensures Fits(ClearBit(w, i), width)
  {
    if width == 0 {
      assert ClearBit(0, i) == 0 by { ClearZero(i); }
    } else if i > 0 {
      ClearBitFits(w / 2, width - 1, i - 1);
      assert ClearBit(w, i) / 2 == ClearBit(w / 2, i - 1);
    } else {
      assert ClearBit(w, 0) / 2 == w / 2;
    }
  }

  lemma {:induction false} ClearZero(i: nat)
    ensures ClearBit(0, i) == 0
  {
    if i > 0 { ClearZero(i - 1); }
  }
}
