/** Bits of machine words, as the scan of a dirty log sees them. */
module Bits {
  const WORD := 64

  function Pow2(n: nat): nat {
    if n == 0 then 1 else 2 * Pow2(n - 1)
  }

  predicate Bit(w: nat, b: nat) {
    if b == 0 then w % 2 == 1 else Bit(w / 2, b - 1)
  }

  function And(v: nat, w: nat): nat {
    if v == 0 || w == 0 then 0 else v % 2 * (w % 2) + 2 * And(v / 2, w / 2)
  }

  function TrailingZeros(w: nat): nat
    requires w > 0
  {
    if w % 2 == 1 then 0 else 1 + TrailingZeros(w / 2)
  }

  lemma {:induction false} AndSelf(w: nat)
    ensures And(w, w) == w
  {
    if w > 0 {
      AndSelf(w / 2);
    }
  }

  /** `w & (w - 1)` clears the lowest bit set and no other. */
  lemma {:induction false} AndPredecessor(w: nat, b: nat)
    requires w > 0
    ensures Bit(And(w, w - 1), b) <==> Bit(w, b) && b != TrailingZeros(w)
    decreases b
  {
    var rest := And(w, w - 1);
    if w % 2 == 1 {
      if w > 1 {
        AndSelf(w / 2);
        assert (w - 1) / 2 == w / 2;
        assert rest == 2 * (w / 2);
      }
      if b == 0 {
      } else {
        assert rest / 2 == w / 2;
      }
    } else {
      assert (w - 1) / 2 == w / 2 - 1;
      assert rest == 2 * And(w / 2, w / 2 - 1);
      if b > 0 {
        AndPredecessor(w / 2, b - 1);
      }
    }
  }

  lemma {:induction false} AndShrinks(w: nat)
    requires w > 0
    ensures And(w, w - 1) < w
  {
    if w % 2 == 1 {
      AndSelf(w / 2);
      assert (w - 1) / 2 == w / 2;
    } else {
      AndShrinks(w / 2);
      assert (w - 1) / 2 == w / 2 - 1;
    }
  }

  lemma {:induction false} LowestIsSet(w: nat)
    requires w > 0
    ensures Bit(w, TrailingZeros(w))
  {
    if w % 2 == 0 {
      LowestIsSet(w / 2);
    }
  }

  lemma {:induction false} BitBelow(w: nat, b: nat, n: nat)
    requires w < Pow2(n) && Bit(w, b)
    ensures b < n
    decreases b
  {
    NoBits(b);
    if b > 0 && n > 0 {
      BitBelow(w / 2, b - 1, n - 1);
    }
  }

  lemma {:induction false} NoBits(b: nat)
    ensures !Bit(0, b)
  {
    if b > 0 {
      NoBits(b - 1);
    }
  }
}
