/** Single bits of a machine word, as the swap bitmap and the block bitmap use them:
    bit i of w, and w with bit i set or cleared. */
module Bits {

  /** w & (1 << i) is not zero. */
  predicate TestBit(w: nat, i: nat) {
    if i == 0 then w % 2 == 1 else TestBit(w / 2, i - 1)
  }

  /** w | (1 << i). */
  function SetBit(w: nat, i: nat): nat {
    if i == 0 then w - w % 2 + 1 else 2 * SetBit(w / 2, i - 1) + w % 2
  }

  /** w & ~(1 << i). */
  function ClearBit(w: nat, i: nat): nat {
    if i == 0 then w - w % 2 else 2 * ClearBit(w / 2, i - 1) + w % 2
  }

  lemma {:induction false} SetBitIs(w: nat, i: nat, j: nat)
    ensures TestBit(SetBit(w, i), j) == (i == j || TestBit(w, j))
  {
    if i > 0 && j > 0 {
      assert SetBit(w, i) / 2 == SetBit(w / 2, i - 1);
      SetBitIs(w / 2, i - 1, j - 1);
    } else if i == 0 && j > 0 {
      assert SetBit(w, 0) / 2 == w / 2;
    }
  }

  lemma {:induction false} ClearBitIs(w: nat, i: nat, j: nat)
    ensures TestBit(ClearBit(w, i), j) == (i != j && TestBit(w, j))
  {
    if i > 0 && j > 0 {
      assert ClearBit(w, i) / 2 == ClearBit(w / 2, i - 1);
      ClearBitIs(w / 2, i - 1, j - 1);
    } else if i == 0 && j > 0 {
      assert ClearBit(w, 0) / 2 == w / 2;
    }
  }

  lemma {:induction false} ZeroBits(j: nat)
    ensures !TestBit(0, j)
  {
    if j > 0 { ZeroBits(j - 1); }
  }
}
