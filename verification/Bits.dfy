/** Machine words as numbers: single-bit reads and updates, and the lowest set bit. */
module Bits {

  function Pow2(n: nat): (p: nat)
    ensures p > 0
  {
    if n == 0 then 1 else 2 * Pow2(n - 1)
  }

  // Bit `i` of `w`: (w >> i) & 1 != 0.
  predicate Bit(w: nat, i: nat) {
    if i == 0 then w % 2 == 1 else Bit(w / 2, i - 1)
  }

  // w | (1 << i)
  function SetBit(w: nat, i: nat): nat {
    if Bit(w, i) then w else w + Pow2(i)
  }

  lemma {:induction false} BitFits(w: nat, i: nat)
    requires Bit(w, i)
    ensures Pow2(i) <= w
  {
    if i > 0 { BitFits(w / 2, i - 1); }
  }

  // w & !(1 << i)
  function ClearBit(w: nat, i: nat): nat {
    if Bit(w, i) then BitFits(w, i); w - Pow2(i) else w
  }

  lemma {:induction false} SetBitReads(w: nat, i: nat, j: nat)
    ensures Bit(SetBit(w, i), j) <==> i == j || Bit(w, j)
  {
    if i > 0 {
      assert SetBit(w, i) / 2 == SetBit(w / 2, i - 1);
      if j > 0 { SetBitReads(w / 2, i - 1, j - 1); }
    }
  }

  lemma {:induction false} ClearBitReads(w: nat, i: nat, j: nat)
    ensures Bit(ClearBit(w, i), j) <==> i != j && Bit(w, j)
  {
    if i > 0 {
      assert ClearBit(w, i) / 2 == ClearBit(w / 2, i - 1);
      if j > 0 { ClearBitReads(w / 2, i - 1, j - 1); }
    }
  }

  // Setting a bit below the word size keeps the value inside the word.
  lemma {:induction false} SetBitInWord(w: nat, i: nat, n: nat)
    requires w < Pow2(n) && i < n
    ensures SetBit(w, i) < Pow2(n)
  {
    if i > 0 {
      SetBitInWord(w / 2, i - 1, n - 1);
      assert SetBit(w, i) / 2 == SetBit(w / 2, i - 1);
    }
  }

  lemma {:induction false} ZeroReads(i: nat)
    ensures !Bit(0, i)
  {
    if i > 0 { ZeroReads(i - 1); }
  }

  /** `trailing_zeros` of a non-zero n-bit word: the lowest set bit. */
  function TrailingZeros(w: nat, n: nat): (r: nat)
    requires 0 < w < Pow2(n)
    ensures r < n && Bit(w, r)
    ensures forall j :: 0 <= j < r ==> !Bit(w, j)
  {
    if w % 2 == 1 then 0 else TrailingZeros(w / 2, n - 1) + 1
  }
}
