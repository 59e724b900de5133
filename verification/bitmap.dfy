/** One bit of the reception bitmap, as the server's shift-and-mask code sees it. */
module Bitmap {
  function Mask(k: nat): bv8
    requires k < 8
  {
    1 << k
  }

  predicate BitSet(b: bv8, k: nat)
    requires k < 8
  {
    b & Mask(k) != 0
  }

  lemma {:induction false} MaskBits(k: nat)
    requires k < 8
    ensures Mask(k) == [1, 2, 4, 8, 16, 32, 64, 128][k] as bv8
  {
  }

  lemma {:induction false} OrSetsOneBit(b: bv8, j: nat, k: nat)
    requires j < 8 && k < 8
    ensures BitSet(b | Mask(j), k) == (BitSet(b, k) || k == j)
  {
    MaskBits(j);
    MaskBits(k);
  }

  lemma {:induction false} ZeroHasNoBits(k: nat)
    requires k < 8
    ensures !BitSet(0, k)
  {
  }
}
