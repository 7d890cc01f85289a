/** The bits of a byte. */
module Bits {

  predicate Bit(b: bv8, j: nat)
    requires j < 8
  {
    (b >> j) & 1 == 1
  }

  function WithBit(b: bv8, j: nat): bv8
    requires j < 8
  {
    b | ((1 as bv8) << j)
  }

  function WithoutBit(b: bv8, j: nat): bv8
    requires j < 8
  {
    b & !((1 as bv8) << j)
  }

  lemma SetBit(b: bv8, j: nat, k: nat)
    requires j < 8 && k < 8
    ensures Bit(WithBit(b, j), k) <==> (Bit(b, k) || j == k)
  {
    match j { case 0 => case 1 => case 2 => case 3 => case 4 => case 5 => case 6 => case _ => }
    match k { case 0 => case 1 => case 2 => case 3 => case 4 => case 5 => case 6 => case _ => }
  }

  lemma ClearBit(b: bv8, j: nat, k: nat)
    requires j < 8 && k < 8
    ensures Bit(WithoutBit(b, j), k) <==> (Bit(b, k) && j != k)
  {
    match j { case 0 => case 1 => case 2 => case 3 => case 4 => case 5 => case 6 => case _ => }
    match k { case 0 => case 1 => case 2 => case 3 => case 4 => case 5 => case 6 => case _ => }
  }

  lemma FullByte(k: nat)
    requires k < 8
    ensures Bit(0xFF, k)
  {
    match k { case 0 => case 1 => case 2 => case 3 => case 4 => case 5 => case 6 => case _ => }
  }

  lemma EmptyByte(k: nat)
    requires k < 8
    ensures !Bit(0, k)
  {
    match k { case 0 => case 1 => case 2 => case 3 => case 4 => case 5 => case 6 => case _ => }
  }

  /** Masking with a single bit tests it. */
  lemma TestBit(b: bv8, j: nat)
    requires j < 8
    ensures b & ((1 as bv8) << j) != 0 <==> Bit(b, j)
  {
    match j { case 0 => case 1 => case 2 => case 3 => case 4 => case 5 => case 6 => case _ => }
  }

  lemma ShiftedDown(k: nat)
    requires k < 8
    ensures (0x80 as bv8) >> k == (1 as bv8) << (7 - k)
  {
    match k { case 0 => case 1 => case 2 => case 3 => case 4 => case 5 => case 6 => case _ => }
  }

  /** A byte is its bits. */
  lemma SameBits(a: bv8, b: bv8)
    requires forall k: nat {:trigger Bit(a, k)} :: k < 8 ==> (Bit(a, k) <==> Bit(b, k))
    ensures a == b
  {
    assert Bit(a, 0) <==> Bit(b, 0);
    assert Bit(a, 1) <==> Bit(b, 1);
    assert Bit(a, 2) <==> Bit(b, 2);
    assert Bit(a, 3) <==> Bit(b, 3);
    assert Bit(a, 4) <==> Bit(b, 4);
    assert Bit(a, 5) <==> Bit(b, 5);
    assert Bit(a, 6) <==> Bit(b, 6);
    assert Bit(a, 7) <==> Bit(b, 7);
  }
}
