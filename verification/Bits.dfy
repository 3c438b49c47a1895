/** Bytes as the C code sees them: bit tests, bit writes and fixed-width big-endian numbers. */
module Bits {

  /** Bit i of a byte, bit 0 being the least significant one. */
  predicate Bit(x: bv8, i: nat)
    requires i < 8
  {
    (x >> i) & 1 == 1
  }

  /** The byte x with bit i set to b, by the two masking expressions of setModuleBounded. */
  function WithBit(x: bv8, i: nat, b: bool): bv8
    requires i < 8
  {
    if b then x | ((1 as bv8) << i) else x & (((1 as bv8) << i) ^ 0xFF)
  }

  lemma BitCases(x: bv8)
    ensures Bit(x, 0) <==> x & 0x01 != 0
    ensures Bit(x, 1) <==> x & 0x02 != 0
    ensures Bit(x, 2) <==> x & 0x04 != 0
    ensures Bit(x, 3) <==> x & 0x08 != 0
    ensures Bit(x, 4) <==> x & 0x10 != 0
    ensures Bit(x, 5) <==> x & 0x20 != 0
    ensures Bit(x, 6) <==> x & 0x40 != 0
    ensures Bit(x, 7) <==> x & 0x80 != 0
  {
  }

  /** Writing one bit changes that bit only. */
  lemma BitWithBit(x: bv8, i: nat, b: bool, j: nat)
    requires i < 8 && j < 8
    ensures Bit(WithBit(x, i, b), j) <==> if i == j then b else Bit(x, j)
  {
    BitCases(x);
    BitCases(WithBit(x, i, b));
    if b { SetCases(x, i, j); } else { ClearCases(x, i, j); }
  }

  lemma SetCases(x: bv8, i: nat, j: nat)
    requires i < 8 && j < 8
    ensures Bit(x | ((1 as bv8) << i), j) <==> (i == j || Bit(x, j))
  {
    if i == 0 {} else if i == 1 {} else if i == 2 {} else if i == 3 {}
    else if i == 4 {} else if i == 5 {} else if i == 6 {} else {}
  }

  lemma ClearCases(x: bv8, i: nat, j: nat)
    requires i < 8 && j < 8
    ensures Bit(x & (((1 as bv8) << i) ^ 0xFF), j) <==> (i != j && Bit(x, j))
  {
    if i == 0 {} else if i == 1 {} else if i == 2 {} else if i == 3 {}
    else if i == 4 {} else if i == 5 {} else if i == 6 {} else {}
  }

  /** A byte is determined by its eight bits. */
  lemma ByteFromBits(x: bv8, y: bv8)
    requires forall i: nat | i < 8 :: Bit(x, i) == Bit(y, i)
    ensures x == y
  {
    assert Bit(x, 0) == Bit(y, 0) && Bit(x, 1) == Bit(y, 1) && Bit(x, 2) == Bit(y, 2) && Bit(x, 3) == Bit(y, 3);
    assert Bit(x, 4) == Bit(y, 4) && Bit(x, 5) == Bit(y, 5) && Bit(x, 6) == Bit(y, 6) && Bit(x, 7) == Bit(y, 7);
    BitCases(x);
    BitCases(y);
  }
}
