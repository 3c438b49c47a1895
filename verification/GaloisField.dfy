/** The field GF(2^8) with the modulus 0x11D of ISO/IEC 18004, section 7.5.2. */
module GaloisField {
  import opened Bits

  // ---- Multiplication by Russian peasant doubling

  /** Field addition is exclusive or. */
  function Add(x: bv8, y: bv8): bv8 {
    x ^ y
  }

  /** Multiplication by x modulo 0x11D: the shift and the conditional reduction of one round. */
  function Xtime(z: bv8): bv8 {
    (z << 1) ^ ((z >> 7) * 0x1D)
  }

  function Select(b: bool, x: bv8): bv8 {
    if b then x else 0
  }

  /** The accumulator after the first i rounds, which have read the i high bits of y. */
  function MulRounds(x: bv8, y: bv8, i: nat): bv8
    requires i <= 8
  {
    if i == 0 then 0 else Add(Xtime(MulRounds(x, y, i - 1)), Select(Bit(y, 8 - i), x))
  }

  function Mul(x: bv8, y: bv8): bv8 {
    MulRounds(x, y, 8)
  }

  method ReedSolomonMultiply(x: bv8, y: bv8) returns (z: bv8)
    ensures z == Mul(x, y)
  {
    AddLaws(0, 0, 0);
    hide Bit, Xtime, Add;
    z := 0;
    var i: int := 7;
    while i >= 0
      invariant -1 <= i <= 7
      invariant z == MulRounds(x, y, 7 - i)
    {
      z := Xtime(z);
      AddLaws(z, 0, 0);
      if Bit(y, i) {
        z := Add(z, x);
      }
      i := i - 1;
    }
  }

  // ---- Linearity of one round

  lemma XtimeByTopBit(z: bv8)
    ensures Xtime(z) == if z & 0x80 != 0 then (z << 1) ^ 0x1D else z << 1
  {
  }

  lemma ShiftAdd(x: bv8, y: bv8)
    ensures Add(x << 1, y << 1) == Add(x, y) << 1
    ensures Add(x, y) & 0x80 != 0 <==> (x & 0x80 != 0) != (y & 0x80 != 0)
  {
  }

  /** Reducing both terms cancels out, and reducing one reduces the sum. */
  lemma ReduceAdd(s: bv8, t: bv8)
    ensures Add(s ^ 0x1D, t ^ 0x1D) == Add(s, t)
    ensures Add(s ^ 0x1D, t) == Add(s, t ^ 0x1D) == Add(s, t) ^ 0x1D
  {
  }

  lemma XtimeAdd(x: bv8, y: bv8)
    ensures Xtime(Add(x, y)) == Add(Xtime(x), Xtime(y))
  {
    hide Xtime, Add;
    XtimeByTopBit(x);
    XtimeByTopBit(y);
    XtimeByTopBit(Add(x, y));
    ShiftAdd(x, y);
    ReduceAdd(x << 1, y << 1);
  }

  lemma XtimeZero(z: bv8)
    ensures Xtime(z) == 0 <==> z == 0
  {
  }

  lemma AddLaws(a: bv8, b: bv8, c: bv8)
    ensures Add(a, b) == Add(b, a)
    ensures Add(a, Add(b, c)) == Add(Add(a, b), c)
    ensures Add(a, 0) == a == Add(0, a)
    ensures Add(a, b) == 0 <==> a == b
  {
  }

  lemma AddSwap(a: bv8, b: bv8, c: bv8, d: bv8)
    ensures Add(Add(a, b), Add(c, d)) == Add(Add(a, c), Add(b, d))
  {
    AddLaws(a, b, Add(c, d));
    AddLaws(b, c, d);
    AddLaws(c, b, d);
    AddLaws(a, c, Add(b, d));
    hide Add;
  }

  lemma SelectLinear(b: bool, x: bv8, y: bv8)
    ensures Select(b, Add(x, y)) == Add(Select(b, x), Select(b, y))
    ensures Select(b, Xtime(x)) == Xtime(Select(b, x))
  {
    XtimeZero(0);
    hide Xtime;
  }

  // ---- Mul is linear in its first argument

  lemma {:induction false} MulRoundsAdd(a: bv8, b: bv8, y: bv8, i: nat)
    requires i <= 8
    ensures MulRounds(Add(a, b), y, i) == Add(MulRounds(a, y, i), MulRounds(b, y, i))
  {
    if i == 0 {
      AddLaws(0, 0, 0);
    } else {
      hide Add, Xtime, Select, Bit;
      MulRoundsAdd(a, b, y, i - 1);
      var p, q, bit := MulRounds(a, y, i - 1), MulRounds(b, y, i - 1), Bit(y, 8 - i);
      XtimeAdd(p, q);
      SelectLinear(bit, a, b);
      AddSwap(Xtime(p), Xtime(q), Select(bit, a), Select(bit, b));
    }
  }

  lemma {:induction false} MulRoundsXtime(x: bv8, y: bv8, i: nat)
    requires i <= 8
    ensures MulRounds(Xtime(x), y, i) == Xtime(MulRounds(x, y, i))
  {
    if i == 0 {
      XtimeZero(0);
    } else {
      hide Add, Xtime, Select, Bit;
      MulRoundsXtime(x, y, i - 1);
      var p := MulRounds(x, y, i - 1);
      XtimeAdd(Xtime(p), Select(Bit(y, 8 - i), x));
      SelectLinear(Bit(y, 8 - i), x, x);
    }
  }

  lemma {:induction false} MulRoundsZero(y: bv8, i: nat)
    requires i <= 8
    ensures MulRounds(0, y, i) == 0
  {
    if i > 0 {
      MulRoundsZero(y, i - 1);
      XtimeZero(0);
    }
  }

  /** Multiplying a partial product gives the partial product of the multiple. */
  lemma {:induction false} MulOfRounds(a: bv8, x: bv8, y: bv8, i: nat)
    requires i <= 8
    ensures Mul(MulRounds(a, x, i), y) == MulRounds(Mul(a, y), x, i)
  {
    MulRoundsZero(y, 8);
    if i > 0 {
      var p, bit := MulRounds(a, x, i - 1), Bit(x, 8 - i);
      MulOfRounds(a, x, y, i - 1);
      MulRoundsAdd(Xtime(p), Select(bit, a), y, 8);
      MulRoundsXtime(p, y, 8);
      assert Mul(Select(bit, a), y) == Select(bit, Mul(a, y));
      hide Add, Xtime, Select, Bit;
    }
  }

  // ---- The ring laws

  lemma MulOneLeft(y: bv8)
    ensures Mul(1, y) == y
  {
    BitCases(y);
    assert MulRounds(1, y, 1) == y >> 7;
    assert MulRounds(1, y, 2) == y >> 6;
    assert MulRounds(1, y, 3) == y >> 5;
    assert MulRounds(1, y, 4) == y >> 4;
    assert MulRounds(1, y, 5) == y >> 3;
    assert MulRounds(1, y, 6) == y >> 2;
    assert MulRounds(1, y, 7) == y >> 1;
  }

  lemma MulComm(x: bv8, y: bv8)
    ensures Mul(x, y) == Mul(y, x)
  {
    MulOneLeft(x);
    MulOneLeft(y);
    MulOfRounds(1, x, y, 8);
  }

  lemma MulAssoc(x: bv8, y: bv8, z: bv8)
    ensures Mul(Mul(x, y), z) == Mul(x, Mul(y, z))
  {
    MulComm(x, y);
    MulOfRounds(y, x, z, 8);
    MulComm(Mul(y, z), x);
  }

  lemma MulDistrib(x: bv8, y: bv8, z: bv8)
    ensures Mul(Add(x, y), z) == Add(Mul(x, z), Mul(y, z))
    ensures Mul(z, Add(x, y)) == Add(Mul(z, x), Mul(z, y))
  {
    MulRoundsAdd(x, y, z, 8);
    MulComm(Add(x, y), z);
    MulComm(x, z);
    MulComm(y, z);
  }

  lemma MulXtime(x: bv8, y: bv8)
    ensures Mul(Xtime(x), y) == Xtime(Mul(x, y))
  {
    MulRoundsXtime(x, y, 8);
    hide Xtime;
  }

  lemma {:induction false} MulUnits(x: bv8)
    ensures Mul(0, x) == 0 == Mul(x, 0)
    ensures Mul(1, x) == x == Mul(x, 1)
    ensures Mul(2, x) == Xtime(x) == Mul(x, 2)
  {
    MulRoundsZero(x, 8);
    MulOneLeft(x);
    MulRoundsXtime(1, x, 8);
    MulComm(0, x);
    MulComm(1, x);
    MulComm(2, x);
  }
}
