/** The byte-based bit buffer: bits are stored most significant first, and bits not yet appended are 0. */
module BitBuffer {
  import opened Bits

  // ---- Numbers as fixed-width big-endian bit strings

  /** val >> i */
  function ShiftRight(val: nat, i: nat): nat {
    if i == 0 then val else ShiftRight(val, i - 1) / 2
  }

  function ToBits(val: nat, n: nat): (bits: seq<bool>)
    ensures |bits| == n
  {
    if n == 0 then [] else ToBits(val / 2, n - 1) + [val % 2 == 1]
  }

  function FromBits(bits: seq<bool>): nat {
    if bits == [] then 0 else 2 * FromBits(bits[..|bits| - 1]) + (if bits[|bits| - 1] then 1 else 0)
  }

  lemma {:induction false} ShiftRightOfHalf(val: nat, i: nat)
    ensures ShiftRight(val / 2, i) == ShiftRight(val, i + 1)
  {
    if i > 0 {
      ShiftRightOfHalf(val, i - 1);
    }
  }

  /** A value that fits in n bits is recovered from its n bits. */
  lemma {:induction false} FromToBits(val: nat, n: nat)
    requires ShiftRight(val, n) == 0
    ensures FromBits(ToBits(val, n)) == val
  {
    if n > 0 {
      ShiftRightOfHalf(val, n - 1);
      FromToBits(val / 2, n - 1);
      var bits := ToBits(val, n);
      assert bits[..n - 1] == ToBits(val / 2, n - 1);
    }
  }

  lemma {:induction false} ToFromBits(bits: seq<bool>)
    ensures ToBits(FromBits(bits), |bits|) == bits
    ensures ShiftRight(FromBits(bits), |bits|) == 0
  {
    if bits != [] {
      var n := |bits| - 1;
      var v := FromBits(bits);
      ToFromBits(bits[..n]);
      assert v / 2 == FromBits(bits[..n]);
      ShiftRightOfHalf(v, n);
      assert bits == bits[..n] + [bits[n]];
    }
  }

  /** The most significant bit comes first. */
  lemma {:induction false} ToBitsAt(val: nat, n: nat, i: nat)
    requires i < n
    ensures ToBits(val, n)[i] == (ShiftRight(val, n - 1 - i) % 2 == 1)
  {
    if i < n - 1 {
      ToBitsAt(val / 2, n - 1, i);
      ShiftRightOfHalf(val, n - 2 - i);
    }
  }

  function Pow2(n: nat): (p: nat)
    ensures p > 0
  {
    if n == 0 then 1 else 2 * Pow2(n - 1)
  }

  /** val < 2^n is the same as val >> n == 0. */
  lemma {:induction false} FitsInBits(val: nat, n: nat)
    ensures val < Pow2(n) <==> ShiftRight(val, n) == 0
  {
    if n > 0 {
      FitsInBits(val / 2, n - 1);
      ShiftRightOfHalf(val, n - 1);
    }
  }

  // ---- Reading and writing a buffer

  predicate BitAt(s: seq<bv8>, k: nat)
    requires k < 8 * |s|
  {
    Bit(s[k / 8], 7 - k % 8)
  }

  function BitsOf(s: seq<bv8>): (bits: seq<bool>)
    ensures |bits| == 8 * |s|
  {
    seq(8 * |s|, k requires 0 <= k < 8 * |s| => BitAt(s, k))
  }

  /** The bytes s contain exactly the given bits, followed by zero bits. */
  ghost predicate Holds(s: seq<bv8>, bits: seq<bool>) {
    |bits| <= 8 * |s| && forall k :: 0 <= k < 8 * |s| ==> BitAt(s, k) == (k < |bits| && bits[k])
  }

  lemma BytesFromBits(s: seq<bv8>, t: seq<bv8>)
    requires |s| == |t| && BitsOf(s) == BitsOf(t)
    ensures s == t
  {
    hide Bit;
    forall k | 0 <= k < |s| ensures s[k] == t[k] {
      forall i: nat | i < 8 ensures Bit(s[k], i) == Bit(t[k], i) {
        assert (8 * k + (7 - i)) / 8 == k && (8 * k + (7 - i)) % 8 == 7 - i;
        assert BitsOf(s)[8 * k + (7 - i)] == BitsOf(t)[8 * k + (7 - i)];
      }
      ByteFromBits(s[k], t[k]);
    }
  }

  /** OR-ing one bit into the first free position appends it. */
  lemma HoldsAppend(s: seq<bv8>, bits: seq<bool>, b: bool)
    requires Holds(s, bits) && |bits| < 8 * |s|
    ensures Holds(s[|bits| / 8 := OrBit(s[|bits| / 8], 7 - |bits| % 8, b)], bits + [b])
  {
    hide Bit, OrBit;
    var n := |bits|;
    var s' := s[n / 8 := OrBit(s[n / 8], 7 - n % 8, b)];
    forall k | 0 <= k < 8 * |s'| ensures BitAt(s', k) == (k < n + 1 && (bits + [b])[k]) {
      assert BitAt(s, k) == (k < n && bits[k]);
      if k / 8 == n / 8 {
        BitOrBit(s[n / 8], 7 - n % 8, b, 7 - k % 8);
        assert k == n <==> k % 8 == n % 8;
      }
    }
  }

  /** The byte expression of appendBitsToBuffer: one bit OR-ed into position i. */
  function OrBit(x: bv8, i: nat, b: bool): bv8
    requires i < 8
  {
    if b then x | ((1 as bv8) << i) else x
  }

  lemma BitOrBit(x: bv8, i: nat, b: bool, j: nat)
    requires i < 8 && j < 8
    ensures Bit(OrBit(x, i, b), j) <==> (b && i == j) || Bit(x, j)
  {
    if b { SetCases(x, i, j); }
  }

  /** Appends the numBits low-order bits of val; `cap` is the part of the buffer that was cleared beforehand. */
  method AppendBitsToBuffer(val: nat, numBits: nat, buffer: array<bv8>, bitLen: nat, ghost cap: nat, ghost bits: seq<bool>)
    returns (newLen: nat)
    requires numBits <= 16 && ShiftRight(val, numBits) == 0
    requires cap <= buffer.Length && |bits| == bitLen && bitLen + numBits <= 8 * cap
    requires Holds(buffer[..cap], bits)
    modifies buffer
    ensures newLen == bitLen + numBits
    ensures Holds(buffer[..cap], bits + ToBits(val, numBits))
    ensures forall k :: cap <= k < buffer.Length ==> buffer[k] == old(buffer[k])
  {
    hide Bit, Holds, OrBit, ToBits;
    newLen := bitLen;
    var i: int := numBits - 1;
    assert bits + [] == bits;
    while i >= 0
      invariant -1 <= i < numBits
      invariant newLen == bitLen + (numBits - 1 - i)
      invariant Holds(buffer[..cap], bits + ToBits(ShiftRight(val, i + 1), numBits - 1 - i))
      invariant forall k :: cap <= k < buffer.Length ==> buffer[k] == old(buffer[k])
    {
      ghost var soFar := bits + ToBits(ShiftRight(val, i + 1), numBits - 1 - i);
      var bit := ShiftRight(val, i) % 2 == 1;
      HoldsAppend(buffer[..cap], soFar, bit);
      ToBitsNext(val, numBits, i);
      assert soFar + [bit] == bits + ToBits(ShiftRight(val, i), numBits - i);
      ghost var s := buffer[..cap];
      buffer[newLen / 8] := OrBit(buffer[newLen / 8], 7 - newLen % 8, bit);
      assert buffer[..cap] == s[newLen / 8 := OrBit(s[newLen / 8], 7 - newLen % 8, bit)];
      newLen := newLen + 1;
      i := i - 1;
    }
  }

  lemma ToBitsNext(val: nat, n: nat, i: nat)
    requires i < n
    ensures ToBits(ShiftRight(val, i), n - i)
         == ToBits(ShiftRight(val, i + 1), n - 1 - i) + [ShiftRight(val, i) % 2 == 1]
  {
  }

  /** The memset before the first append. */
  method ClearBuffer(buffer: array<bv8>, cap: nat)
    requires cap <= buffer.Length
    modifies buffer
    ensures Holds(buffer[..cap], [])
    ensures forall k :: cap <= k < buffer.Length ==> buffer[k] == old(buffer[k])
  {
    hide Bit;
    for i := 0 to cap
      invariant forall k :: 0 <= k < i ==> buffer[k] == 0
      invariant forall k :: cap <= k < buffer.Length ==> buffer[k] == old(buffer[k])
    {
      buffer[i] := 0;
    }
    forall k | 0 <= k < 8 * cap ensures !BitAt(buffer[..cap], k) {
      ZeroBit(7 - k % 8);
    }
  }

  lemma ZeroBit(i: nat)
    requires i < 8
    ensures !Bit(0, i)
  {
  }

  lemma HoldsPrefix(s: seq<bv8>, cap: nat, bits: seq<bool>)
    requires cap <= |s| && Holds(s[..cap], bits)
    ensures BitsOf(s)[..|bits|] == bits
  {
    hide Bit;
    forall k | 0 <= k < |bits| ensures BitsOf(s)[k] == bits[k] {
      assert BitAt(s[..cap], k) == bits[k];
    }
  }
}
