/** Minimum distance of the blocks: any two different blocks of at most 255 bytes differ in more than `degree` bytes. */
module CodeDistance {
  import opened GaloisField
  import opened GeneratorElement
  import opened Hamming
  import opened ReedSolomon

  /** A coefficient with the locator of its position. */
  datatype Term = Term(coef: bv8, loc: bv8)

  /** The j-th power sum of the terms. */
  function PowerSum(ts: seq<Term>, j: nat): bv8 {
    if ts == [] then 0
    else Add(PowerSum(ts[..|ts| - 1], j), Mul(ts[|ts| - 1].coef, Power(ts[|ts| - 1].loc, j)))
  }

  ghost predicate DistinctLocators(ts: seq<Term>) {
    forall i, j :: 0 <= i < j < |ts| ==> ts[i].loc != ts[j].loc
  }

  /** The terms with each coefficient multiplied by (locator - x). */
  function Eliminate(ts: seq<Term>, x: bv8): (r: seq<Term>)
    ensures |r| == |ts|
  {
    seq(|ts|, k requires 0 <= k < |ts| => Term(Mul(ts[k].coef, Add(ts[k].loc, x)), ts[k].loc))
  }

  lemma {:induction false} EliminatePowerSum(ts: seq<Term>, x: bv8, j: nat)
    ensures PowerSum(Eliminate(ts, x), j) == Add(PowerSum(ts, j + 1), Mul(PowerSum(ts, j), x))
  {
    hide Add, Mul;
    if ts == [] {
      MulUnits(x);
      AddLaws(0, 0, 0);
    } else {
      var n := |ts| - 1;
      var c, l := ts[n].coef, ts[n].loc;
      var p := Power(l, j);
      EliminatePowerSum(ts[..n], x, j);
      assert Eliminate(ts, x)[..n] == Eliminate(ts[..n], x);
      // c (l + x) l^j == c l^(j+1) + c l^j x
      MulAssoc(c, Add(l, x), p);
      MulDistrib(l, x, p);
      MulDistrib(Mul(l, p), Mul(x, p), c);
      MulComm(l, p);
      MulComm(x, p);
      MulAssoc(c, p, x);
      var s, s' := PowerSum(ts[..n], j), PowerSum(ts[..n], j + 1);
      MulDistrib(s, Mul(c, p), x);
      AddSwap(s', Mul(s, x), Mul(c, Mul(p, l)), Mul(Mul(c, p), x));
    }
  }

  /** Distinct locators whose first |ts| power sums vanish have a zero coefficient among them. */
  lemma {:induction false} VanishingPowerSums(ts: seq<Term>)
    requires ts != [] && DistinctLocators(ts)
    requires forall j: nat | j < |ts| :: PowerSum(ts, j) == 0
    ensures exists k :: 0 <= k < |ts| && ts[k].coef == 0
    decreases |ts|
  {
    hide Add, Mul;
    var n := |ts| - 1;
    var last := ts[n];
    if n == 0 {
      assert PowerSum(ts, 0) == 0;
      assert ts[..0] == [];
      MulUnits(last.coef);
      AddLaws(last.coef, 0, 0);
    } else {
      var rest := Eliminate(ts[..n], last.loc);
      forall j: nat | j < n ensures PowerSum(rest, j) == 0 {
        EliminatedPowerSum(ts, j);
      }
      VanishingPowerSums(rest);
      var k :| 0 <= k < n && rest[k].coef == 0;
      NoZeroDivisors(ts[k].coef, Add(ts[k].loc, last.loc));
      AddLaws(ts[k].loc, last.loc, 0);
    }
  }

  lemma EliminatedPowerSum(ts: seq<Term>, j: nat)
    requires ts != [] && PowerSum(ts, j) == 0 && PowerSum(ts, j + 1) == 0
    ensures PowerSum(Eliminate(ts[..|ts| - 1], ts[|ts| - 1].loc), j) == 0
  {
    hide Add, Mul;
    var n := |ts| - 1;
    var c, x := ts[n].coef, ts[n].loc;
    var p := Power(x, j);
    var s, s' := PowerSum(ts[..n], j), PowerSum(ts[..n], j + 1);
    EliminatePowerSum(ts[..n], x, j);
    AddLaws(s, Mul(c, p), 0);
    AddLaws(s', Mul(c, Mul(p, x)), 0);
    MulAssoc(c, p, x);
    AddLaws(s', Mul(s, x), 0);
  }

  // ---- From a block to its non-zero terms

  /** The non-zero bytes of a block of at most 255, the byte k with the locator r^(n-1-k), starting at exponent e. */
  function Support(d: seq<bv8>): seq<Term>
  {
    if d == [] then []
    else
      var t := Support(d[1..]);
      if d[0] == 0 then t else t + [Term(d[0], Alpha(|d| - 1))]
  }

  function Weight(d: seq<bv8>): (w: nat) {
    if d == [] then 0 else Weight(d[1..]) + (if d[0] == 0 then 0 else 1)
  }

  ghost predicate PowerBelow(x: bv8, n: nat) {
    exists k: nat :: k < n && x == Alpha(k)
  }

  lemma {:induction false} SupportShape(d: seq<bv8>)
    ensures |Support(d)| == Weight(d)
    ensures forall i :: 0 <= i < |Support(d)| ==> Support(d)[i].coef != 0
    ensures forall i :: 0 <= i < |Support(d)| ==> PowerBelow(Support(d)[i].loc, |d|)
    ensures |d| <= 255 ==> DistinctLocators(Support(d))
  {
    hide Alpha;
    if d != [] {
      SupportShape(d[1..]);
      var t := Support(d[1..]);
      assert PowerBelow(Alpha(|d| - 1), |d|);
      forall i | 0 <= i < |t| && |d| <= 255 ensures t[i].loc != Alpha(|d| - 1) {
        var k: nat :| k < |d| - 1 && t[i].loc == Alpha(k);
        AlphaDistinct(k, |d| - 1);
      }
    }
  }

  lemma {:induction false} PowerOfAlpha(k: nat, j: nat)
    ensures Power(Alpha(k), j) == Alpha(k * j) == Power(Alpha(j), k)
  {
    hide Mul, Alpha;
    PowerIsAlpha(k, j);
    PowerIsAlpha(j, k);
    assert k * j == j * k;
  }

  lemma {:induction false} PowerIsAlpha(k: nat, j: nat)
    ensures Power(Alpha(k), j) == Alpha(k * j)
  {
    hide Mul, Xtime;
    if j > 0 {
      PowerIsAlpha(k, j - 1);
      AlphaSum(k * (j - 1), k);
      assert k * (j - 1) + k == k * j;
    }
  }

  /** A block's value at r^j is the j-th power sum of its non-zero terms. */
  lemma {:induction false} EvalAsPowerSum(d: seq<bv8>, j: nat)
    ensures Eval(d, Alpha(j)) == PowerSum(Support(d), j)
  {
    hide Add, Mul, Alpha, Power, Eval;
    if d == [] {
      assert Eval(d, Alpha(j)) == 0 by { EvalNone(Alpha(j)); }
    } else {
      var z, rest := Alpha(j), d[1..];
      EvalAsPowerSum(rest, j);
      assert d == [d[0]] + rest;
      EvalConcat([d[0]], rest, z);
      EvalOne(d[0], z);
      PowerOfAlpha(|rest|, j);
      MulUnits(Power(z, |rest|));
      AddLaws(Mul(d[0], Power(z, |rest|)), PowerSum(Support(rest), j), 0);
      AddLaws(PowerSum(Support(rest), j), 0, 0);
      if d[0] != 0 {
        var t := Support(rest) + [Term(d[0], Alpha(|rest|))];
        assert t[..|t| - 1] == Support(rest);
      }
    }
  }

  lemma EvalNone(z: bv8)
    ensures Eval([], z) == 0
  {
  }

  lemma EvalOne(a: bv8, z: bv8)
    ensures Eval([a], z) == a
  {
    hide Add, Mul;
    assert [a][..0] == [];
    MulUnits(z);
    AddLaws(a, 0, 0);
  }

  /** A block of at most 255 bytes with `degree` zero syndromes is all zero or has more than `degree` non-zero bytes. */
  lemma SparseBlockIsZero(d: seq<bv8>, degree: nat)
    requires |d| <= 255 && Weight(d) <= degree
    requires forall k: nat | k < degree :: Eval(d, Alpha(k)) == 0
    ensures Weight(d) == 0
  {
    hide Add, Mul, Alpha, Eval;
    SupportShape(d);
    var ts := Support(d);
    if ts != [] {
      forall j: nat | j < |ts| ensures PowerSum(ts, j) == 0 {
        EvalAsPowerSum(d, j);
      }
      VanishingPowerSums(ts);
      assert false;
    }
  }

  // ---- Distance

  lemma {:induction false} DistanceIsWeight(a: seq<bv8>, b: seq<bv8>)
    requires |a| == |b|
    ensures Distance(a, b) == Weight(Sum(a, b))
  {
    hide Add;
    if a != [] {
      DistanceIsWeight(a[1..], b[1..]);
      assert Sum(a, b)[1..] == Sum(a[1..], b[1..]);
      AddLaws(a[0], b[0], 0);
    }
  }

  /** Blocks that agree in all syndromes and differ in at most `degree` bytes are equal. */
  lemma CloseBlocksEqual(a: seq<bv8>, b: seq<bv8>, degree: nat)
    requires |a| == |b| <= 255 && Distance(a, b) <= degree
    requires forall k: nat | k < degree :: Eval(a, Alpha(k)) == Eval(b, Alpha(k))
    ensures a == b
  {
    hide Add, Mul, Alpha, Eval;
    DistanceIsWeight(a, b);
    forall k: nat | k < degree ensures Eval(Sum(a, b), Alpha(k)) == 0 {
      EvalSum(a, b, Alpha(k));
      AddLaws(Eval(a, Alpha(k)), Eval(b, Alpha(k)), 0);
    }
    SparseBlockIsZero(Sum(a, b), degree);
    ZeroDistance(a, b);
  }

  /** Minimum distance: blocks of different data differ in at least degree + 1 of their bytes. */
  lemma MinimumDistance(data1: seq<bv8>, data2: seq<bv8>, degree: nat)
    requires degree > 0 && |data1| == |data2| && |data1| + degree <= 255
    requires data1 != data2
    ensures Distance(Codeword(data1, degree), Codeword(data2, degree)) >= degree + 1
  {
    hide Add, Mul, Alpha, Eval;
    var a, b := Codeword(data1, degree), Codeword(data2, degree);
    assert data1 == a[..|data1|] && data2 == b[..|data1|];
    if Distance(a, b) <= degree {
      forall k: nat | k < degree ensures Eval(a, Alpha(k)) == Eval(b, Alpha(k)) {
        ZeroSyndromes(data1, degree, k);
        ZeroSyndromes(data2, degree, k);
      }
      CloseBlocksEqual(a, b, degree);
      assert false;
    }
  }

  /** A received block within degree/2 byte errors of a sent block is that close to no other block. */
  lemma UniqueCorrection(data1: seq<bv8>, data2: seq<bv8>, received: seq<bv8>, degree: nat)
    requires degree > 0 && |data1| == |data2| && |data1| + degree == |received| <= 255
    requires 2 * Distance(Codeword(data1, degree), received) <= degree
    requires 2 * Distance(received, Codeword(data2, degree)) <= degree
    ensures data1 == data2
  {
    DistanceTriangle(Codeword(data1, degree), received, Codeword(data2, degree));
    if data1 != data2 {
      MinimumDistance(data1, data2, degree);
      assert false;
    }
  }

  /** The error correction bytes are the only ones of their number that make every syndrome zero. */
  lemma {:induction false} RemainderIsUnique(data: seq<bv8>, ecc: seq<bv8>)
    requires 1 <= |ecc| <= 255
    requires forall k: nat | k < |ecc| :: Eval(data + ecc, Alpha(k)) == 0
    ensures ecc == Remainder(data, Divisor(|ecc|))
  {
    hide Add, Mul, Alpha, Eval, Divisor, Remainder;
    var degree := |ecc|;
    var r := Remainder(data, Divisor(degree));
    forall k: nat | k < degree ensures Eval(ecc, Alpha(k)) == Eval(r, Alpha(k)) {
      var z := Alpha(k);
      var m := Mul(Eval(data, z), Power(z, degree));
      ZeroSyndromes(data, degree, k);
      EvalConcat(data, r, z);
      EvalConcat(data, ecc, z);
      AddLaws(m, Eval(r, z), 0);
      AddLaws(m, Eval(ecc, z), 0);
    }
    DistanceBound(ecc, r);
    CloseBlocksEqual(ecc, r, degree);
  }
}
