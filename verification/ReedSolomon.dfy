/** Reed-Solomon error correction codewords: generator polynomial, remainder, zero syndromes, minimum distance. */
module ReedSolomon {
  import opened GaloisField
  import opened GeneratorElement

  const DEGREE_MAX := 30

  // ---- Polynomials, highest power first

  function Eval(p: seq<bv8>, z: bv8): bv8 {
    if p == [] then 0 else Add(Mul(Eval(p[..|p| - 1], z), z), p[|p| - 1])
  }

  function Power(z: bv8, n: nat): bv8 {
    if n == 0 then 1 else Mul(Power(z, n - 1), z)
  }

  function Zeros(n: nat): seq<bv8> {
    seq(n, _ => 0)
  }

  function Sum(p: seq<bv8>, q: seq<bv8>): (r: seq<bv8>)
    requires |p| == |q|
    ensures |r| == |p|
  {
    seq(|p|, k requires 0 <= k < |p| => Add(p[k], q[k]))
  }

  function Scale(p: seq<bv8>, c: bv8): (r: seq<bv8>)
    ensures |r| == |p|
  {
    seq(|p|, k requires 0 <= k < |p| => Mul(p[k], c))
  }

  function Shift(p: seq<bv8>): (r: seq<bv8>)
    requires p != []
    ensures |r| == |p|
  {
    p[1..] + [0]
  }

  lemma {:induction false} EvalZeros(n: nat, z: bv8)
    ensures Eval(Zeros(n), z) == 0
  {
    hide Add, Mul;
    if n > 0 {
      EvalZeros(n - 1, z);
      assert Zeros(n)[..n - 1] == Zeros(n - 1);
      MulUnits(z);
      AddLaws(0, 0, 0);
    }
  }

  lemma {:induction false} EvalSum(p: seq<bv8>, q: seq<bv8>, z: bv8)
    requires |p| == |q|
    ensures Eval(Sum(p, q), z) == Add(Eval(p, z), Eval(q, z))
  {
    hide Add, Mul;
    AddLaws(0, 0, 0);
    if p != [] {
      var n := |p| - 1;
      var p', q' := p[..n], q[..n];
      EvalSum(p', q', z);
      assert Sum(p, q)[..n] == Sum(p', q');
      MulDistrib(Eval(p', z), Eval(q', z), z);
      AddSwap(Mul(Eval(p', z), z), Mul(Eval(q', z), z), p[n], q[n]);
    }
  }

  lemma {:induction false} EvalScale(p: seq<bv8>, c: bv8, z: bv8)
    ensures Eval(Scale(p, c), z) == Mul(Eval(p, z), c)
  {
    hide Add, Mul;
    if p == [] {
      MulUnits(c);
    } else {
      var n := |p| - 1;
      var e := Eval(p[..n], z);
      EvalScale(p[..n], c, z);
      assert Scale(p, c)[..n] == Scale(p[..n], c);
      MulDistrib(Mul(e, z), p[n], c);
      MulAssoc(e, c, z);
      MulComm(c, z);
      MulAssoc(e, z, c);
    }
  }

  lemma {:induction false} EvalConcat(p: seq<bv8>, q: seq<bv8>, z: bv8)
    ensures Eval(p + q, z) == Add(Mul(Eval(p, z), Power(z, |q|)), Eval(q, z))
  {
    hide Add, Mul;
    var e := Eval(p, z);
    AddLaws(e, 0, 0);
    if q == [] {
      assert p + q == p;
      MulUnits(e);
    } else {
      var n := |q| - 1;
      var q', a := q[..n], q[n];
      EvalConcat(p, q', z);
      assert (p + q)[..|p + q| - 1] == p + q';
      MulDistrib(Mul(e, Power(z, n)), Eval(q', z), z);
      MulAssoc(e, Power(z, n), z);
      AddLaws(Mul(Mul(e, Power(z, n)), z), Mul(Eval(q', z), z), a);
    }
  }

  lemma {:induction false} EvalShift(p: seq<bv8>, z: bv8)
    requires p != []
    ensures Eval(Shift(p), z) == Add(Mul(Eval(p, z), z), Mul(p[0], Power(z, |p|)))
  {
    hide Add, Mul;
    var t := p[1..] + [0];
    assert (p + [0])[..|p|] == p && p + [0] == [p[0]] + t;
    EvalConcat([p[0]], t, z);
    assert [p[0]][..0] == [];
    MulUnits(z);
    AddLaws(Mul(Eval(p, z), z), 0, 0);
    AddLaws(p[0], 0, 0);
    var m := Mul(p[0], Power(z, |p|));
    AddLaws(m, m, Eval(t, z));
    AddLaws(Eval(t, z), 0, 0);
    AddLaws(m, Add(m, Eval(t, z)), 0);
  }

  // ---- The generator polynomial

  /** One product by (x - root) in place, dropping the coefficient of x^|p|. */
  function TimesRoot(p: seq<bv8>, root: bv8): (r: seq<bv8>)
    requires p != []
    ensures |r| == |p|
  {
    Sum(Scale(p, root), Shift(p))
  }

  function DivisorRounds(degree: nat, i: nat): (r: seq<bv8>)
    requires degree > 0
    ensures |r| == degree
  {
    if i == 0 then Zeros(degree - 1) + [1] else TimesRoot(DivisorRounds(degree, i - 1), Alpha(i - 1))
  }

  /** The coefficients below the leading 1 of (x - r^0)(x - r^1)...(x - r^(degree-1)). */
  function Divisor(degree: nat): (r: seq<bv8>)
    requires degree > 0
    ensures |r| == degree
  {
    DivisorRounds(degree, degree)
  }

  function RootProduct(z: bv8, i: nat): bv8 {
    if i == 0 then 1 else Mul(RootProduct(z, i - 1), Add(z, Alpha(i - 1)))
  }

  lemma {:induction false} EvalTimesRoot(p: seq<bv8>, root: bv8, z: bv8)
    requires p != []
    ensures Eval(TimesRoot(p, root), z) == Add(Mul(Eval(p, z), Add(z, root)), Mul(p[0], Power(z, |p|)))
  {
    hide Add, Mul;
    var e, m := Eval(p, z), Mul(p[0], Power(z, |p|));
    EvalSum(Scale(p, root), Shift(p), z);
    EvalScale(p, root, z);
    EvalShift(p, z);
    MulDistrib(z, root, e);
    AddLaws(Mul(e, root), Mul(e, z), m);
  }

  lemma TimesRootAt(p: seq<bv8>, root: bv8, k: nat)
    requires k < |p|
    ensures k + 1 < |p| ==> TimesRoot(p, root)[k] == Add(Mul(p[k], root), p[k + 1])
    ensures k + 1 == |p| ==> TimesRoot(p, root)[k] == Mul(p[k], root)
  {
    hide Add, Mul;
    AddLaws(Mul(p[k], root), 0, 0);
  }

  /** Before the last round the product is monic of degree i, right-aligned. */
  lemma {:induction false} DivisorRoundsShape(degree: nat, i: nat)
    requires i < degree
    ensures DivisorRounds(degree, i)[degree - 1 - i] == 1
    ensures forall k: nat | k < degree - 1 - i :: DivisorRounds(degree, i)[k] == 0
  {
    hide Add, Mul, Alpha, TimesRoot;
    if i > 0 {
      var p, root := DivisorRounds(degree, i - 1), Alpha(i - 1);
      DivisorRoundsShape(degree, i - 1);
      MulUnits(root);
      AddLaws(0, 0, 0);
      AddLaws(1, 0, 0);
      forall k: nat | k <= degree - 1 - i ensures TimesRoot(p, root)[k] == if k == degree - 1 - i then 1 else 0 {
        TimesRootAt(p, root, k);
      }
    }
  }

  lemma EvalDivisorStart(degree: nat, z: bv8)
    requires degree > 0
    ensures Eval(DivisorRounds(degree, 0), z) == 1
  {
    hide Add, Mul;
    EvalZeros(degree - 1, z);
    assert DivisorRounds(degree, 0)[..degree - 1] == Zeros(degree - 1);
    MulUnits(z);
    AddLaws(1, 0, 0);
  }

  lemma {:induction false} EvalDivisorRounds(degree: nat, i: nat, z: bv8)
    requires i < degree
    ensures Eval(DivisorRounds(degree, i), z) == RootProduct(z, i)
  {
    hide Add, Mul, Alpha, Eval, Zeros, TimesRoot;
    if i == 0 {
      EvalDivisorStart(degree, z);
    } else {
      var p := DivisorRounds(degree, i - 1);
      EvalDivisorRounds(degree, i - 1, z);
      DivisorRoundsShape(degree, i - 1);
      EvalTimesRoot(p, Alpha(i - 1), z);
      MulUnits(Power(z, degree));
      AddLaws(Mul(Eval(p, z), Add(z, Alpha(i - 1))), 0, 0);
    }
  }

  lemma {:induction false} RootProductZero(k: nat, i: nat)
    requires k < i
    ensures RootProduct(Alpha(k), i) == 0
  {
    hide Add, Mul, Alpha;
    AddLaws(Alpha(k), Alpha(i - 1), 0);
    MulUnits(RootProduct(Alpha(k), i - 1));
    MulUnits(Add(Alpha(k), Alpha(i - 1)));
    if k < i - 1 {
      RootProductZero(k, i - 1);
    }
  }

  /** The monic generator polynomial is the product of (z - r^k); so r^0 .. r^(degree-1) are its roots. */
  lemma GeneratorPolynomial(degree: nat, z: bv8)
    requires degree > 0
    ensures Eval([1] + Divisor(degree), z) == RootProduct(z, degree)
    ensures Eval(Divisor(degree), z) == Add(RootProduct(z, degree), Power(z, degree))
  {
    hide Add, Mul, Alpha, TimesRoot;
    var p := DivisorRounds(degree, degree - 1);
    var w := Power(z, degree);
    EvalDivisorRounds(degree, degree - 1, z);
    DivisorRoundsShape(degree, degree - 1);
    EvalTimesRoot(p, Alpha(degree - 1), z);
    EvalConcat([1], Divisor(degree), z);
    MulUnits(w);
    MulUnits(z);
    assert [1 as bv8][..0] == [];
    AddLaws(1, 0, 0);
    AddLaws(w, Add(RootProduct(z, degree), w), 0);
    AddLaws(RootProduct(z, degree), w, w);
    AddLaws(w, RootProduct(z, degree), w);
    AddLaws(w, w, 0);
    AddLaws(RootProduct(z, degree), 0, 0);
  }

  // ---- The remainder

  function RemainderStep(r: seq<bv8>, d: bv8, gen: seq<bv8>): (r': seq<bv8>)
    requires r != [] && |r| == |gen|
    ensures |r'| == |r|
  {
    Sum(Shift(r), Scale(gen, Add(d, r[0])))
  }

  /** The register after the data has been shifted through the divider. */
  function Remainder(data: seq<bv8>, gen: seq<bv8>): (r: seq<bv8>)
    requires gen != []
    ensures |r| == |gen|
  {
    if data == [] then Zeros(|gen|)
    else RemainderStep(Remainder(data[..|data| - 1], gen), data[|data| - 1], gen)
  }

  /** One step of the division keeps data x^n + register divisible by every root of the generator. */
  lemma {:induction false} RemainderStepKeeps(e: bv8, r: seq<bv8>, d: bv8, gen: seq<bv8>, z: bv8)
    requires r != [] && |r| == |gen|
    requires Eval(gen, z) == Power(z, |gen|)
    requires Mul(e, Power(z, |gen|)) == Eval(r, z)
    ensures Mul(Add(Mul(e, z), d), Power(z, |gen|)) == Eval(RemainderStep(r, d, gen), z)
  {
    hide Add, Mul;
    var w, f := Power(z, |gen|), Add(d, r[0]);
    EvalSum(Shift(r), Scale(gen, f), z);
    EvalShift(r, z);
    EvalScale(gen, f, z);
    MulComm(w, f);
    MulDistrib(d, r[0], w);
    var a, b, c := Mul(Eval(r, z), z), Mul(r[0], w), Mul(d, w);
    AddLaws(a, b, Add(c, b));
    AddLaws(b, c, b);
    AddLaws(c, b, b);
    AddLaws(b, b, 0);
    AddLaws(c, 0, 0);
    AddLaws(b, Add(c, b), 0);
    assert Eval(RemainderStep(r, d, gen), z) == Add(a, c);
    MulDistrib(Mul(e, z), d, w);
    MulAssoc(e, z, w);
    MulComm(z, w);
    MulAssoc(e, w, z);
  }

  lemma {:induction false} RemainderAtRoot(data: seq<bv8>, gen: seq<bv8>, z: bv8)
    requires gen != [] && Eval(gen, z) == Power(z, |gen|)
    ensures Mul(Eval(data, z), Power(z, |gen|)) == Eval(Remainder(data, gen), z)
  {
    hide Add, Mul;
    if data == [] {
      EvalZeros(|gen|, z);
      MulUnits(Power(z, |gen|));
    } else {
      var data', d := data[..|data| - 1], data[|data| - 1];
      RemainderAtRoot(data', gen, z);
      RemainderStepKeeps(Eval(data', z), Remainder(data', gen), d, gen, z);
    }
  }

  /** A block as the encoder sends it: the data followed by its error correction codewords. */
  function Codeword(data: seq<bv8>, degree: nat): (c: seq<bv8>)
    requires degree > 0
    ensures |c| == |data| + degree
  {
    data + Remainder(data, Divisor(degree))
  }

  /** Zero syndromes: a block vanishes at each of the roots r^0 .. r^(degree-1), whatever its length. */
  lemma ZeroSyndromes(data: seq<bv8>, degree: nat, k: nat)
    requires k < degree
    ensures Eval(Codeword(data, degree), Alpha(k)) == 0
  {
    hide Add, Mul, Alpha;
    var z, gen := Alpha(k), Divisor(degree);
    var w := Power(z, degree);
    GeneratorPolynomial(degree, z);
    RootProductZero(k, degree);
    AddLaws(0, w, 0);
    AddLaws(w, 0, 0);
    RemainderAtRoot(data, gen, z);
    EvalConcat(data, Remainder(data, gen), z);
    AddLaws(Mul(Eval(data, z), w), Eval(Remainder(data, gen), z), 0);
  }

  // ---- The loops over byte arrays

  method ReedSolomonComputeDivisor(degree: nat, result: array<bv8>)
    requires 1 <= degree <= DEGREE_MAX && degree <= result.Length
    modifies result
    ensures result[..degree] == Divisor(degree)
    ensures forall k :: degree <= k < result.Length ==> result[k] == old(result[k])
  {
    hide Mul, Add, Xtime, TimesRoot;
    for j := 0 to degree
      invariant forall k :: 0 <= k < j ==> result[k] == 0
      invariant forall k :: degree <= k < result.Length ==> result[k] == old(result[k])
    {
      result[j] := 0;
    }
    result[degree - 1] := 1;
    assert result[..degree] == Zeros(degree - 1) + [1];
    var root: bv8 := 1;
    for i := 0 to degree
      invariant result[..degree] == DivisorRounds(degree, i)
      invariant root == Alpha(i)
      invariant forall k :: degree <= k < result.Length ==> result[k] == old(result[k])
    {
      ghost var p := result[..degree];
      for j := 0 to degree
        invariant forall k :: 0 <= k < j ==> result[k] == TimesRoot(p, root)[k]
        invariant forall k :: j <= k < degree ==> result[k] == p[k]
        invariant forall k :: degree <= k < result.Length ==> result[k] == old(result[k])
      {
        TimesRootAt(p, root, j);
        result[j] := ReedSolomonMultiply(result[j], root);
        if j + 1 < degree {
          result[j] := Add(result[j], result[j + 1]);
        }
      }
      assert result[..degree] == TimesRoot(p, root);
      MulUnits(root);
      root := ReedSolomonMultiply(root, 0x02);
    }
  }

  /** The memmove that drops the first byte of the register and clears the last one. */
  method ShiftRegister(result: array<bv8>, at: nat, degree: nat)
    requires 1 <= degree && at + degree <= result.Length
    modifies result
    ensures result[at..at + degree] == Shift(old(result[at..at + degree]))
    ensures forall k :: 0 <= k < result.Length && !(at <= k < at + degree) ==> result[k] == old(result[k])
  {
    for j := 0 to degree - 1
      invariant forall k :: at <= k < at + j ==> result[k] == old(result[k + 1])
      invariant forall k :: 0 <= k < result.Length && !(at <= k < at + j) ==> result[k] == old(result[k])
    {
      result[at + j] := result[at + j + 1];
    }
    result[at + degree - 1] := 0;
    assert result[at..at + degree] == Shift(old(result[at..at + degree]));
  }

  /** One step of the division in place on the register result[at..at+degree]. */
  method DivisionStep(d: bv8, generator: array<bv8>, degree: nat, result: array<bv8>, at: nat)
    requires 1 <= degree <= DEGREE_MAX && degree <= generator.Length && at + degree <= result.Length
    requires generator != result
    modifies result
    ensures result[at..at + degree] == RemainderStep(old(result[at..at + degree]), d, generator[..degree])
    ensures forall k :: 0 <= k < result.Length && !(at <= k < at + degree) ==> result[k] == old(result[k])
  {
    hide Mul, Add, RemainderStep;
    ghost var gen, r := generator[..degree], result[at..at + degree];
    var factor := Add(d, result[at]);
    ShiftRegister(result, at, degree);
    ghost var shifted := Shift(r);
    for j := 0 to degree
      invariant forall k :: at <= k < at + j ==> result[k] == RemainderStep(r, d, gen)[k - at]
      invariant forall k :: at + j <= k < at + degree ==> result[k] == shifted[k - at]
      invariant forall k :: 0 <= k < result.Length && !(at <= k < at + degree) ==> result[k] == old(result[k])
    {
      var product := ReedSolomonMultiply(generator[j], factor);
      RemainderStepAt(r, d, gen, j);
      result[at + j] := Add(result[at + j], product);
    }
    assert result[at..at + degree] == RemainderStep(r, d, gen);
  }

  /** Divides data[off..off+len]; the register is the part of `result` that starts at index `at`. */
  method ReedSolomonComputeRemainder(data: array<bv8>, off: nat, len: nat, generator: array<bv8>, degree: nat,
                                     result: array<bv8>, at: nat)
    requires 1 <= degree <= DEGREE_MAX && degree <= generator.Length
    requires off + len <= data.Length && at + degree <= result.Length
    requires generator != data && generator != result
    requires data == result ==> off + len <= at || at + degree <= off
    modifies result
    ensures result[at..at + degree] == Remainder(old(data[off..off + len]), generator[..degree])
    ensures forall k :: 0 <= k < result.Length && !(at <= k < at + degree) ==> result[k] == old(result[k])
  {
    hide Mul, Add, RemainderStep;
    ghost var gen, input := generator[..degree], data[off..off + len];
    for j := 0 to degree
      invariant forall k :: at <= k < at + j ==> result[k] == 0
      invariant forall k :: 0 <= k < result.Length && !(at <= k < at + degree) ==> result[k] == old(result[k])
    {
      result[at + j] := 0;
    }
    assert result[at..at + degree] == Zeros(degree);
    for i := 0 to len
      invariant result[at..at + degree] == Remainder(input[..i], gen)
      invariant forall k :: off <= k < off + len ==> data[k] == input[k - off]
      invariant forall k :: 0 <= k < result.Length && !(at <= k < at + degree) ==> result[k] == old(result[k])
    {
      assert input[..i + 1][..i] == input[..i];
      DivisionStep(data[off + i], generator, degree, result, at);
    }
    assert input[..len] == input;
  }

  lemma RemainderStepAt(r: seq<bv8>, d: bv8, gen: seq<bv8>, j: nat)
    requires r != [] && |r| == |gen| && j < |r|
    ensures RemainderStep(r, d, gen)[j] == Add(Shift(r)[j], Mul(gen[j], Add(d, r[0])))
  {
    hide Mul, Add;
  }
}
