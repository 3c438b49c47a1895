/** The two BCH codes that protect the format and the version information (ISO/IEC 18004, annexes C and D). */
module BchCodes {
  import opened Hamming

  datatype Code = FormatCode | VersionCode

  function Degree(c: Code): nat {
    if c == FormatCode then 10 else 12
  }

  /** The number of bits of a codeword; the data bits are the upper ones. */
  function Length(c: Code): nat {
    if c == FormatCode then 15 else 18
  }

  function DataLimit(c: Code): bv18 {
    if c == FormatCode then 32 else 64
  }

  function MinimumDistance(c: Code): nat {
    if c == FormatCode then 7 else 8
  }

  /** One round of the division by the generator. */
  function Round(c: Code, rem: bv18): bv18 {
    if c == FormatCode then (rem << 1) ^ ((rem >> 9) * 0x537) else (rem << 1) ^ ((rem >> 11) * 0x1F25)
  }

  function Remainder(c: Code, data: bv18, rounds: nat): bv18 {
    if rounds == 0 then data else Round(c, Remainder(c, data, rounds - 1))
  }

  function WithRemainder(c: Code, data: bv18, rem: bv18): bv18 {
    if c == FormatCode then (data << 10) | rem else (data << 12) | rem
  }

  function Codeword(c: Code, data: bv18): bv18 {
    WithRemainder(c, data, Remainder(c, data, Degree(c)))
  }

  lemma RemainderRound(c: Code, data: bv18, rounds: nat)
    ensures Remainder(c, data, 0) == data
    ensures Remainder(c, data, rounds + 1) == Round(c, Remainder(c, data, rounds))
  {
    hide Round;
  }

  /** The loop that both kinds of information are computed with; it completes the data to a multiple of the generator. */
  method ComputeRemainder(c: Code, data: bv18) returns (rem: bv18)
    ensures rem == Remainder(c, data, Degree(c))
    ensures data < DataLimit(c) ==> IsCodeword(c, WithRemainder(c, data, rem)) && Data(c, WithRemainder(c, data, rem)) == data
  {
    hide Round, Remainder, WithRemainder, Data, IsCodeword, DataLimit;
    if data < DataLimit(c) {
      CodewordIsMultiple(c, data);
      DataOfCodeword(c, data);
    }
    rem := data;
    RemainderRound(c, data, 0);
    for i := 0 to Degree(c)
      invariant rem == Remainder(c, data, i)
    {
      RemainderRound(c, data, i);
      rem := Round(c, rem);
    }
  }

  // ---- Polynomials over the field of two elements: bit i is the coefficient of the i-th power

  predicate GetBit(x: bv18, i: nat)
    requires i < 18
  {
    (x >> i) & 1 != 0
  }

  /** The sum of two polynomials. */
  function Xor(x: bv18, y: bv18): bv18 {
    x ^ y
  }

  function Term(c: Code, q: bv18, i: nat): bv18
    requires i < 6
  {
    if !GetBit(q, i) then 0 else if c == FormatCode then 0x537 << i else 0x1F25 << i
  }

  /** The product of the generator and q. */
  function Product(c: Code, q: bv18): bv18 {
    Xor(Xor(Xor(Xor(Xor(Term(c, q, 0), Term(c, q, 1)), Term(c, q, 2)), Term(c, q, 3)), Term(c, q, 4)), Term(c, q, 5))
  }

  lemma PlainRound(c: Code, rem: bv18)
    requires rem < if c == FormatCode then 512 else 2048
    ensures Round(c, rem) == rem << 1
  {
  }

  /** In the first rounds the data only move up. */
  lemma FirstRounds(c: Code, data: bv18)
    requires data < DataLimit(c)
    ensures Remainder(c, data, 5) == data << 5 && (c == VersionCode ==> Remainder(c, data, 6) == data << 6)
  {
    hide Remainder, Round;
    RemainderRound(c, data, 0);
    RemainderRound(c, data, 1);
    RemainderRound(c, data, 2);
    RemainderRound(c, data, 3);
    RemainderRound(c, data, 4);
    RemainderRound(c, data, 5);
    Shifts(data);
    PlainRound(c, data);
    PlainRound(c, data << 1);
    PlainRound(c, data << 2);
    PlainRound(c, data << 3);
    PlainRound(c, data << 4);
    if c == VersionCode { PlainRound(c, data << 5); }
  }

  lemma Shifts(data: bv18)
    requires data < 64
    ensures (data << 1) << 1 == data << 2 && (data << 2) << 1 == data << 3 && (data << 3) << 1 == data << 4
    ensures (data << 4) << 1 == data << 5 && (data << 5) << 1 == data << 6
    ensures data < 32 ==> data << 4 < 512
    ensures data << 1 < 2048 && data << 2 < 2048 && data << 3 < 2048 && data << 4 < 2048 && data << 5 < 2048
    ensures data < 32 ==> data << 1 < 512 && data << 2 < 512 && data << 3 < 512
  {
  }

  /** The quotient of the last rounds, bit by bit. */
  lemma FormatQuotient(data: bv18, r5: bv18, r6: bv18, r7: bv18, r8: bv18, r9: bv18, r10: bv18) returns (q: bv18)
    requires data < 32 && r5 == data << 5 && r6 == Round(FormatCode, r5) && r7 == Round(FormatCode, r6)
    requires r8 == Round(FormatCode, r7) && r9 == Round(FormatCode, r8) && r10 == Round(FormatCode, r9)
    ensures q < 32 && WithRemainder(FormatCode, data, r10) == Product(FormatCode, q) && r10 < 1024
  {
    q := ((r5 >> 9) << 4) | ((r6 >> 9) << 3) | ((r7 >> 9) << 2) | ((r8 >> 9) << 1) | (r9 >> 9);
  }

  lemma VersionQuotient(data: bv18, r6: bv18, r7: bv18, r8: bv18, r9: bv18, r10: bv18, r11: bv18, r12: bv18) returns (q: bv18)
    requires data < 64 && r6 == data << 6 && r7 == Round(VersionCode, r6) && r8 == Round(VersionCode, r7)
    requires r9 == Round(VersionCode, r8) && r10 == Round(VersionCode, r9)
    requires r11 == Round(VersionCode, r10) && r12 == Round(VersionCode, r11)
    ensures q < 64 && WithRemainder(VersionCode, data, r12) == Product(VersionCode, q) && r12 < 4096
  {
    q := ((r6 >> 11) << 5) | ((r7 >> 11) << 4) | ((r8 >> 11) << 3) | ((r9 >> 11) << 2) | ((r10 >> 11) << 1) | (r11 >> 11);
  }

  /** The multiples of the generator that have no more than their number of bits. */
  ghost predicate IsCodeword(c: Code, word: bv18) {
    exists q :: q < DataLimit(c) && word == Product(c, q)
  }

  /** A codeword is a multiple of the generator. */
  lemma CodewordIsMultiple(c: Code, data: bv18)
    requires data < DataLimit(c)
    ensures IsCodeword(c, Codeword(c, data))
  {
    hide Codeword, Product, DataLimit;
    var _ := Quotient(c, data);
  }

  lemma Quotient(c: Code, data: bv18) returns (q: bv18)
    requires data < DataLimit(c)
    ensures q < DataLimit(c) && Codeword(c, data) == Product(c, q)
    ensures Remainder(c, data, Degree(c)) < if c == FormatCode then 1024 else 4096
  {
    hide Remainder, Round, Product, WithRemainder;
    FirstRounds(c, data);
    RoundsFrom(c, data, 5);
    if c == FormatCode {
      q := FormatQuotient(data, Remainder(c, data, 5), Remainder(c, data, 6), Remainder(c, data, 7), Remainder(c, data, 8),
                          Remainder(c, data, 9), Remainder(c, data, 10));
    } else {
      RoundsFrom(c, data, 10);
      q := VersionQuotient(data, Remainder(c, data, 6), Remainder(c, data, 7), Remainder(c, data, 8), Remainder(c, data, 9),
                           Remainder(c, data, 10), Remainder(c, data, 11), Remainder(c, data, 12));
    }
  }

  lemma RoundsFrom(c: Code, data: bv18, i: nat)
    ensures Remainder(c, data, i + 1) == Round(c, Remainder(c, data, i))
    ensures Remainder(c, data, i + 2) == Round(c, Remainder(c, data, i + 1))
    ensures Remainder(c, data, i + 3) == Round(c, Remainder(c, data, i + 2))
    ensures Remainder(c, data, i + 4) == Round(c, Remainder(c, data, i + 3))
    ensures Remainder(c, data, i + 5) == Round(c, Remainder(c, data, i + 4))
  {
    hide Round, Remainder;
    RemainderRound(c, data, i);
    RemainderRound(c, data, i + 1);
    RemainderRound(c, data, i + 2);
    RemainderRound(c, data, i + 3);
    RemainderRound(c, data, i + 4);
  }

  /** The upper bits of a word. */
  function Data(c: Code, word: bv18): bv18 {
    if c == FormatCode then word >> 10 else word >> 12
  }

  lemma DataOfWord(c: Code, data: bv18, rem: bv18)
    requires data < DataLimit(c) && rem < if c == FormatCode then 1024 else 4096
    ensures Data(c, WithRemainder(c, data, rem)) == data
  {
  }

  /** The data are read back from a codeword. */
  lemma DataOfCodeword(c: Code, data: bv18)
    requires data < DataLimit(c)
    ensures Data(c, Codeword(c, data)) == data
  {
    hide Remainder, WithRemainder, Product, Data;
    var _ := Quotient(c, data);
    DataOfWord(c, data, Remainder(c, data, Degree(c)));
  }

  lemma NoData(c: Code, q: bv18)
    requires q < DataLimit(c) && Data(c, Product(c, q)) == 0
    ensures q == 0
  {
  }

  lemma DataAdd(c: Code, x: bv18, y: bv18)
    ensures Xor(Data(c, x), Data(c, y)) == Data(c, Xor(x, y))
  {
    XorShifts(x, y, if c == FormatCode then 10 else 12);
  }

  /** Different multiples of the generator have different upper bits. */
  lemma SameData(c: Code, q: bv18, r: bv18)
    requires q < DataLimit(c) && r < DataLimit(c) && Data(c, Product(c, q)) == Data(c, Product(c, r))
    ensures q == r
  {
    hide Product, Data, Xor, DataLimit;
    ProductsAdd(c, q, r);
    DataAdd(c, Product(c, q), Product(c, r));
    XorLaws(Data(c, Product(c, q)));
    if q != r {
      Differ(c, q, r);
      NoData(c, Xor(q, r));
      assert false;
    }
  }

  /** The codeword of some data is the only multiple of the generator that has these data as its upper bits. */
  lemma {:induction false} CodewordIsOnlyMultiple(c: Code, word: bv18)
    requires IsCodeword(c, word) && Data(c, word) < DataLimit(c)
    ensures word == Codeword(c, Data(c, word))
  {
    hide Product, Data, Codeword, DataLimit;
    var data := Data(c, word);
    var q :| q < DataLimit(c) && word == Product(c, q);
    var r := Quotient(c, data);
    DataOfCodeword(c, data);
    SameData(c, q, r);
  }

  // ---- Distance

  /** The first n bits of a word, lowest first. */
  function BitList(x: bv18, n: nat): (bits: seq<bool>)
    requires n <= 18
    ensures |bits| == n
  {
    seq(n, i requires 0 <= i < n => GetBit(x, i))
  }

  function One(x: bv18, i: nat): nat
    requires i < 18
  {
    if GetBit(x, i) then 1 else 0
  }

  function Ones(x: bv18, n: nat): nat
    requires n <= 18
  {
    if n == 0 then 0 else Ones(x, n - 1) + One(x, n - 1)
  }

  lemma BitOfXor(x: bv18, y: bv18, i: nat)
    requires i < 18
    ensures GetBit(Xor(x, y), i) == (GetBit(x, i) != GetBit(y, i))
  {
    XorShifts(x, y, i as bv5);
    LowXor(x >> i, y >> i);
  }

  lemma XorShifts(x: bv18, y: bv18, i: bv5)
    requires i < 18
    ensures (x ^ y) >> i == (x >> i) ^ (y >> i)
  {
  }

  lemma LowXor(x: bv18, y: bv18)
    ensures (x ^ y) & 1 != 0 <==> (x & 1 != 0) != (y & 1 != 0)
  {
  }

  lemma {:induction false} DistanceOfWords(x: bv18, y: bv18, n: nat)
    requires n <= 18
    ensures Distance(BitList(x, n), BitList(y, n)) == Ones(Xor(x, y), n)
  {
    hide GetBit, Xor;
    if n > 0 {
      DistanceOfWords(x, y, n - 1);
      BitOfXor(x, y, n - 1);
      assert BitList(x, n) == BitList(x, n - 1) + [GetBit(x, n - 1)];
      assert BitList(y, n) == BitList(y, n - 1) + [GetBit(y, n - 1)];
      DistanceSnoc(BitList(x, n - 1), BitList(y, n - 1), GetBit(x, n - 1), GetBit(y, n - 1));
    }
  }

  lemma Swap(a: bv18, b: bv18, c: bv18, d: bv18)
    ensures Xor(Xor(a, b), Xor(c, d)) == Xor(Xor(a, c), Xor(b, d))
  {
    hide Xor;
    XorAssociates(a, b, Xor(c, d));
    XorAssociates(b, c, d);
    XorCommutes(b, c);
    XorAssociates(c, b, d);
    XorAssociates(a, c, Xor(b, d));
  }

  lemma XorAssociates(x: bv18, y: bv18, z: bv18)
    ensures Xor(Xor(x, y), z) == Xor(x, Xor(y, z))
  {
  }

  lemma XorCommutes(x: bv18, y: bv18)
    ensures Xor(x, y) == Xor(y, x)
  {
  }

  lemma TermsAdd(c: Code, q: bv18, r: bv18, i: nat)
    requires i < 6
    ensures Xor(Term(c, q, i), Term(c, r, i)) == Term(c, Xor(q, r), i)
  {
    BitOfXor(q, r, i);
    hide GetBit, Xor;
    XorLaws(Term(c, q, i));
    XorLaws(Term(c, r, i));
  }

  lemma XorLaws(x: bv18)
    ensures Xor(x, x) == 0 && Xor(x, 0) == x && Xor(0, x) == x
  {
  }

  lemma ProductsAdd(c: Code, q: bv18, r: bv18)
    ensures Xor(Product(c, q), Product(c, r)) == Product(c, Xor(q, r))
  {
    hide Term, Xor;
    TermsAdd(c, q, r, 0);
    TermsAdd(c, q, r, 1);
    TermsAdd(c, q, r, 2);
    TermsAdd(c, q, r, 3);
    TermsAdd(c, q, r, 4);
    TermsAdd(c, q, r, 5);
    var q1, r1 := Xor(Term(c, q, 0), Term(c, q, 1)), Xor(Term(c, r, 0), Term(c, r, 1));
    Swap(Term(c, q, 0), Term(c, q, 1), Term(c, r, 0), Term(c, r, 1));
    var q2, r2 := Xor(q1, Term(c, q, 2)), Xor(r1, Term(c, r, 2));
    Swap(q1, Term(c, q, 2), r1, Term(c, r, 2));
    var q3, r3 := Xor(q2, Term(c, q, 3)), Xor(r2, Term(c, r, 3));
    Swap(q2, Term(c, q, 3), r2, Term(c, r, 3));
    var q4, r4 := Xor(q3, Term(c, q, 4)), Xor(r3, Term(c, r, 4));
    Swap(q3, Term(c, q, 4), r3, Term(c, r, 4));
    Swap(q4, Term(c, q, 5), r4, Term(c, r, 5));
  }

  lemma Differ(c: Code, q: bv18, r: bv18)
    requires q < DataLimit(c) && r < DataLimit(c) && q != r
    ensures 0 < Xor(q, r) < DataLimit(c)
  {
  }

  function FirstOnes(x: bv18): nat {
    One(x, 0) + One(x, 1) + One(x, 2) + One(x, 3) + One(x, 4) + One(x, 5) + One(x, 6) + One(x, 7)
    + One(x, 8) + One(x, 9) + One(x, 10) + One(x, 11) + One(x, 12) + One(x, 13) + One(x, 14)
  }

  lemma HeavyProducts(q: bv18)
    requires 0 < q
    ensures q < 32 ==> FirstOnes(Product(FormatCode, q)) >= 7
    ensures q < 64 ==> var x := Product(VersionCode, q); FirstOnes(x) + One(x, 15) + One(x, 16) + One(x, 17) >= 8
  {
  }

  lemma OnesAdd(x: bv18)
    ensures Ones(x, 15) == FirstOnes(x) && Ones(x, 18) == FirstOnes(x) + One(x, 15) + One(x, 16) + One(x, 17)
  {
    hide One, Ones;
    OnesNext(x, 0, 5);
    OnesNext(x, 5, 5);
    OnesNext(x, 10, 5);
    OnesNext(x, 15, 3);
    assert Ones(x, 0) == 0 by { NoOnes(x); }
  }

  lemma NoOnes(x: bv18)
    ensures Ones(x, 0) == 0
  {
  }

  lemma OnesNext(x: bv18, n: nat, count: nat)
    requires count <= 5 && n + count <= 18
    ensures count >= 1 ==> Ones(x, n + 1) == Ones(x, n) + One(x, n)
    ensures count >= 2 ==> Ones(x, n + 2) == Ones(x, n + 1) + One(x, n + 1)
    ensures count >= 3 ==> Ones(x, n + 3) == Ones(x, n + 2) + One(x, n + 2)
    ensures count >= 4 ==> Ones(x, n + 4) == Ones(x, n + 3) + One(x, n + 3)
    ensures count >= 5 ==> Ones(x, n + 5) == Ones(x, n + 4) + One(x, n + 4)
  {
    hide One;
  }

  lemma HeavyProduct(c: Code, q: bv18)
    requires 0 < q < DataLimit(c)
    ensures Ones(Product(c, q), Length(c)) >= MinimumDistance(c)
  {
    hide Product, Ones, One, FirstOnes;
    HeavyProducts(q);
    OnesAdd(Product(c, q));
  }

  /** Codewords of different data differ in at least 7 of their 15 bits, or 8 of 18, also when both are masked. */
  lemma CodewordsApart(c: Code, a: bv18, b: bv18, mask: bv18)
    requires a < DataLimit(c) && b < DataLimit(c) && a != b
    ensures Distance(BitList(Xor(Codeword(c, a), mask), Length(c)), BitList(Xor(Codeword(c, b), mask), Length(c))) >= MinimumDistance(c)
  {
    hide Product, Codeword, Data, Ones, BitList, DataLimit, MinimumDistance, Xor;
    var q := Quotient(c, a);
    var r := Quotient(c, b);
    DataOfCodeword(c, a);
    DataOfCodeword(c, b);
    ProductsAdd(c, q, r);
    Differ(c, q, r);
    HeavyProduct(c, Xor(q, r));
    MasksCancel(Codeword(c, a), Codeword(c, b), mask);
    DistanceOfWords(Xor(Codeword(c, a), mask), Xor(Codeword(c, b), mask), Length(c));
  }

  lemma MasksCancel(x: bv18, y: bv18, mask: bv18)
    ensures Xor(Xor(x, mask), Xor(y, mask)) == Xor(x, y)
  {
    hide Xor;
    Swap(x, mask, y, mask);
    XorLaws(mask);
    XorLaws(Xor(x, y));
  }

  /** Up to three wrong bits leave no doubt about the data. */
  lemma Corrects(c: Code, a: bv18, b: bv18, mask: bv18, received: seq<bool>)
    requires a < DataLimit(c) && b < DataLimit(c) && |received| == Length(c)
    requires Distance(BitList(Xor(Codeword(c, a), mask), Length(c)), received) <= 3
    requires Distance(received, BitList(Xor(Codeword(c, b), mask), Length(c))) <= 3
    ensures a == b
  {
    hide Codeword, BitList, Xor;
    DistanceTriangle(BitList(Xor(Codeword(c, a), mask), Length(c)), received, BitList(Xor(Codeword(c, b), mask), Length(c)));
    if a != b {
      CodewordsApart(c, a, b, mask);
      assert false;
    }
  }
}
