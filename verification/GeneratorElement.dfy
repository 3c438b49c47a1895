/** The element 2 generates the multiplicative group of the field, so the field has no zero divisors. */
module GeneratorElement {
  import opened Arithmetic
  import opened GaloisField

  /** The powers of the generator r = 2. */
  function Alpha(k: nat): bv8 {
    if k == 0 then 1 else Xtime(Alpha(k - 1))
  }

  lemma {:induction false} AlphaSum(a: nat, b: nat)
    ensures Alpha(a + b) == Mul(Alpha(a), Alpha(b))
  {
    hide Mul, Xtime;
    if b == 0 {
      MulUnits(Alpha(a));
    } else {
      AlphaSum(a, b - 1);
      assert a + b - 1 == a + (b - 1);
      MulUnits(Alpha(b - 1));
      MulUnits(Mul(Alpha(a), Alpha(b - 1)));
      MulAssoc(Alpha(a), Alpha(b - 1), 2);
    }
  }

  lemma {:induction false} AlphaNonZero(k: nat)
    ensures Alpha(k) != 0
  {
    if k > 0 {
      AlphaNonZero(k - 1);
      XtimeZero(Alpha(k - 1));
      hide Xtime;
    }
  }

  /** Multiplication by a power of the generator is injective. */
  lemma {:induction false} MulAlphaZero(k: nat, y: bv8)
    requires Mul(Alpha(k), y) == 0
    ensures y == 0
  {
    hide Mul, Xtime;
    MulUnits(y);
    if k > 0 {
      MulXtime(Alpha(k - 1), y);
      XtimeZero(Mul(Alpha(k - 1), y));
      MulAlphaZero(k - 1, y);
    }
  }

  // ---- The order of the generator is 255

  lemma AlphaQuotient(a: nat, b: nat)
    requires a <= b && Alpha(a) == Alpha(b)
    ensures Alpha(b - a) == 1
  {
    hide Mul, Xtime, Add;
    var q := Alpha(b - a);
    AlphaSum(a, b - a);
    MulUnits(Alpha(a));
    MulDistrib(q, 1, Alpha(a));
    AddLaws(Alpha(b), Alpha(a), 0);
    AddLaws(q, 1, 0);
    MulAlphaZero(a, Add(q, 1));
  }

  /** Exponents that give 1 are closed under greatest common divisors. */
  lemma {:induction false} CommonExponent(a: nat, b: nat) returns (g: nat)
    requires a > 0 && b > 0 && Alpha(a) == 1 && Alpha(b) == 1
    ensures 0 < g <= b && a % g == 0 && b % g == 0 && Alpha(g) == 1
    decreases a + b
  {
    hide Xtime;
    if a == b {
      g := a;
    } else if a > b {
      AlphaQuotient(b, a);
      g := CommonExponent(a - b, b);
      DividesSum(a - b, b, g);
    } else {
      AlphaQuotient(a, b);
      g := CommonExponent(a, b - a);
      DividesSum(b - a, a, g);
    }
  }

  function Five(z: bv8): bv8 {
    Xtime(Xtime(Xtime(Xtime(Xtime(z)))))
  }

  function Fifteen(z: bv8): bv8 {
    Five(Five(Five(z)))
  }

  lemma Alpha5(k: nat)
    ensures Alpha(k + 5) == Five(Alpha(k))
  {
    assert Alpha(k + 5) == Xtime(Alpha(k + 4)) && Alpha(k + 4) == Xtime(Alpha(k + 3));
    assert Alpha(k + 3) == Xtime(Alpha(k + 2)) && Alpha(k + 2) == Xtime(Alpha(k + 1));
    hide Xtime;
  }

  lemma Alpha15(k: nat)
    ensures Alpha(k + 15) == Fifteen(Alpha(k))
  {
    hide Five;
    Alpha5(k);
    Alpha5(k + 5);
    Alpha5(k + 10);
  }

  lemma AlphaTable()
    ensures Alpha(255) == 1
    ensures Alpha(1) != 1 && Alpha(3) != 1 && Alpha(5) != 1 && Alpha(15) != 1
    ensures Alpha(17) != 1 && Alpha(51) != 1 && Alpha(85) != 1
  {
    Alpha15(0); assert Fifteen(0x01) == 0x26;
    Alpha15(15); assert Fifteen(0x26) == 0x60;
    Alpha15(30); assert Fifteen(0x60) == 0xC1;
    Alpha15(45); assert Fifteen(0xC1) == 0xB9;
    Alpha15(60); assert Fifteen(0xB9) == 0x0F;
    Alpha15(75); assert Fifteen(0x0F) == 0xDF;
    Alpha15(90); assert Fifteen(0xDF) == 0x1A;
    Alpha15(105); assert Fifteen(0x1A) == 0x3B;
    Alpha15(120); assert Fifteen(0x3B) == 0xA9;
    Alpha15(135); assert Fifteen(0xA9) == 0x55;
    Alpha15(150); assert Fifteen(0x55) == 0x91;
    Alpha15(165); assert Fifteen(0x91) == 0x96;
    Alpha15(180); assert Fifteen(0x96) == 0x64;
    Alpha15(195); assert Fifteen(0x64) == 0x59;
    Alpha15(210); assert Fifteen(0x59) == 0x24;
    Alpha15(225); assert Fifteen(0x24) == 0x2C;
    Alpha15(240); assert Fifteen(0x2C) == 0x01;
    assert Alpha(3) == 8;
    assert Alpha(5) == Five(1) by { Alpha5(0); }
    assert Alpha(17) == Xtime(Xtime(Alpha(15)));
    assert Alpha(51) == Xtime(Alpha(50)) && Alpha(50) == Five(Alpha(45)) by { Alpha5(45); }
    assert Alpha(85) == Five(Alpha(80)) && Alpha(80) == Five(Alpha(75)) by { Alpha5(75); Alpha5(80); }
  }

  /** The only proper divisors of 255. */
  lemma DivisorsOf255(g: nat)
    requires 0 < g < 255 && 255 % g == 0
    ensures g in {1, 3, 5, 15, 17, 51, 85}
  {
    var q := 255 / g;
    assert q * g == 255;
    if g > 15 {
      ProductOrder(q, 16, g);
      assert q < 16;
    }
  }

  /** No smaller power of the generator than the 255th is 1. */
  lemma AlphaOrder(k: nat)
    requires 0 < k < 255
    ensures Alpha(k) != 1
  {
    AlphaTable();
    hide Alpha;
    if Alpha(k) == 1 {
      var g := CommonExponent(255, k);
      DivisorsOf255(g);
      assert false;
    }
  }

  lemma AlphaDistinct(i: nat, j: nat)
    requires i < j < 255
    ensures Alpha(i) != Alpha(j)
  {
    AlphaOrder(j - i);
    if Alpha(i) == Alpha(j) {
      AlphaQuotient(i, j);
      assert false;
    }
  }

  // ---- Every non-zero element is a power of the generator

  function Number(x: bv8): int {
    x as int
  }

  lemma NumberFacts(x: bv8, y: bv8)
    ensures 0 <= Number(x) <= 255
    ensures Number(x) == 0 <==> x == 0
    ensures Number(x) == Number(y) <==> x == y
  {
  }

  /** The values of the first n powers, as numbers. */
  function PowerSet(n: nat): set<int> {
    if n == 0 then {} else PowerSet(n - 1) + {Number(Alpha(n - 1))}
  }

  lemma {:induction false} PowerSetMember(n: nat, v: int) returns (k: nat)
    requires v in PowerSet(n)
    ensures k < n && Number(Alpha(k)) == v
  {
    hide Number, Alpha;
    if v == Number(Alpha(n - 1)) {
      k := n - 1;
    } else {
      k := PowerSetMember(n - 1, v);
    }
  }

  lemma NewPower(n: nat)
    requires n < 255
    ensures Number(Alpha(n)) !in PowerSet(n)
  {
    hide Number, Alpha, PowerSet;
    if Number(Alpha(n)) in PowerSet(n) {
      var k := PowerSetMember(n, Number(Alpha(n)));
      NumberFacts(Alpha(k), Alpha(n));
      AlphaDistinct(k, n);
      assert false;
    }
  }

  lemma PowerInRange(n: nat)
    ensures Number(Alpha(n)) in Range(255)
  {
    hide Number, Alpha;
    AlphaNonZero(n);
    NumberFacts(Alpha(n), 0);
    assert Identity(Number(Alpha(n))) == Number(Alpha(n));
  }

  lemma {:induction false} PowerSetSize(n: nat)
    requires n <= 255
    ensures |PowerSet(n)| == n
    ensures PowerSet(n) <= Range(255)
  {
    hide Number, Alpha, Range;
    if n > 0 {
      PowerSetSize(n - 1);
      NewPower(n - 1);
      PowerInRange(n - 1);
    }
  }

  function Range(n: nat): set<int> {
    set v: int {:trigger Identity(v)} | 1 <= v <= n && Identity(v) == v
  }

  function Identity(v: int): int {
    v
  }

  lemma {:induction false} RangeSize(n: nat)
    ensures |Range(n)| == n
  {
    if n > 0 {
      RangeSize(n - 1);
      assert Identity(n) == n;
      assert Range(n) == Range(n - 1) + {n};
    }
  }

  lemma SubsetOfSameSize(a: set<int>, b: set<int>)
    requires a <= b && |a| == |b|
    ensures a == b
  {
    var c := b - a;
    assert a !! c && a + c == b;
    assert |c| == 0;
    assert c == {};
  }

  /** Every non-zero element is a power of 2 with exactly one exponent below 255. */
  lemma GeneratesField(x: bv8) returns (k: nat)
    requires x != 0
    ensures k < 255 && Alpha(k) == x
    ensures forall j: nat :: j < 255 && Alpha(j) == x ==> j == k
  {
    PowerSetSize(255);
    RangeSize(255);
    SubsetOfSameSize(PowerSet(255), Range(255));
    NumberFacts(x, 0);
    hide Number, Alpha, PowerSet;
    assert Identity(Number(x)) == Number(x);
    k := PowerSetMember(255, Number(x));
    NumberFacts(Alpha(k), x);
    forall j: nat | j < 255 && Alpha(j) == x ensures j == k {
      if j < k { AlphaDistinct(j, k); } else if k < j { AlphaDistinct(k, j); }
    }
  }

  lemma NoZeroDivisors(x: bv8, y: bv8)
    requires Mul(x, y) == 0
    ensures x == 0 || y == 0
  {
    if x != 0 {
      var k := GeneratesField(x);
      MulAlphaZero(k, y);
    }
  }
}
