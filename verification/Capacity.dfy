/** The number of modules left for data is exactly the closed formula of getNumRawDataModules, for all 40 versions. */
module Capacity {
  import opened CodewordPlacement
  import opened FunctionPatterns
  import opened Grids
  import opened Versions
  import opened Zigzag

  // ---- Sizes of products and intervals

  function Product(xs: set<nat>, ys: set<nat>): set<Coord> {
    set x, y | x in xs && y in ys :: Coord(x, y)
  }

  lemma {:induction false} ColumnSize(x: nat, ys: set<nat>)
    ensures |Product({x}, ys)| == |ys|
    decreases ys
  {
    if ys != {} {
      var y :| y in ys;
      ColumnSize(x, ys - {y});
      assert Product({x}, ys) == Product({x}, ys - {y}) + {Coord(x, y)};
    }
  }

  lemma {:induction false} ProductSize(xs: set<nat>, ys: set<nat>)
    ensures |Product(xs, ys)| == |xs| * |ys|
    decreases xs
  {
    if xs != {} {
      var x :| x in xs;
      var rest := xs - {x};
      hide Product;
      ProductSize(rest, ys);
      ColumnSize(x, ys);
      SplitProduct(xs, x, ys);
      OneMore(|rest|, |ys|);
    }
  }

  lemma SplitProduct(xs: set<nat>, x: nat, ys: set<nat>)
    requires x in xs
    ensures |Product(xs, ys)| == |Product(xs - {x}, ys)| + |Product({x}, ys)| && |xs| == |xs - {x}| + 1
  {
    assert Product(xs, ys) == Product(xs - {x}, ys) + Product({x}, ys);
    assert Product(xs - {x}, ys) !! Product({x}, ys);
  }

  lemma OneMore(a: nat, b: nat)
    ensures (a + 1) * b == a * b + b
  {
  }

  function Interval(lo: nat, hi: nat): set<nat> {
    if lo >= hi then {} else Interval(lo, hi - 1) + {hi - 1}
  }

  lemma {:induction false} IntervalSize(lo: nat, hi: nat)
    requires lo <= hi
    ensures |Interval(lo, hi)| == hi - lo
    ensures forall x: nat :: x in Interval(lo, hi) <==> lo <= x < hi
  {
    if lo < hi {
      IntervalSize(lo, hi - 1);
    }
  }

  /** The coordinates within 2 of the alignment positions lo, ..., hi - 1. */
  function AlignCover(version: nat, lo: nat, hi: nat): set<nat>
    requires ValidVersion(version) && lo <= hi <= NumAlign(version)
  {
    if lo == hi then {}
    else
      AlignPosInside(version, hi - 1);
      AlignCover(version, lo, hi - 1) + Interval(AlignPos(version, hi - 1) - 2, AlignPos(version, hi - 1) + 3)
  }

  lemma {:induction false} AlignCoverMember(version: nat, lo: nat, hi: nat, x: nat)
    requires ValidVersion(version) && lo <= hi <= NumAlign(version)
    ensures x in AlignCover(version, lo, hi) <==> exists i: nat :: lo <= i < hi && Near(AlignPos(version, i), x)
  {
    hide AlignPos, NumAlign, Interval;
    if lo < hi {
      AlignPosInside(version, hi - 1);
      IntervalSize(AlignPos(version, hi - 1) - 2, AlignPos(version, hi - 1) + 3);
      AlignCoverMember(version, lo, hi - 1, x);
    }
  }

  lemma {:induction false} AlignCoverSize(version: nat, lo: nat, hi: nat)
    requires ValidVersion(version) && lo <= hi <= NumAlign(version)
    ensures |AlignCover(version, lo, hi)| == 5 * (hi - lo)
  {
    hide AlignPos, NumAlign, Interval, Near;
    if lo < hi {
      AlignCoverSize(version, lo, hi - 1);
      AlignPosInside(version, hi - 1);
      var last := Interval(AlignPos(version, hi - 1) - 2, AlignPos(version, hi - 1) + 3);
      IntervalSize(AlignPos(version, hi - 1) - 2, AlignPos(version, hi - 1) + 3);
      forall x | x in AlignCover(version, lo, hi - 1) ensures x !in last {
        AlignCoverMember(version, lo, hi - 1, x);
        var i: nat :| lo <= i < hi - 1 && Near(AlignPos(version, i), x);
        AlignPosApart(version, i, hi - 1);
        NearFar(AlignPos(version, i), AlignPos(version, hi - 1), x);
      }
    }
  }

  lemma NearFar(p: int, q: int, x: int)
    requires Near(p, x) && q >= p + 12
    ensures x < q - 2
  {
  }

  lemma InProduct(xs: set<nat>, ys: set<nat>, c: Coord)
    ensures c in Product(xs, ys) <==> c.x in xs && c.y in ys
  {
  }

  lemma DisjointProducts(a: set<nat>, b: set<nat>, c: set<nat>, d: set<nat>)
    requires a !! c || b !! d
    ensures Product(a, b) !! Product(c, d)
  {
    hide Product;
    forall e | e in Product(a, b) ensures e !in Product(c, d) {
      InProduct(a, b, e);
      InProduct(c, d, e);
    }
  }

  // ---- The function modules as disjoint products

  function FinderSet(n: nat): set<Coord>
    requires ValidSize(n)
  {
    Product(Interval(0, 9), Interval(0, 9))
    + Product(Interval(n - 8, n), Interval(0, 9))
    + Product(Interval(0, 9), Interval(n - 8, n))
  }

  function TimingSet(n: nat): set<Coord>
    requires ValidSize(n)
  {
    Product(Interval(6, 7), Interval(9, n - 8)) + Product(Interval(9, n - 8), Interval(6, 7))
  }

  lemma FinderMember(n: nat, c: Coord)
    requires ValidSize(n) && InGrid(c, n)
    ensures c in FinderSet(n) <==> IsFinderArea(n, c.x, c.y)
  {
    hide Interval, Product;
    IntervalSize(0, 9);
    IntervalSize(n - 8, n);
    InProduct(Interval(0, 9), Interval(0, 9), c);
    InProduct(Interval(n - 8, n), Interval(0, 9), c);
    InProduct(Interval(0, 9), Interval(n - 8, n), c);
  }

  lemma TimingMember(n: nat, c: Coord)
    requires ValidSize(n) && InGrid(c, n)
    ensures c in TimingSet(n) <==> IsTiming(c.x, c.y) && !IsFinderArea(n, c.x, c.y)
  {
    hide Interval, Product;
    IntervalSize(6, 7);
    IntervalSize(9, n - 8);
    InProduct(Interval(6, 7), Interval(9, n - 8), c);
    InProduct(Interval(9, n - 8), Interval(6, 7), c);
  }

  lemma FinderSize(n: nat)
    requires ValidSize(n)
    ensures |FinderSet(n)| == 225
  {
    hide Interval, Product;
    var a, b := Interval(0, 9), Interval(n - 8, n);
    IntervalSize(0, 9);
    IntervalSize(n - 8, n);
    ProductSize(a, a);
    ProductSize(b, a);
    ProductSize(a, b);
    DisjointProducts(a, a, b, a);
    DisjointProducts(a, a, a, b);
    DisjointProducts(b, a, a, b);
    UnionSize(Product(a, a), Product(b, a), Product(a, b));
  }

  lemma TimingSize(n: nat)
    requires ValidSize(n)
    ensures |TimingSet(n)| == 2 * (n - 17)
  {
    hide Interval, Product;
    var six, mid := Interval(6, 7), Interval(9, n - 8);
    IntervalSize(6, 7);
    IntervalSize(9, n - 8);
    ProductSize(six, mid);
    ProductSize(mid, six);
    DisjointProducts(six, mid, mid, six);
    UnionSize(Product(six, mid), Product(mid, six), {});
  }

  lemma UnionSize(p: set<Coord>, q: set<Coord>, r: set<Coord>)
    requires p !! q && p !! r && q !! r
    ensures |p + q + r| == |p| + |q| + |r| && |p + q| == |p| + |q|
  {
    assert |(p + q) + r| == |p + q| + |r|;
  }

  /** Beside the timing line, an alignment pattern centred on it covers these coordinates. */
  const FLANKS: set<nat> := {4, 5, 7, 8}

  /** The alignment patterns without the modules that timing patterns already cover. */
  function AlignmentSet(version: nat): set<Coord>
    requires ValidVersion(version) && version > 1
  {
    var k := NumAlign(version);
    var inner, middle := AlignCover(version, 1, k), AlignCover(version, 1, k - 1);
    Product(inner, inner) + Product(FLANKS, middle) + Product(middle, FLANKS)
  }

  lemma AlignmentMember(version: nat, c: Coord)
    requires ValidVersion(version) && version > 1 && !IsTiming(c.x, c.y)
    ensures c in AlignmentSet(version) <==> IsAlignment(version, c.x, c.y)
  {
    hide AlignmentSet, InAlignment, IsTiming;
    if c in AlignmentSet(version) {
      var i, j := AlignmentOf(version, c);
    }
    if IsAlignment(version, c.x, c.y) {
      var i: nat, j: nat :| i < NumAlign(version) && j < NumAlign(version) && InAlignment(version, i, j, c.x, c.y);
      AlignmentInSet(version, i, j, c);
    }
  }

  lemma AlignmentInSet(version: nat, i: nat, j: nat, c: Coord)
    requires ValidVersion(version) && version > 1 && !IsTiming(c.x, c.y)
    requires i < NumAlign(version) && j < NumAlign(version) && InAlignment(version, i, j, c.x, c.y)
    ensures c in AlignmentSet(version)
  {
    var k := NumAlign(version);
    assert c.x in FLANKS <==> Near(AlignPos(version, 0), c.x);
    assert c.y in FLANKS <==> Near(AlignPos(version, 0), c.y);
    assert k >= 2;
    hide AlignPos, NumAlign, Near, AlignCover, Product, IsTiming;
    AlignCoverMember(version, 1, k, c.x);
    AlignCoverMember(version, 1, k, c.y);
    AlignCoverMember(version, 1, k - 1, c.x);
    AlignCoverMember(version, 1, k - 1, c.y);
    InProduct(AlignCover(version, 1, k), AlignCover(version, 1, k), c);
    InProduct(FLANKS, AlignCover(version, 1, k - 1), c);
    InProduct(AlignCover(version, 1, k - 1), FLANKS, c);
  }

  /** The alignment pattern that a module of the set belongs to. */
  lemma AlignmentOf(version: nat, c: Coord) returns (i: nat, j: nat)
    requires ValidVersion(version) && version > 1 && c in AlignmentSet(version)
    ensures i < NumAlign(version) && j < NumAlign(version) && InAlignment(version, i, j, c.x, c.y)
  {
    var k := NumAlign(version);
    assert c.x in FLANKS ==> Near(AlignPos(version, 0), c.x);
    assert c.y in FLANKS ==> Near(AlignPos(version, 0), c.y);
    assert k >= 2;
    hide AlignPos, NumAlign, Near, AlignCover, Product;
    InProduct(AlignCover(version, 1, k), AlignCover(version, 1, k), c);
    InProduct(FLANKS, AlignCover(version, 1, k - 1), c);
    InProduct(AlignCover(version, 1, k - 1), FLANKS, c);
    AlignCoverMember(version, 1, k, c.x);
    AlignCoverMember(version, 1, k, c.y);
    AlignCoverMember(version, 1, k - 1, c.x);
    AlignCoverMember(version, 1, k - 1, c.y);
    if c in Product(FLANKS, AlignCover(version, 1, k - 1)) {
      i := 0;
      j :| 1 <= j < k - 1 && Near(AlignPos(version, j), c.y);
    } else if c in Product(AlignCover(version, 1, k - 1), FLANKS) {
      j := 0;
      i :| 1 <= i < k - 1 && Near(AlignPos(version, i), c.x);
    } else {
      i :| 1 <= i < k && Near(AlignPos(version, i), c.x);
      j :| 1 <= j < k && Near(AlignPos(version, j), c.y);
    }
  }

  lemma AlignmentSize(version: nat)
    requires ValidVersion(version) && version > 1
    ensures var k := NumAlign(version); |AlignmentSet(version)| == 25 * (k - 1) * (k - 1) + 40 * (k - 2)
  {
    assert NumAlign(version) >= 2;
    FlanksSize();
    hide AlignPos, NumAlign, AlignCover, Product;
    var k := NumAlign(version);
    var inner, middle := AlignCover(version, 1, k), AlignCover(version, 1, k - 1);
    AlignCoverSize(version, 1, k);
    AlignCoverSize(version, 1, k - 1);
    ProductSize(inner, inner);
    ProductSize(FLANKS, middle);
    ProductSize(middle, FLANKS);
    AlignmentProductsDisjoint(version);
    UnionSize(Product(inner, inner), Product(FLANKS, middle), Product(middle, FLANKS));
    AlignmentArea(k, |inner|, |middle|);
  }

  lemma FlanksSize()
    ensures |FLANKS| == 4
  {
  }

  lemma AlignmentArea(k: nat, inner: nat, middle: nat)
    requires k >= 2 && inner == 5 * (k - 1) && middle == 5 * (k - 2)
    ensures inner * inner + 4 * middle + middle * 4 == 25 * (k - 1) * (k - 1) + 40 * (k - 2)
  {
    assert (5 * (k - 1)) * (5 * (k - 1)) == 25 * (k - 1) * (k - 1);
  }

  lemma AlignmentProductsDisjoint(version: nat)
    requires ValidVersion(version) && NumAlign(version) >= 2
    ensures var k := NumAlign(version);
            var inner, middle := AlignCover(version, 1, k), AlignCover(version, 1, k - 1);
            Product(inner, inner) !! Product(FLANKS, middle) && Product(inner, inner) !! Product(middle, FLANKS)
            && Product(FLANKS, middle) !! Product(middle, FLANKS)
  {
    hide NumAlign, AlignCover, Product;
    var k := NumAlign(version);
    var inner, middle := AlignCover(version, 1, k), AlignCover(version, 1, k - 1);
    forall x | x in inner ensures x !in FLANKS {
      AlignCoverRange(version, 1, k, x);
    }
    forall x | x in middle ensures x !in FLANKS {
      AlignCoverRange(version, 1, k - 1, x);
    }
    DisjointProducts(inner, inner, FLANKS, middle);
    DisjointProducts(inner, inner, middle, FLANKS);
    DisjointProducts(FLANKS, middle, middle, FLANKS);
  }

  lemma AlignCoverRange(version: nat, lo: nat, hi: nat, x: nat)
    requires ValidVersion(version) && 1 <= lo <= hi <= NumAlign(version) && x in AlignCover(version, lo, hi)
    ensures 16 <= x <= SizeOf(version) - 5
    ensures hi < NumAlign(version) ==> x <= SizeOf(version) - 21
  {
    AlignCoverMember(version, lo, hi, x);
    var i: nat :| lo <= i < hi && Near(AlignPos(version, i), x);
    AlignPosFacts(version, i);
  }

  function VersionSet(n: nat): set<Coord>
    requires ValidSize(n)
  {
    Product(Interval(n - 11, n - 8), Interval(0, 6)) + Product(Interval(0, 6), Interval(n - 11, n - 8))
  }

  lemma VersionMember(version: nat, c: Coord)
    requires 7 <= version <= 40 && InGrid(c, SizeOf(version))
    ensures c in VersionSet(SizeOf(version)) <==> IsVersionArea(version, c.x, c.y)
  {
    hide Interval, Product;
    var n := SizeOf(version);
    IntervalSize(0, 6);
    IntervalSize(n - 11, n - 8);
    InProduct(Interval(n - 11, n - 8), Interval(0, 6), c);
    InProduct(Interval(0, 6), Interval(n - 11, n - 8), c);
  }

  lemma VersionSize(n: nat)
    requires ValidSize(n)
    ensures n >= 45 ==> |VersionSet(n)| == 36
  {
    hide Interval, Product;
    if n >= 45 {
      var a, b := Interval(n - 11, n - 8), Interval(0, 6);
      IntervalSize(0, 6);
      IntervalSize(n - 11, n - 8);
      ProductSize(a, b);
      ProductSize(b, a);
      DisjointProducts(a, b, b, a);
      UnionSize(Product(a, b), Product(b, a), {});
    }
  }

  // ---- Counting the rest of the grid

  function AlignmentPart(version: nat): set<Coord>
    requires ValidVersion(version)
  {
    if version > 1 then AlignmentSet(version) else {}
  }

  function VersionPart(version: nat): set<Coord>
    requires ValidVersion(version)
  {
    if version >= 7 then VersionSet(SizeOf(version)) else {}
  }

  function FunctionSet(version: nat): set<Coord>
    requires ValidVersion(version)
  {
    var n := SizeOf(version);
    (FinderSet(n) + TimingSet(n)) + AlignmentPart(version) + VersionPart(version)
  }

  lemma {:induction false} AlignmentRange(version: nat, c: Coord)
    requires ValidVersion(version) && c in AlignmentPart(version)
    ensures var n := SizeOf(version);
            InGrid(c, n) && !IsTiming(c.x, c.y) && !IsFinderArea(n, c.x, c.y) && !IsVersionArea(version, c.x, c.y)
  {
    var k := NumAlign(version);
    assert k >= 2;
    hide AlignCover, Product, NumAlign;
    var inner, middle := AlignCover(version, 1, k), AlignCover(version, 1, k - 1);
    InProduct(inner, inner, c);
    InProduct(FLANKS, middle, c);
    InProduct(middle, FLANKS, c);
    if c.x in inner { AlignCoverRange(version, 1, k, c.x); }
    if c.y in inner { AlignCoverRange(version, 1, k, c.y); }
    if c.x in middle { AlignCoverRange(version, 1, k - 1, c.x); }
    if c.y in middle { AlignCoverRange(version, 1, k - 1, c.y); }
  }

  lemma VersionRange(version: nat, c: Coord)
    requires ValidVersion(version) && c in VersionPart(version)
    ensures var n := SizeOf(version);
            InGrid(c, n) && !IsTiming(c.x, c.y) && !IsFinderArea(n, c.x, c.y) && IsVersionArea(version, c.x, c.y)
  {
    hide Interval, Product;
    var n := SizeOf(version);
    IntervalSize(0, 6);
    IntervalSize(n - 11, n - 8);
    InProduct(Interval(n - 11, n - 8), Interval(0, 6), c);
    InProduct(Interval(0, 6), Interval(n - 11, n - 8), c);
  }

  lemma FixedRange(version: nat, c: Coord)
    requires ValidVersion(version) && c in FinderSet(SizeOf(version)) + TimingSet(SizeOf(version))
    ensures var n := SizeOf(version); InGrid(c, n) && (IsTiming(c.x, c.y) || IsFinderArea(n, c.x, c.y))
  {
    hide Interval, Product;
    var n := SizeOf(version);
    IntervalSize(0, 9);
    IntervalSize(n - 8, n);
    IntervalSize(6, 7);
    IntervalSize(9, n - 8);
    InProduct(Interval(0, 9), Interval(0, 9), c);
    InProduct(Interval(n - 8, n), Interval(0, 9), c);
    InProduct(Interval(0, 9), Interval(n - 8, n), c);
    InProduct(Interval(6, 7), Interval(9, n - 8), c);
    InProduct(Interval(9, n - 8), Interval(6, 7), c);
  }

  lemma FunctionSetMember(version: nat, c: Coord)
    requires ValidVersion(version)
    ensures c in FunctionSet(version) ==> InGrid(c, SizeOf(version))
    ensures InGrid(c, SizeOf(version)) ==> (c in FunctionSet(version) <==> IsFunction(version, c.x, c.y))
  {
    hide FinderSet, TimingSet, AlignmentPart, VersionPart, IsTiming, IsFinderArea, IsAlignment, IsVersionArea, InGrid;
    var n := SizeOf(version);
    if c in FinderSet(n) + TimingSet(n) { FixedRange(version, c); }
    if c in AlignmentPart(version) { AlignmentRange(version, c); }
    if c in VersionPart(version) { VersionRange(version, c); }
    if InGrid(c, n) {
      FinderMember(n, c);
      TimingMember(n, c);
      AlignmentPartMember(version, c);
      VersionPartMember(version, c);
    }
  }

  lemma {:induction false} AlignmentPartMember(version: nat, c: Coord)
    requires ValidVersion(version) && InGrid(c, SizeOf(version))
    ensures c in AlignmentPart(version) ==> IsAlignment(version, c.x, c.y)
    ensures IsAlignment(version, c.x, c.y) ==> IsTiming(c.x, c.y) || c in AlignmentPart(version)
  {
    hide AlignmentSet, IsTiming, InAlignment;
    if c in AlignmentPart(version) {
      var i, j := AlignmentOf(version, c);
    }
    if version > 1 && !IsTiming(c.x, c.y) {
      AlignmentMember(version, c);
    }
  }

  lemma VersionPartMember(version: nat, c: Coord)
    requires ValidVersion(version) && InGrid(c, SizeOf(version))
    ensures c in VersionPart(version) <==> IsVersionArea(version, c.x, c.y)
  {
    hide VersionSet;
    if version >= 7 {
      VersionMember(version, c);
    }
  }

  lemma {:induction false} FunctionSetSize(version: nat)
    requires ValidVersion(version)
    ensures var n := SizeOf(version); n * n - |FunctionSet(version)| == GetNumRawDataModules(version)
  {
    hide FinderSet, TimingSet, AlignmentSet, VersionSet, NumAlign, IsTiming, IsFinderArea, IsVersionArea;
    var n := SizeOf(version);
    FinderSize(n);
    TimingSize(n);
    VersionSize(n);
    if version > 1 { AlignmentSize(version); }
    forall c | c in FinderSet(n) && c in TimingSet(n) ensures false {
      FixedRange(version, c);
      FinderMember(n, c);
      TimingMember(n, c);
    }
    PartsDisjoint(version);
    UnionSize(FinderSet(n), TimingSet(n), {});
    UnionSize(FinderSet(n) + TimingSet(n), AlignmentPart(version), VersionPart(version));
    CapacityFormula(version);
  }

  lemma {:induction false} PartsDisjoint(version: nat)
    requires ValidVersion(version)
    ensures var n := SizeOf(version);
            var fixed := FinderSet(n) + TimingSet(n);
            fixed !! AlignmentPart(version) && fixed !! VersionPart(version) && AlignmentPart(version) !! VersionPart(version)
  {
    hide FinderSet, TimingSet, AlignmentPart, VersionPart, IsTiming, IsFinderArea, IsVersionArea;
    var n := SizeOf(version);
    var fixed := FinderSet(n) + TimingSet(n);
    forall c | c in AlignmentPart(version) ensures c !in fixed && c !in VersionPart(version) {
      AlignmentRange(version, c);
      if c in fixed { FixedRange(version, c); }
      if c in VersionPart(version) { VersionRange(version, c); }
    }
    forall c | c in VersionPart(version) ensures c !in fixed {
      VersionRange(version, c);
      if c in fixed { FixedRange(version, c); }
    }
  }

  lemma CapacityFormula(version: nat)
    requires ValidVersion(version)
    ensures var n, k := SizeOf(version), NumAlign(version);
            n * n - 225 - 2 * (n - 17)
            - (if version > 1 then 25 * (k - 1) * (k - 1) + 40 * (k - 2) else 0)
            - (if version >= 7 then 36 else 0)
            == GetNumRawDataModules(version)
  {
    var n, k := SizeOf(version), NumAlign(version);
    assert n * n == (16 * version + 136) * version + 289;
    if version > 1 {
      assert k == version / 7 + 2;
      assert 25 * (k - 1) * (k - 1) == 25 * (k * k) - 50 * k + 25;
      assert (25 * k - 10) * k == 25 * (k * k) - 10 * k;
    }
  }

  function Elements(cs: seq<Coord>): set<Coord> {
    set c | c in cs
  }

  lemma {:induction false} DistinctSize(cs: seq<Coord>)
    requires Distinct(cs)
    ensures |Elements(cs)| == |cs|
  {
    if cs != [] {
      var n := |cs| - 1;
      DistinctSize(cs[..n]);
      assert Elements(cs) == Elements(cs[..n]) + {cs[n]};
    }
  }

  function WholeGrid(n: nat): set<Coord> {
    Product(Interval(0, n), Interval(0, n))
  }

  lemma WholeGridSize(n: nat)
    ensures |WholeGrid(n)| == n * n
    ensures forall c :: c in WholeGrid(n) <==> InGrid(c, n)
  {
    IntervalSize(0, n);
    ProductSize(Interval(0, n), Interval(0, n));
    forall c ensures c in WholeGrid(n) <==> InGrid(c, n) {
      InProduct(Interval(0, n), Interval(0, n), c);
    }
  }

  /** The scan finds exactly the free modules, and there are as many as the formula says. */
  lemma CapacityTheorem(version: nat)
    requires ValidVersion(version)
    ensures |AllDataCoords(FunctionModules(version), SizeOf(version))| == GetNumRawDataModules(version)
    ensures forall c :: c in AllDataCoords(FunctionModules(version), SizeOf(version))
                   <==> InGrid(c, SizeOf(version)) && !IsFunction(version, c.x, c.y)
  {
    hide FunctionSet, WholeGrid, AllDataCoords, IsFunction, GetNumRawDataModules, SizeOf;
    var n, f := SizeOf(version), FunctionModules(version);
    var cs := AllDataCoords(f, n);
    forall c ensures c in cs <==> InGrid(c, n) && !IsFunction(version, c.x, c.y) {
      DataCoordMember(version, c);
    }
    DistinctSize(cs);
    WholeGridSize(n);
    forall c ensures c in FunctionSet(version) ==> c in WholeGrid(n) {
      FunctionSetMember(version, c);
    }
    forall c ensures c in Elements(cs) <==> c in WholeGrid(n) - FunctionSet(version) {
      FunctionSetMember(version, c);
    }
    assert Elements(cs) == WholeGrid(n) - FunctionSet(version);
    FunctionSetSize(version);
    assert FunctionSet(version) <= WholeGrid(n);
    ComplementSize(WholeGrid(n), FunctionSet(version));
  }

  lemma ComplementSize(a: set<Coord>, b: set<Coord>)
    requires b <= a
    ensures |a - b| == |a| - |b|
  {
    assert a == (a - b) + b;
  }

  lemma {:induction false} DataCoordMember(version: nat, c: Coord)
    requires ValidVersion(version)
    ensures c in AllDataCoords(FunctionModules(version), SizeOf(version))
       <==> InGrid(c, SizeOf(version)) && !IsFunction(version, c.x, c.y)
  {
    var n, f := SizeOf(version), FunctionModules(version);
    assert forall y :: 0 <= y < n ==> f[y][6];
    hide IsFunction, DataCoords, StepOf, Steps;
    DataCoordsShape(f, n, Steps(n));
    if InGrid(c, n) && !IsFunction(version, c.x, c.y) {
      assert !f[c.y][c.x];
      assert c.x != 6;
      VisitStep(n, c);
      FreeModuleUsed(f, n, c, Steps(n));
    }
  }
}
