/** The colours of the function modules: drawLightFunctionModules turns the reserved area into the standard's patterns. */
module FunctionColours {
  import Bch = BchCodes
  import opened FunctionPatterns
  import opened Grids
  import opened Hamming
  import opened Versions

  // ---- The declarative pattern

  function Abs(a: int): nat {
    if a < 0 then -a else a
  }

  /** Chebyshev distance of an offset. */
  function Dist(dx: int, dy: int): nat {
    if Abs(dy) > Abs(dx) then Abs(dy) else Abs(dx)
  }

  /** Finder patterns and their separators. */
  predicate InFinderZone(n: nat, x: int, y: int) {
    (x < 8 && y < 8) || (x >= n - 8 && y < 8) || (x < 8 && y >= n - 8)
  }

  function FinderCentre(n: nat, a: int): int {
    if a < 8 then 3 else n - 4
  }

  predicate FinderDark(n: nat, x: int, y: int) {
    Dist(x - FinderCentre(n, x), y - FinderCentre(n, y)) !in {2, 4}
  }

  predicate RingOf(version: nat, i: nat, j: nat, x: int, y: int)
    requires ValidVersion(version) && i < NumAlign(version) && j < NumAlign(version)
  {
    !FinderCorner(NumAlign(version), i, j) && Dist(x - AlignPos(version, i), y - AlignPos(version, j)) == 1
  }

  /** The light ring of some alignment pattern. */
  ghost predicate InRing(version: nat, x: int, y: int)
    requires ValidVersion(version)
  {
    exists i: nat, j: nat :: i < NumAlign(version) && j < NumAlign(version) && RingOf(version, i, j, x, y)
  }

  /** The BCH codeword of the version number. */
  function VersionBits(version: nat): bv18
    requires ValidVersion(version)
  {
    Bch.Codeword(Bch.VersionCode, VersionWord(version))
  }

  function VersionWord(version: nat): bv18
    requires ValidVersion(version)
  {
    version as bv18
  }

  function ShiftedBits(bits: bv18, k: nat): bv18 {
    if k == 0 then bits else Halve(ShiftedBits(bits, k - 1))
  }

  function Halve(bits: bv18): bv18 {
    bits >> 1
  }

  predicate LowBit(bits: bv18) {
    bits & 1 != 0
  }

  predicate VersionBit(version: nat, k: nat)
    requires ValidVersion(version)
  {
    LowBit(ShiftedBits(VersionBits(version), k))
  }

  /** The colour of a function module; format bits are dark until they are drawn. */
  ghost predicate FunctionColour(version: nat, x: int, y: int)
    requires ValidVersion(version) && 0 <= x < SizeOf(version) && 0 <= y < SizeOf(version)
  {
    var n := SizeOf(version);
    if InFinderZone(n, x, y) then FinderDark(n, x, y)
    else if InRing(version, x, y) then false
    else if IsAlignment(version, x, y) then true
    else if x == 6 then y % 2 == 0
    else if y == 6 then x % 2 == 0
    else if IsVersionArea(version, x, y) then VersionBit(version, if y < 6 then 3 * y + (x - (n - 11)) else 3 * x + (y - (n - 11)))
    else true
  }

  // ---- What each write needs to know about the pattern

  lemma TimingColour(version: nat, k: nat)
    requires ValidVersion(version) && 7 <= k < SizeOf(version) - 7 && k % 2 == 1
    ensures IsFunction(version, 6, k) && !FunctionColour(version, 6, k)
    ensures IsFunction(version, k, 6) && !FunctionColour(version, k, 6)
  {
    hide NumAlign, AlignPos, IsVersionArea;
    if IsAlignment(version, 6, k) {
      var i: nat, j: nat :| i < NumAlign(version) && j < NumAlign(version) && InAlignment(version, i, j, 6, k);
      AlignPosFacts(version, i);
      AlignPosFacts(version, j);
      AlignPosFirst(version, i);
      assert RingOf(version, i, j, 6, k);
    }
    if IsAlignment(version, k, 6) {
      var i: nat, j: nat :| i < NumAlign(version) && j < NumAlign(version) && InAlignment(version, i, j, k, 6);
      AlignPosFacts(version, i);
      AlignPosFacts(version, j);
      AlignPosFirst(version, j);
      assert RingOf(version, i, j, k, 6);
    }
  }

  lemma AlignPosFirst(version: nat, i: nat)
    requires ValidVersion(version) && i < NumAlign(version) && AlignPos(version, i) < 18
    ensures i == 0 && AlignPos(version, i) == 6
  {
    AlignPosFacts(version, i);
  }

  lemma FinderColour(version: nat, x: int, y: int)
    requires ValidVersion(version) && 0 <= x < SizeOf(version) && 0 <= y < SizeOf(version) && InFinderZone(SizeOf(version), x, y)
    ensures IsFunction(version, x, y) && FunctionColour(version, x, y) == FinderDark(SizeOf(version), x, y)
  {
    hide FinderDark, InRing, IsAlignment, IsVersionArea;
  }

  /** An alignment pattern lies clear of the finder patterns. */
  lemma AlignmentClear(version: nat, i: nat, j: nat, x: int, y: int)
    requires ValidVersion(version) && i < NumAlign(version) && j < NumAlign(version)
    requires InAlignment(version, i, j, x, y)
    ensures 0 <= x < SizeOf(version) && 0 <= y < SizeOf(version) && !InFinderZone(SizeOf(version), x, y)
    ensures !IsVersionArea(version, x, y)
  {
    AlignPosFacts(version, i);
    AlignPosFacts(version, j);
    hide AlignPos;
  }

  lemma AlignPosUnique(version: nat, i: nat, j: nat, x: int)
    requires ValidVersion(version) && i < NumAlign(version) && j < NumAlign(version)
    requires Near(AlignPos(version, i), x) && Near(AlignPos(version, j), x)
    ensures i == j
  {
    hide AlignPos;
    if i < j { AlignPosApart(version, i, j); } else if j < i { AlignPosApart(version, j, i); }
  }

  lemma AlignmentColour(version: nat, i: nat, j: nat, dx: int, dy: int)
    requires ValidVersion(version) && i < NumAlign(version) && j < NumAlign(version)
    requires !FinderCorner(NumAlign(version), i, j) && -1 <= dx <= 1 && -1 <= dy <= 1
    ensures var x, y := AlignPos(version, i) + dx, AlignPos(version, j) + dy;
            0 <= x < SizeOf(version) && 0 <= y < SizeOf(version)
            && IsFunction(version, x, y) && FunctionColour(version, x, y) == (dx == 0 && dy == 0)
  {
    var x, y := AlignPos(version, i) + dx, AlignPos(version, j) + dy;
    hide NumAlign, AlignPos, SizeOf, InFinderZone, IsVersionArea, FinderDark, FinderCorner;
    assert InAlignment(version, i, j, x, y);
    AlignmentClear(version, i, j, x, y);
    assert IsAlignment(version, x, y);
    if dx == 0 && dy == 0 {
      if InRing(version, x, y) {
        var a: nat, b: nat :| a < NumAlign(version) && b < NumAlign(version) && RingOf(version, a, b, x, y);
        AlignPosUnique(version, i, a, x);
        AlignPosUnique(version, j, b, y);
        assert false;
      }
    } else {
      assert RingOf(version, i, j, x, y);
    }
  }

  lemma {:induction false} VersionColour(version: nat, i: nat, j: nat)
    requires 7 <= version <= 40 && i < 6 && j < 3
    ensures var k := SizeOf(version) - 11 + j;
            IsFunction(version, k, i) && FunctionColour(version, k, i) == VersionBit(version, 3 * i + j)
            && IsFunction(version, i, k) && FunctionColour(version, i, k) == VersionBit(version, 3 * i + j)
  {
    hide NumAlign, VersionBit, AlignPos;
    var k := SizeOf(version) - 11 + j;
    NoAlignmentInVersionArea(version, k, i);
    NoAlignmentInVersionArea(version, i, k);
  }

  lemma NoAlignmentInVersionArea(version: nat, x: int, y: int)
    requires ValidVersion(version) && IsVersionArea(version, x, y)
    ensures !IsAlignment(version, x, y) && !InRing(version, x, y)
  {
    hide NumAlign, AlignPos, IsVersionArea, InFinderZone;
    if IsAlignment(version, x, y) {
      var i: nat, j: nat :| i < NumAlign(version) && j < NumAlign(version) && InAlignment(version, i, j, x, y);
      AlignmentClear(version, i, j, x, y);
      assert false;
    }
    if InRing(version, x, y) {
      var i: nat, j: nat :| i < NumAlign(version) && j < NumAlign(version) && RingOf(version, i, j, x, y);
      AlignmentClear(version, i, j, x, y);
      assert false;
    }
  }

  // ---- Drawing

  /** The module shows the colour of the pattern. */
  ghost predicate Right(g: Grid, version: nat, x: int, y: int)
    requires ValidVersion(version) && Square(g, SizeOf(version))
  {
    0 <= x < SizeOf(version) && 0 <= y < SizeOf(version) && g[y][x] == FunctionColour(version, x, y)
  }

  /** Each module of h is as in g, or is a function module of the right colour. */
  ghost predicate Keeps(g: Grid, h: Grid, version: nat)
    requires ValidVersion(version)
  {
    var n := SizeOf(version);
    Square(g, n) && Square(h, n)
    && forall x, y :: 0 <= x < n && 0 <= y < n ==> h[y][x] == g[y][x] || (IsFunction(version, x, y) && Right(h, version, x, y))
  }

  /** Right modules of g are still right in h. */
  ghost predicate StaysRight(g: Grid, h: Grid, version: nat)
    requires ValidVersion(version)
  {
    var n := SizeOf(version);
    Square(g, n) && Square(h, n) && forall x, y :: Right(g, version, x, y) ==> Right(h, version, x, y)
  }

  lemma RightWrite(g0: Grid, g: Grid, version: nat, x: nat, y: nat)
    requires ValidVersion(version) && x < SizeOf(version) && y < SizeOf(version)
    requires IsFunction(version, x, y) && Keeps(g0, g, version)
    ensures var h := Set(g, SizeOf(version), x, y, FunctionColour(version, x, y));
            Keeps(g0, h, version) && StaysRight(g, h, version) && Right(h, version, x, y)
  {
    hide FunctionColour, IsFunction;
  }

  method SetFunctionModule(q: array<bv8>, version: nat, x: nat, y: nat, dark: bool, ghost g0: Grid)
    requires ValidVersion(version) && Sized(q[..], SizeOf(version)) && x < SizeOf(version) && y < SizeOf(version)
    requires IsFunction(version, x, y) && dark == FunctionColour(version, x, y)
    requires Keeps(g0, GridOf(q[..], SizeOf(version)), version)
    modifies q
    ensures Sized(q[..], SizeOf(version)) && Keeps(g0, GridOf(q[..], SizeOf(version)), version)
    ensures StaysRight(old(GridOf(q[..], SizeOf(version))), GridOf(q[..], SizeOf(version)), version)
    ensures Right(GridOf(q[..], SizeOf(version)), version, x, y)
  {
    hide GridOf, Set, BufferLen, Keeps, StaysRight, Right, FunctionColour, IsFunction;
    RightWrite(g0, GridOf(q[..], SizeOf(version)), version, x, y);
    SetModuleBounded(q, SizeOf(version), x, y, dark);
  }

  lemma StaysRightTransitive(g: Grid, h: Grid, k: Grid, version: nat)
    requires ValidVersion(version) && StaysRight(g, h, version) && StaysRight(h, k, version)
    ensures StaysRight(g, k, version)
  {
    hide Right;
  }

  lemma StaysRightSelf(g: Grid, version: nat)
    requires ValidVersion(version) && Square(g, SizeOf(version))
    ensures StaysRight(g, g, version) && Keeps(g, g, version)
  {
  }

  /** The light modules of the timing lines up to coordinate k. */
  ghost predicate TimingRight(g: Grid, version: nat, k: int)
    requires ValidVersion(version) && Square(g, SizeOf(version))
  {
    forall i :: 7 <= i < k && i % 2 == 1 ==> Right(g, version, 6, i) && Right(g, version, i, 6)
  }

  method DrawTiming(q: array<bv8>, version: nat, ghost g0: Grid)
    requires ValidVersion(version) && Sized(q[..], SizeOf(version)) && Keeps(g0, GridOf(q[..], SizeOf(version)), version)
    modifies q
    ensures Sized(q[..], SizeOf(version)) && Keeps(g0, GridOf(q[..], SizeOf(version)), version)
    ensures TimingRight(GridOf(q[..], SizeOf(version)), version, SizeOf(version) - 7)
  {
    hide GridOf, BufferLen, Keeps, Right, FunctionColour, IsFunction;
    var qrsize := SizeOf(version);
    var i := 7;
    while i < qrsize - 7
      invariant 7 <= i && i % 2 == 1
      invariant Sized(q[..], qrsize) && Keeps(g0, GridOf(q[..], qrsize), version)
      invariant TimingRight(GridOf(q[..], qrsize), version, i)
    {
      TimingColour(version, i);
      SetFunctionModule(q, version, 6, i, false, g0);
      SetFunctionModule(q, version, i, 6, false, g0);
      i := i + 2;
    }
  }

  /** The offsets (dx, dy) of light finder modules that come before (ex, ey) in the order of the loops. */
  predicate FinderOffset(dx: int, dy: int, ex: int, ey: int) {
    -4 <= dx <= 4 && -4 <= dy <= 4 && Dist(dx, dy) in {2, 4} && (dy < ey || (dy == ey && dx < ex))
  }

  ghost predicate RightIfInside(g: Grid, version: nat, x: int, y: int)
    requires ValidVersion(version) && Square(g, SizeOf(version))
  {
    0 <= x < SizeOf(version) && 0 <= y < SizeOf(version) ==> Right(g, version, x, y)
  }

  /** The module at one offset from each of the three finder centres. */
  ghost predicate OffsetRight(g: Grid, version: nat, dx: int, dy: int)
    requires ValidVersion(version) && Square(g, SizeOf(version))
  {
    var n := SizeOf(version);
    RightIfInside(g, version, 3 + dx, 3 + dy) && RightIfInside(g, version, n - 4 + dx, 3 + dy)
    && RightIfInside(g, version, 3 + dx, n - 4 + dy)
  }

  ghost predicate FindersRight(g: Grid, version: nat, ex: int, ey: int)
    requires ValidVersion(version) && Square(g, SizeOf(version))
  {
    forall dx, dy :: FinderOffset(dx, dy, ex, ey) ==> OffsetRight(g, version, dx, dy)
  }

  lemma FindersStayRight(g: Grid, h: Grid, version: nat, ex: int, ey: int)
    requires ValidVersion(version) && StaysRight(g, h, version) && FindersRight(g, version, ex, ey)
    ensures FindersRight(h, version, ex, ey)
  {
    hide Right, FinderOffset;
  }

  /** setModuleUnbounded on a light finder module: nothing happens outside the grid. */
  method SetFinderModule(q: array<bv8>, version: nat, x: int, y: int, ghost g0: Grid)
    requires ValidVersion(version) && Sized(q[..], SizeOf(version)) && Keeps(g0, GridOf(q[..], SizeOf(version)), version)
    requires 0 <= x < SizeOf(version) && 0 <= y < SizeOf(version) ==>
               InFinderZone(SizeOf(version), x, y) && !FinderDark(SizeOf(version), x, y)
    modifies q
    ensures Sized(q[..], SizeOf(version)) && Keeps(g0, GridOf(q[..], SizeOf(version)), version)
    ensures StaysRight(old(GridOf(q[..], SizeOf(version))), GridOf(q[..], SizeOf(version)), version)
    ensures RightIfInside(GridOf(q[..], SizeOf(version)), version, x, y)
  {
    hide GridOf, BufferLen, Keeps, Right, FunctionColour, IsFunction, StaysRight, InFinderZone, FinderDark;
    StaysRightSelf(GridOf(q[..], SizeOf(version)), version);
    if 0 <= x < SizeOf(version) && 0 <= y < SizeOf(version) {
      FinderColour(version, x, y);
      SetFunctionModule(q, version, x, y, false, g0);
    }
  }

  lemma FinderOffsets(n: nat, dx: int, dy: int)
    requires ValidSize(n) && -4 <= dx <= 4 && -4 <= dy <= 4 && Dist(dx, dy) in {2, 4}
    ensures 0 <= 3 + dx && 0 <= 3 + dy ==> InFinderZone(n, 3 + dx, 3 + dy) && !FinderDark(n, 3 + dx, 3 + dy)
    ensures n - 4 + dx < n && 0 <= 3 + dy ==> InFinderZone(n, n - 4 + dx, 3 + dy) && !FinderDark(n, n - 4 + dx, 3 + dy)
    ensures 0 <= 3 + dx && n - 4 + dy < n ==> InFinderZone(n, 3 + dx, n - 4 + dy) && !FinderDark(n, 3 + dx, n - 4 + dy)
  {
  }

  method DrawFinders(q: array<bv8>, version: nat, ghost g0: Grid)
    requires ValidVersion(version) && Sized(q[..], SizeOf(version)) && Keeps(g0, GridOf(q[..], SizeOf(version)), version)
    modifies q
    ensures Sized(q[..], SizeOf(version)) && Keeps(g0, GridOf(q[..], SizeOf(version)), version)
    ensures StaysRight(old(GridOf(q[..], SizeOf(version))), GridOf(q[..], SizeOf(version)), version)
    ensures FindersRight(GridOf(q[..], SizeOf(version)), version, -4, 5)
  {
    hide GridOf, BufferLen, Keeps, StaysRight, FindersRight;
    ghost var start := GridOf(q[..], SizeOf(version));
    var qrsize := SizeOf(version);
    StaysRightSelf(start, version);
    NoFinders(start, version);
    for dy := -4 to 5
      invariant Sized(q[..], qrsize) && Keeps(g0, GridOf(q[..], qrsize), version)
      invariant StaysRight(start, GridOf(q[..], qrsize), version) && FindersRight(GridOf(q[..], qrsize), version, -4, dy)
    {
      for dx := -4 to 5
        invariant Sized(q[..], qrsize) && Keeps(g0, GridOf(q[..], qrsize), version)
        invariant StaysRight(start, GridOf(q[..], qrsize), version) && FindersRight(GridOf(q[..], qrsize), version, dx, dy)
      {
        DrawFinderOffset(q, version, dx, dy, g0, start);
      }
      NextFinderRow(GridOf(q[..], qrsize), version, dy);
    }
  }

  lemma NoFinders(g: Grid, version: nat)
    requires ValidVersion(version) && Square(g, SizeOf(version))
    ensures FindersRight(g, version, -4, -4)
  {
    hide Right;
  }

  lemma NextFinderRow(g: Grid, version: nat, dy: int)
    requires ValidVersion(version) && Square(g, SizeOf(version)) && FindersRight(g, version, 5, dy)
    ensures FindersRight(g, version, -4, dy + 1)
  {
    hide OffsetRight;
    forall dx, ey | FinderOffset(dx, ey, -4, dy + 1) ensures OffsetRight(g, version, dx, ey) {
      assert FinderOffset(dx, ey, 5, dy);
    }
  }

  method DrawFinderOffset(q: array<bv8>, version: nat, dx: int, dy: int, ghost g0: Grid, ghost start: Grid)
    requires ValidVersion(version) && Sized(q[..], SizeOf(version)) && -4 <= dx <= 4 && -4 <= dy <= 4
    requires Keeps(g0, GridOf(q[..], SizeOf(version)), version)
    requires StaysRight(start, GridOf(q[..], SizeOf(version)), version)
    requires FindersRight(GridOf(q[..], SizeOf(version)), version, dx, dy)
    modifies q
    ensures Sized(q[..], SizeOf(version)) && Keeps(g0, GridOf(q[..], SizeOf(version)), version)
    ensures StaysRight(start, GridOf(q[..], SizeOf(version)), version)
    ensures FindersRight(GridOf(q[..], SizeOf(version)), version, dx + 1, dy)
  {
    hide GridOf, BufferLen, Keeps, StaysRight, FindersRight, RightIfInside, InFinderZone, FinderDark;
    var qrsize := SizeOf(version);
    ghost var a := GridOf(q[..], qrsize);
    var dist := if dx < 0 then -dx else dx;
    if (if dy < 0 then -dy else dy) > dist {
      dist := if dy < 0 then -dy else dy;
    }
    assert dist == Dist(dx, dy);
    if dist == 2 || dist == 4 {
      FinderOffsets(qrsize, dx, dy);
      SetFinderModule(q, version, 3 + dx, 3 + dy, g0);
      ghost var b := GridOf(q[..], qrsize);
      SetFinderModule(q, version, qrsize - 4 + dx, 3 + dy, g0);
      ghost var c := GridOf(q[..], qrsize);
      SetFinderModule(q, version, 3 + dx, qrsize - 4 + dy, g0);
      ghost var d := GridOf(q[..], qrsize);
      NextFinderOffset(start, a, b, c, d, version, dx, dy);
    } else {
      SkipFinderOffset(a, version, dx, dy);
    }
  }

  lemma NextFinderOffset(start: Grid, a: Grid, b: Grid, c: Grid, d: Grid, version: nat, dx: int, dy: int)
    requires ValidVersion(version) && StaysRight(start, a, version)
    requires StaysRight(a, b, version) && StaysRight(b, c, version) && StaysRight(c, d, version)
    requires FindersRight(a, version, dx, dy)
    requires var n := SizeOf(version);
             RightIfInside(b, version, 3 + dx, 3 + dy) && RightIfInside(c, version, n - 4 + dx, 3 + dy)
             && RightIfInside(d, version, 3 + dx, n - 4 + dy)
    ensures StaysRight(start, d, version) && FindersRight(d, version, dx + 1, dy)
  {
    hide Right;
    StaysRightTransitive(start, a, b, version);
    StaysRightTransitive(start, b, c, version);
    StaysRightTransitive(start, c, d, version);
    StaysRightTransitive(a, b, c, version);
    StaysRightTransitive(a, c, d, version);
    FindersStayRight(a, d, version, dx, dy);
    assert OffsetRight(d, version, dx, dy);
    hide StaysRight, OffsetRight;
    forall ex, ey | FinderOffset(ex, ey, dx + 1, dy) ensures OffsetRight(d, version, ex, ey) {
      assert FinderOffset(ex, ey, dx, dy) || (ex == dx && ey == dy);
    }
  }

  lemma SkipFinderOffset(g: Grid, version: nat, dx: int, dy: int)
    requires ValidVersion(version) && Square(g, SizeOf(version)) && FindersRight(g, version, dx, dy)
    requires Dist(dx, dy) !in {2, 4}
    ensures FindersRight(g, version, dx + 1, dy)
  {
    hide OffsetRight;
    forall ex, ey | FinderOffset(ex, ey, dx + 1, dy) ensures OffsetRight(g, version, ex, ey) {
      assert FinderOffset(ex, ey, dx, dy);
    }
  }

  // ---- Alignment patterns

  predicate Before(a: int, b: int, i: int, j: int) {
    a < i || (a == i && b < j)
  }

  predicate InCore(dx: int, dy: int, ex: int, ey: int) {
    -1 <= dx <= 1 && -1 <= dy <= 1 && Before(dy, dx, ey, ex)
  }

  /** The inner 3 by 3 modules of alignment pattern (a, b) that come before (ex, ey). */
  ghost predicate CoreRight(g: Grid, version: nat, a: nat, b: nat, ex: int, ey: int)
    requires ValidVersion(version) && Square(g, SizeOf(version)) && a < NumAlign(version) && b < NumAlign(version)
  {
    forall x, y :: InCore(x - AlignPos(version, a), y - AlignPos(version, b), ex, ey) ==> Right(g, version, x, y)
  }

  ghost predicate PatternRight(g: Grid, version: nat, a: nat, b: nat)
    requires ValidVersion(version) && Square(g, SizeOf(version)) && a < NumAlign(version) && b < NumAlign(version)
  {
    FinderCorner(NumAlign(version), a, b) || CoreRight(g, version, a, b, -1, 2)
  }

  ghost predicate AlignmentsRight(g: Grid, version: nat, i: nat, j: nat)
    requires ValidVersion(version) && Square(g, SizeOf(version))
  {
    forall a: nat, b: nat :: a < NumAlign(version) && b < NumAlign(version) && Before(a, b, i, j) ==> PatternRight(g, version, a, b)
  }

  lemma CoreStaysRight(g: Grid, h: Grid, version: nat, a: nat, b: nat, ex: int, ey: int)
    requires ValidVersion(version) && a < NumAlign(version) && b < NumAlign(version)
    requires StaysRight(g, h, version) && CoreRight(g, version, a, b, ex, ey)
    ensures CoreRight(h, version, a, b, ex, ey)
  {
    hide Right, NumAlign, AlignPos;
  }

  lemma AlignmentsStayRight(g: Grid, h: Grid, version: nat, i: nat, j: nat)
    requires ValidVersion(version) && StaysRight(g, h, version) && AlignmentsRight(g, version, i, j)
    ensures AlignmentsRight(h, version, i, j)
  {
    hide Right, NumAlign, AlignPos, CoreRight;
    forall a: nat, b: nat | a < NumAlign(version) && b < NumAlign(version) && Before(a, b, i, j)
      ensures PatternRight(h, version, a, b)
    {
      if !FinderCorner(NumAlign(version), a, b) {
        CoreStaysRight(g, h, version, a, b, -1, 2);
      }
    }
  }

  lemma CoreNext(g: Grid, h: Grid, version: nat, a: nat, b: nat, dx: int, dy: int)
    requires ValidVersion(version) && a < NumAlign(version) && b < NumAlign(version) && -1 <= dx <= 1
    requires StaysRight(g, h, version) && CoreRight(g, version, a, b, dx, dy)
    requires Right(h, version, AlignPos(version, a) + dx, AlignPos(version, b) + dy)
    ensures CoreRight(h, version, a, b, dx + 1, dy)
  {
    CoreStaysRight(g, h, version, a, b, dx, dy);
    hide Right, NumAlign, AlignPos, StaysRight;
  }

  lemma CoreNextRow(g: Grid, version: nat, a: nat, b: nat, dy: int)
    requires ValidVersion(version) && a < NumAlign(version) && b < NumAlign(version) && Square(g, SizeOf(version))
    requires CoreRight(g, version, a, b, 2, dy)
    ensures CoreRight(g, version, a, b, -1, dy + 1)
  {
    hide Right, NumAlign, AlignPos;
  }

  method DrawAlignment(q: array<bv8>, version: nat, i: nat, j: nat, cx: int, cy: int, ghost g0: Grid)
    requires ValidVersion(version) && i < NumAlign(version) && j < NumAlign(version) && !FinderCorner(NumAlign(version), i, j)
    requires cx == AlignPos(version, i) && cy == AlignPos(version, j)
    requires Sized(q[..], SizeOf(version)) && Keeps(g0, GridOf(q[..], SizeOf(version)), version)
    modifies q
    ensures Sized(q[..], SizeOf(version)) && Keeps(g0, GridOf(q[..], SizeOf(version)), version)
    ensures StaysRight(old(GridOf(q[..], SizeOf(version))), GridOf(q[..], SizeOf(version)), version)
    ensures CoreRight(GridOf(q[..], SizeOf(version)), version, i, j, -1, 2)
  {
    hide GridOf, BufferLen, Keeps, StaysRight, CoreRight, Right, FunctionColour, IsFunction, NumAlign, AlignPos, SizeOf;
    ghost var start := GridOf(q[..], SizeOf(version));
    StaysRightSelf(start, version);
    CoreEmpty(start, version, i, j);
    for dy := -1 to 2
      invariant Sized(q[..], SizeOf(version)) && Keeps(g0, GridOf(q[..], SizeOf(version)), version)
      invariant StaysRight(start, GridOf(q[..], SizeOf(version)), version)
      invariant CoreRight(GridOf(q[..], SizeOf(version)), version, i, j, -1, dy)
    {
      for dx := -1 to 2
        invariant Sized(q[..], SizeOf(version)) && Keeps(g0, GridOf(q[..], SizeOf(version)), version)
        invariant StaysRight(start, GridOf(q[..], SizeOf(version)), version)
        invariant CoreRight(GridOf(q[..], SizeOf(version)), version, i, j, dx, dy)
      {
        ghost var g := GridOf(q[..], SizeOf(version));
        AlignmentColour(version, i, j, dx, dy);
        SetFunctionModule(q, version, cx + dx, cy + dy, dx == 0 && dy == 0, g0);
        CoreNext(g, GridOf(q[..], SizeOf(version)), version, i, j, dx, dy);
        StaysRightTransitive(start, g, GridOf(q[..], SizeOf(version)), version);
      }
      CoreNextRow(GridOf(q[..], SizeOf(version)), version, i, j, dy);
    }
  }

  lemma CoreEmpty(g: Grid, version: nat, a: nat, b: nat)
    requires ValidVersion(version) && a < NumAlign(version) && b < NumAlign(version) && Square(g, SizeOf(version))
    ensures CoreRight(g, version, a, b, -1, -1)
  {
    hide Right, NumAlign, AlignPos;
  }

  lemma AlignmentsEmpty(g: Grid, version: nat)
    requires ValidVersion(version) && Square(g, SizeOf(version))
    ensures AlignmentsRight(g, version, 0, 0)
  {
  }

  lemma AlignmentsRightNext(g: Grid, h: Grid, version: nat, i: nat, j: nat)
    requires ValidVersion(version) && i < NumAlign(version) && j < NumAlign(version)
    requires StaysRight(g, h, version) && AlignmentsRight(g, version, i, j) && PatternRight(h, version, i, j)
    ensures AlignmentsRight(h, version, i, j + 1)
  {
    hide PatternRight, StaysRight, NumAlign;
    AlignmentsStayRight(g, h, version, i, j);
  }

  lemma AlignmentsRightNextRow(g: Grid, version: nat, i: nat)
    requires ValidVersion(version) && Square(g, SizeOf(version)) && AlignmentsRight(g, version, i, NumAlign(version))
    ensures AlignmentsRight(g, version, i + 1, 0)
  {
    hide PatternRight, NumAlign;
  }

  method DrawAlignments(q: array<bv8>, version: nat, ghost g0: Grid)
    requires ValidVersion(version) && Sized(q[..], SizeOf(version)) && Keeps(g0, GridOf(q[..], SizeOf(version)), version)
    modifies q
    ensures Sized(q[..], SizeOf(version)) && Keeps(g0, GridOf(q[..], SizeOf(version)), version)
    ensures StaysRight(old(GridOf(q[..], SizeOf(version))), GridOf(q[..], SizeOf(version)), version)
    ensures AlignmentsRight(GridOf(q[..], SizeOf(version)), version, NumAlign(version), 0)
  {
    hide GridOf, BufferLen, Keeps, StaysRight, CoreRight, AlignmentsRight, NumAlign, AlignPos, SizeOf;
    ghost var start := GridOf(q[..], SizeOf(version));
    StaysRightSelf(start, version);
    AlignmentsEmpty(start, version);
    var alignPatPos := new int[7];
    var numAlign := GetAlignmentPatternPositions(version, alignPatPos);
    for i := 0 to numAlign
      modifies q
      invariant Sized(q[..], SizeOf(version)) && Keeps(g0, GridOf(q[..], SizeOf(version)), version)
      invariant StaysRight(start, GridOf(q[..], SizeOf(version)), version)
      invariant AlignmentsRight(GridOf(q[..], SizeOf(version)), version, i, 0)
    {
      for j := 0 to numAlign
        modifies q
        invariant Sized(q[..], SizeOf(version)) && Keeps(g0, GridOf(q[..], SizeOf(version)), version)
        invariant StaysRight(start, GridOf(q[..], SizeOf(version)), version)
        invariant AlignmentsRight(GridOf(q[..], SizeOf(version)), version, i, j)
      {
        ghost var g := GridOf(q[..], SizeOf(version));
        StaysRightSelf(g, version);
        if !((i == 0 && j == 0) || (i == 0 && j == numAlign - 1) || (i == numAlign - 1 && j == 0)) {
          DrawAlignment(q, version, i, j, alignPatPos[i], alignPatPos[j], g0);
        }
        AlignmentsRightNext(g, GridOf(q[..], SizeOf(version)), version, i, j);
        StaysRightTransitive(start, g, GridOf(q[..], SizeOf(version)), version);
      }
      AlignmentsRightNextRow(GridOf(q[..], SizeOf(version)), version, i);
    }
  }

  // ---- Version blocks

  ghost predicate VersionBlocksRight(g: Grid, version: nat, i: nat, j: nat)
    requires ValidVersion(version) && version >= 7 && Square(g, SizeOf(version))
  {
    forall a, b :: 0 <= a < 6 && 0 <= b < 3 && Before(a, b, i, j) ==> VersionPairRight(g, version, a, b)
  }

  ghost predicate VersionPairRight(g: Grid, version: nat, a: nat, b: nat)
    requires ValidVersion(version) && Square(g, SizeOf(version))
  {
    Right(g, version, SizeOf(version) - 11 + b, a) && Right(g, version, a, SizeOf(version) - 11 + b)
  }

  lemma VersionNext(g: Grid, h: Grid, version: nat, i: nat, j: nat)
    requires 7 <= version <= 40 && i < 6 && j < 3
    requires StaysRight(g, h, version) && VersionBlocksRight(g, version, i, j) && VersionPairRight(h, version, i, j)
    ensures VersionBlocksRight(h, version, i, j + 1)
  {
    hide Right;
    forall a, b | 0 <= a < 6 && 0 <= b < 3 && Before(a, b, i, j + 1) ensures VersionPairRight(h, version, a, b) {
      assert (a == i && b == j) || VersionPairRight(g, version, a, b);
    }
  }

  lemma VersionNextRow(g: Grid, version: nat, i: nat)
    requires 7 <= version <= 40 && Square(g, SizeOf(version)) && VersionBlocksRight(g, version, i, 3)
    ensures VersionBlocksRight(g, version, i + 1, 0)
  {
    hide VersionPairRight;
  }

  method DrawVersionBlocks(q: array<bv8>, version: nat, ghost g0: Grid)
    requires 7 <= version <= 40 && Sized(q[..], SizeOf(version)) && Keeps(g0, GridOf(q[..], SizeOf(version)), version)
    modifies q
    ensures Sized(q[..], SizeOf(version)) && Keeps(g0, GridOf(q[..], SizeOf(version)), version)
    ensures StaysRight(old(GridOf(q[..], SizeOf(version))), GridOf(q[..], SizeOf(version)), version)
    ensures VersionBlocksRight(GridOf(q[..], SizeOf(version)), version, 6, 0)
  {
    hide GridOf, BufferLen, Keeps, StaysRight, VersionBlocksRight, Right, FunctionColour, IsFunction,
         VersionBits, LowBit, Halve, Bch.IsCodeword, Bch.Data;
    ghost var start := GridOf(q[..], SizeOf(version));
    StaysRightSelf(start, version);
    assert VersionBlocksRight(start, version, 0, 0) by { NoVersionBlocks(start, version); }
    var bits := ComputeVersionBits(version);
    for i := 0 to 6
      invariant Sized(q[..], SizeOf(version)) && Keeps(g0, GridOf(q[..], SizeOf(version)), version)
      invariant StaysRight(start, GridOf(q[..], SizeOf(version)), version)
      invariant VersionBlocksRight(GridOf(q[..], SizeOf(version)), version, i, 0)
      invariant bits == ShiftedBits(VersionBits(version), 3 * i)
    {
      for j := 0 to 3
        invariant Sized(q[..], SizeOf(version)) && Keeps(g0, GridOf(q[..], SizeOf(version)), version)
        invariant StaysRight(start, GridOf(q[..], SizeOf(version)), version)
        invariant VersionBlocksRight(GridOf(q[..], SizeOf(version)), version, i, j)
        invariant bits == ShiftedBits(VersionBits(version), 3 * i + j)
      {
        var k := SizeOf(version) - 11 + j;
        DrawVersionPair(q, version, i, j, k, LowBit(bits), g0, start);
        bits := Halve(bits);
      }
      VersionNextRow(GridOf(q[..], SizeOf(version)), version, i);
    }
  }

  lemma NoVersionBlocks(g: Grid, version: nat)
    requires 7 <= version <= 40 && Square(g, SizeOf(version))
    ensures VersionBlocksRight(g, version, 0, 0)
  {
  }

  lemma WordIsVersion(version: nat)
    requires ValidVersion(version)
    ensures VersionWord(version) as nat == version
  {
  }

  method ComputeVersionBits(version: nat) returns (bits: bv18)
    requires ValidVersion(version)
    ensures bits == VersionBits(version) && Bch.IsCodeword(Bch.VersionCode, bits)
    ensures Bch.Data(Bch.VersionCode, bits) as nat == version
  {
    hide Bch.Remainder, Bch.WithRemainder, Bch.IsCodeword, Bch.Data, VersionWord;
    WordIsVersion(version);
    ValueOfBits(VersionWord(version));
    var v := VersionWord(version);
    var rem := Bch.ComputeRemainder(Bch.VersionCode, v);
    bits := Bch.WithRemainder(Bch.VersionCode, v, rem);
  }

  method DrawVersionPair(q: array<bv8>, version: nat, i: nat, j: nat, k: nat, dark: bool, ghost g0: Grid, ghost start: Grid)
    requires 7 <= version <= 40 && i < 6 && j < 3 && k == SizeOf(version) - 11 + j && dark == VersionBit(version, 3 * i + j)
    requires Sized(q[..], SizeOf(version)) && Keeps(g0, GridOf(q[..], SizeOf(version)), version)
    requires StaysRight(start, GridOf(q[..], SizeOf(version)), version)
    requires VersionBlocksRight(GridOf(q[..], SizeOf(version)), version, i, j)
    modifies q
    ensures Sized(q[..], SizeOf(version)) && Keeps(g0, GridOf(q[..], SizeOf(version)), version)
    ensures StaysRight(start, GridOf(q[..], SizeOf(version)), version)
    ensures VersionBlocksRight(GridOf(q[..], SizeOf(version)), version, i, j + 1)
  {
    hide GridOf, BufferLen, Keeps, VersionBlocksRight, Right, FunctionColour, IsFunction, VersionBit;
    ghost var a := GridOf(q[..], SizeOf(version));
    VersionColour(version, i, j);
    SetFunctionModule(q, version, k, i, dark, g0);
    ghost var b := GridOf(q[..], SizeOf(version));
    SetFunctionModule(q, version, i, k, dark, g0);
    ghost var c := GridOf(q[..], SizeOf(version));
    assert Right(b, version, k, i) ==> Right(c, version, k, i);
    hide StaysRight;
    StaysRightTransitive(a, b, c, version);
    StaysRightTransitive(start, a, c, version);
    VersionNext(a, c, version, i, j);
  }

  // ---- All together

  /** Every function module has its colour, and no other module has changed. */
  ghost predicate Coloured(g: Grid, h: Grid, version: nat)
    requires ValidVersion(version)
  {
    var n := SizeOf(version);
    Square(g, n) && Square(h, n)
    && forall x, y :: 0 <= x < n && 0 <= y < n ==>
         h[y][x] == if IsFunction(version, x, y) then FunctionColour(version, x, y) else g[y][x]
  }

  lemma LightModuleDrawn(g: Grid, version: nat, x: nat, y: nat)
    requires ValidVersion(version) && Square(g, SizeOf(version)) && x < SizeOf(version) && y < SizeOf(version)
    requires TimingRight(g, version, SizeOf(version) - 7) && FindersRight(g, version, -4, 5)
    requires AlignmentsRight(g, version, NumAlign(version), 0)
    requires version >= 7 ==> VersionBlocksRight(g, version, 6, 0)
    requires IsFunction(version, x, y) && !FunctionColour(version, x, y)
    ensures Right(g, version, x, y)
  {
    hide NumAlign, AlignPos, Right, VersionBit, IsAlignment;
    var n := SizeOf(version);
    if InFinderZone(n, x, y) {
      LightFinderModule(g, version, x, y);
    } else if InRing(version, x, y) {
      LightRingModule(g, version, x, y);
    } else if x == 6 || y == 6 {
      assert !IsAlignment(version, x, y);
    } else {
      assert IsVersionArea(version, x, y);
      if y < 6 {
        assert VersionPairRight(g, version, y, x - (n - 11));
      } else {
        assert VersionPairRight(g, version, x, y - (n - 11));
      }
    }
  }

  lemma LightFinderModule(g: Grid, version: nat, x: nat, y: nat)
    requires ValidVersion(version) && Square(g, SizeOf(version)) && x < SizeOf(version) && y < SizeOf(version)
    requires FindersRight(g, version, -4, 5)
    requires InFinderZone(SizeOf(version), x, y) && !FinderDark(SizeOf(version), x, y)
    ensures Right(g, version, x, y)
  {
    hide Right;
    var n := SizeOf(version);
    var dx, dy := x - FinderCentre(n, x), y - FinderCentre(n, y);
    assert FinderOffset(dx, dy, -4, 5);
    assert OffsetRight(g, version, dx, dy);
  }

  lemma LightRingModule(g: Grid, version: nat, x: nat, y: nat)
    requires ValidVersion(version) && Square(g, SizeOf(version)) && InRing(version, x, y)
    requires AlignmentsRight(g, version, NumAlign(version), 0)
    ensures Right(g, version, x, y)
  {
    hide NumAlign, AlignPos, Right, SizeOf, FinderCorner;
    var i: nat, j: nat :| i < NumAlign(version) && j < NumAlign(version) && RingOf(version, i, j, x, y);
    assert PatternRight(g, version, i, j);
  }

  method DrawLightFunctionModules(q: array<bv8>, version: nat)
    requires ValidVersion(version) && Sized(q[..], SizeOf(version))
    requires forall x, y :: 0 <= x < SizeOf(version) && 0 <= y < SizeOf(version) && IsFunction(version, x, y)
                            ==> GridOf(q[..], SizeOf(version))[y][x]
    modifies q
    ensures Sized(q[..], SizeOf(version))
    ensures Coloured(old(GridOf(q[..], SizeOf(version))), GridOf(q[..], SizeOf(version)), version)
  {
    hide GridOf, BufferLen, Keeps, StaysRight, TimingRight, FindersRight, AlignmentsRight, VersionBlocksRight,
         IsFunction, FunctionColour, NumAlign, Coloured;
    ghost var n, g0 := SizeOf(version), GridOf(q[..], SizeOf(version));
    StaysRightSelf(g0, version);
    DrawTiming(q, version, g0);
    ghost var g1 := GridOf(q[..], n);
    DrawFinders(q, version, g0);
    ghost var g2 := GridOf(q[..], n);
    DrawAlignments(q, version, g0);
    ghost var g3 := GridOf(q[..], n);
    StaysRightSelf(g3, version);
    if version >= 7 {
      DrawVersionBlocks(q, version, g0);
    }
    ghost var g4 := GridOf(q[..], n);
    PhasesStayRight(g1, g2, g3, g4, version);
    AllRight(g0, g4, version);
  }

  lemma PhasesStayRight(g1: Grid, g2: Grid, g3: Grid, g4: Grid, version: nat)
    requires ValidVersion(version) && StaysRight(g1, g2, version) && StaysRight(g2, g3, version) && StaysRight(g3, g4, version)
    requires TimingRight(g1, version, SizeOf(version) - 7) && FindersRight(g2, version, -4, 5)
    requires AlignmentsRight(g3, version, NumAlign(version), 0)
    ensures TimingRight(g4, version, SizeOf(version) - 7) && FindersRight(g4, version, -4, 5)
    ensures AlignmentsRight(g4, version, NumAlign(version), 0)
  {
    hide NumAlign, Right, AlignmentsRight, FindersRight;
    StaysRightTransitive(g1, g2, g3, version);
    StaysRightTransitive(g1, g3, g4, version);
    StaysRightTransitive(g2, g3, g4, version);
    FindersStayRight(g2, g4, version, -4, 5);
    AlignmentsStayRight(g3, g4, version, NumAlign(version), 0);
  }

  lemma AllRight(g0: Grid, g: Grid, version: nat)
    requires ValidVersion(version) && Keeps(g0, g, version)
    requires forall x, y :: 0 <= x < SizeOf(version) && 0 <= y < SizeOf(version) && IsFunction(version, x, y) ==> g0[y][x]
    requires TimingRight(g, version, SizeOf(version) - 7) && FindersRight(g, version, -4, 5)
    requires AlignmentsRight(g, version, NumAlign(version), 0)
    requires version >= 7 ==> VersionBlocksRight(g, version, 6, 0)
    ensures Coloured(g0, g, version)
  {
    hide TimingRight, FindersRight, AlignmentsRight, VersionBlocksRight, IsFunction, FunctionColour, NumAlign;
    var n := SizeOf(version);
    forall x, y | 0 <= x < n && 0 <= y < n
      ensures g[y][x] == if IsFunction(version, x, y) then FunctionColour(version, x, y) else g0[y][x]
    {
      if IsFunction(version, x, y) && !FunctionColour(version, x, y) {
        LightModuleDrawn(g, version, x, y);
      }
    }
  }

  // ---- Reading the version back

  /** The 18 modules of a version area, in bit order: above the lower left finder, or left of the upper right one. */
  function VersionCopy(g: Grid, n: nat, below: bool): (bits: seq<bool>)
    requires Square(g, n) && n >= 21
    ensures |bits| == 18
  {
    seq(18, k requires 0 <= k < 18 => if below then g[n - 11 + k % 3][k / 3] else g[k / 3][n - 11 + k % 3])
  }

  function VersionBitList(version: nat): (bits: seq<bool>)
    requires ValidVersion(version)
    ensures |bits| == 18
  {
    Bch.BitList(VersionBits(version), 18)
  }

  function ShiftedBy(bits: bv18, k: bv5): bv18
    requires k < 18
  {
    bits >> k
  }

  lemma Amount(k: nat)
    requires k < 17
    ensures (k as bv5) < 17 && (k as bv5) + 1 == (k + 1) as bv5
  {
    if k == 0 {} else if k == 1 {} else if k == 2 {} else if k == 3 {} else if k == 4 {} else if k == 5 {}
    else if k == 6 {} else if k == 7 {} else if k == 8 {} else if k == 9 {} else if k == 10 {} else if k == 11 {}
    else if k == 12 {} else if k == 13 {} else if k == 14 {} else if k == 15 {} else {}
  }

  lemma ShiftMore(bits: bv18, k: bv5)
    requires k < 17
    ensures Halve(ShiftedBy(bits, k)) == ShiftedBy(bits, k + 1)
  {
  }

  lemma {:induction false} ShiftedAtOnce(bits: bv18, k: nat)
    requires k < 18
    ensures (k as bv5) < 18 && ShiftedBits(bits, k) == ShiftedBy(bits, k as bv5)
  {
    hide Halve, ShiftedBy;
    if k == 0 {
      ShiftNone(bits);
    } else {
      ShiftedAtOnce(bits, k - 1);
      Amount(k - 1);
      ShiftMore(bits, (k - 1) as bv5);
    }
  }

  lemma ShiftNone(bits: bv18)
    ensures ShiftedBy(bits, 0) == bits
  {
  }

  lemma LowIsBit(bits: bv18, k: nat)
    requires k < 18
    ensures (k as bv5) < 18 && LowBit(ShiftedBy(bits, k as bv5)) == Bch.GetBit(bits, k)
  {
  }

  lemma VersionBitIs(version: nat, k: nat)
    requires ValidVersion(version) && k < 18
    ensures VersionBit(version, k) == Bch.GetBit(VersionBits(version), k)
  {
    hide VersionBits, ShiftedBits, ShiftedBy, LowBit, Bch.GetBit;
    ShiftedAtOnce(VersionBits(version), k);
    LowIsBit(VersionBits(version), k);
  }

  /** Both version areas show the codeword of the version. */
  lemma ReadVersionCopy(g: Grid, h: Grid, version: nat, below: bool)
    requires 7 <= version <= 40 && Coloured(g, h, version)
    ensures VersionCopy(h, SizeOf(version), below) == VersionBitList(version)
  {
    hide FunctionColour, IsFunction, VersionBits, VersionBit, Bch.GetBit;
    forall k: nat | k < 18 ensures VersionCopy(h, SizeOf(version), below)[k] == VersionBitList(version)[k] {
      VersionColour(version, k / 3, k % 3);
      VersionBitIs(version, k);
    }
  }

  function ReadVersion(bits: seq<bool>): nat
    requires |bits| == 18
  {
    (if bits[12] then 1 else 0) + (if bits[13] then 2 else 0) + (if bits[14] then 4 else 0)
    + (if bits[15] then 8 else 0) + (if bits[16] then 16 else 0) + (if bits[17] then 32 else 0)
  }

  lemma UpperBits(word: bv18)
    ensures Bch.GetBit(word, 12) <==> Bch.GetBit(word >> 12, 0)
    ensures Bch.GetBit(word, 13) <==> Bch.GetBit(word >> 12, 1)
    ensures Bch.GetBit(word, 14) <==> Bch.GetBit(word >> 12, 2)
    ensures Bch.GetBit(word, 15) <==> Bch.GetBit(word >> 12, 3)
    ensures Bch.GetBit(word, 16) <==> Bch.GetBit(word >> 12, 4)
    ensures Bch.GetBit(word, 17) <==> Bch.GetBit(word >> 12, 5)
  {
  }

  function LowBitsValue(v: bv18): nat {
    (if Bch.GetBit(v, 0) then 1 else 0) + (if Bch.GetBit(v, 1) then 2 else 0) + (if Bch.GetBit(v, 2) then 4 else 0)
    + (if Bch.GetBit(v, 3) then 8 else 0) + (if Bch.GetBit(v, 4) then 16 else 0) + (if Bch.GetBit(v, 5) then 32 else 0)
  }

  lemma VersionOfBits(version: nat)
    requires ValidVersion(version)
    ensures VersionWord(version) < 64 && LowBitsValue(VersionWord(version)) == version
  {
    hide LowBitsValue, VersionWord;
    WordIsVersion(version);
    ValueOfBits(VersionWord(version));
  }

  lemma ValueOfBits(v: bv18)
    requires v as nat < 64
    ensures v < 64 && LowBitsValue(v) == v as nat
  {
  }

  /** The version is read back from its bits. */
  lemma ReadVersionBits(version: nat)
    requires ValidVersion(version)
    ensures ReadVersion(VersionBitList(version)) == version
  {
    hide Bch.GetBit, Bch.Codeword, VersionWord;
    VersionOfBits(version);
    Bch.DataOfCodeword(Bch.VersionCode, VersionWord(version));
    UpperBits(VersionBits(version));
  }

  /** Up to three wrong modules in a version area leave no doubt about the version. */
  lemma VersionCorrects(version: nat, version': nat, received: seq<bool>)
    requires ValidVersion(version) && ValidVersion(version') && |received| == 18
    requires Distance(VersionBitList(version), received) <= 3 && Distance(received, VersionBitList(version')) <= 3
    ensures version == version'
  {
    hide Bch.Codeword, Bch.BitList, Bch.Xor, VersionWord, ReadVersion;
    VersionOfBits(version);
    VersionOfBits(version');
    Bch.XorLaws(VersionBits(version));
    Bch.XorLaws(VersionBits(version'));
    Bch.Corrects(Bch.VersionCode, VersionWord(version), VersionWord(version'), 0, received);
    ReadVersionBits(version);
    ReadVersionBits(version');
  }

  // ---- The patterns as pictures

  /** A finder pattern with its separator; # is dark. */
  function FinderPicture(): (rows: seq<string>)
    ensures |rows| == 9 && forall y :: 0 <= y < 9 ==> |rows[y]| == 9
  {
    [".........",
     ".#######.",
     ".#.....#.",
     ".#.###.#.",
     ".#.###.#.",
     ".#.###.#.",
     ".#.....#.",
     ".#######.",
     "........."]
  }

  function AlignmentPicture(): (rows: seq<string>)
    ensures |rows| == 5 && forall y :: 0 <= y < 5 ==> |rows[y]| == 5
  {
    ["#####",
     "#...#",
     "#.#.#",
     "#...#",
     "#####"]
  }

  lemma FinderDistances(dx: int, dy: int)
    requires -4 <= dx <= 4 && -4 <= dy <= 4
    ensures Dist(dx, dy) !in {2, 4} <==> FinderPicture()[dy + 4][dx + 4] == '#'
  {
    if dy == -4 {} else if dy == -3 {} else if dy == -2 {} else if dy == -1 {} else if dy == 0 {}
    else if dy == 1 {} else if dy == 2 {} else if dy == 3 {} else {}
  }

  lemma AlignmentDistances(dx: int, dy: int)
    requires -2 <= dx <= 2 && -2 <= dy <= 2
    ensures Dist(dx, dy) != 1 <==> AlignmentPicture()[dy + 2][dx + 2] == '#'
  {
    if dy == -2 {} else if dy == -1 {} else if dy == 0 {} else if dy == 1 {} else {}
  }

  /** The three finder patterns have their centres 3 modules from the edges. */
  lemma FinderIsPicture(version: nat, right: bool, below: bool, dx: int, dy: int)
    requires ValidVersion(version) && !(right && below) && -4 <= dx <= 4 && -4 <= dy <= 4
    ensures var n := SizeOf(version);
            var x, y := (if right then n - 4 else 3) + dx, (if below then n - 4 else 3) + dy;
            0 <= x < n && 0 <= y < n ==>
              IsFunction(version, x, y) && FunctionColour(version, x, y) == (FinderPicture()[dy + 4][dx + 4] == '#')
  {
    hide IsFunction, FunctionColour, FinderPicture, Dist;
    var n := SizeOf(version);
    var x, y := (if right then n - 4 else 3) + dx, (if below then n - 4 else 3) + dy;
    if 0 <= x < n && 0 <= y < n {
      FinderColour(version, x, y);
      FinderDistances(dx, dy);
    }
  }

  /** Every alignment pattern, also one that crosses the timing patterns. */
  lemma AlignmentIsPicture(version: nat, i: nat, j: nat, dx: int, dy: int)
    requires ValidVersion(version) && i < NumAlign(version) && j < NumAlign(version)
    requires !FinderCorner(NumAlign(version), i, j) && -2 <= dx <= 2 && -2 <= dy <= 2
    ensures var x, y := AlignPos(version, i) + dx, AlignPos(version, j) + dy;
            0 <= x < SizeOf(version) && 0 <= y < SizeOf(version)
            && IsFunction(version, x, y) && FunctionColour(version, x, y) == (AlignmentPicture()[dy + 2][dx + 2] == '#')
  {
    hide NumAlign, AlignPos, SizeOf, InFinderZone, IsVersionArea, FinderDark, FinderCorner, AlignmentPicture;
    var x, y := AlignPos(version, i) + dx, AlignPos(version, j) + dy;
    assert InAlignment(version, i, j, x, y);
    AlignmentClear(version, i, j, x, y);
    assert IsAlignment(version, x, y);
    AlignmentDistances(dx, dy);
    if Dist(dx, dy) == 1 {
      assert RingOf(version, i, j, x, y);
    } else if InRing(version, x, y) {
      var a: nat, b: nat :| a < NumAlign(version) && b < NumAlign(version) && RingOf(version, a, b, x, y);
      AlignPosUnique(version, i, a, x);
      AlignPosUnique(version, j, b, y);
      assert false;
    }
  }
}
