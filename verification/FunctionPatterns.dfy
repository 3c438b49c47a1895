/** The modules reserved for function patterns: timing, finder, format, alignment and version areas. */
module FunctionPatterns {
  import opened Arithmetic
  import opened Bits
  import opened Grids
  import opened Versions

  function SizeOf(version: nat): (n: nat)
    requires ValidVersion(version)
    ensures ValidSize(n) && n <= 177
  {
    version * 4 + 17
  }

  // ---- Alignment positions

  function NumAlign(version: nat): (k: nat)
    requires ValidVersion(version)
    ensures k <= 7
  {
    if version == 1 then 0 else version / 7 + 2
  }

  function AlignStep(version: nat): int
    requires ValidVersion(version) && version > 1
  {
    (version * 8 + NumAlign(version) * 3 + 5) / (NumAlign(version) * 4 - 4) * 2
  }

  /** The i-th alignment position: 6, then equally spaced up to 7 short of the edge. */
  function AlignPos(version: nat, i: nat): int
    requires ValidVersion(version) && i < NumAlign(version)
  {
    if i == 0 then 6 else version * 4 + 10 - (NumAlign(version) - 1 - i) * AlignStep(version)
  }

  lemma AlignStepFacts(version: nat)
    requires ValidVersion(version) && version > 1
    ensures AlignStep(version) % 2 == 0
    ensures NumAlign(version) > 2 ==> AlignStep(version) >= 16
    ensures version * 4 + 10 - (NumAlign(version) - 2) * AlignStep(version) >= 18
  {
    if version < 7 {} else if version < 14 {} else if version < 21 {} else if version < 28 {}
    else if version < 35 {} else {}
  }

  /** Alignment positions are even, at least 16 apart after the first, and clear of the finder patterns. */
  lemma AlignPosFacts(version: nat, i: nat)
    requires ValidVersion(version) && i < NumAlign(version)
    ensures AlignPos(version, i) % 2 == 0
    ensures i > 0 ==> 18 <= AlignPos(version, i) <= SizeOf(version) - 7
    ensures i == NumAlign(version) - 1 ==> AlignPos(version, i) == SizeOf(version) - 7
    ensures 0 < i < NumAlign(version) - 1 ==> AlignPos(version, i) <= SizeOf(version) - 23
    ensures i > 0 ==> AlignPos(version, i) >= AlignPos(version, i - 1) + 12
  {
    hide AlignStep;
    AlignStepFacts(version);
    hide NumAlign;
    if i > 0 {
      AlignSpacing(version * 4 + 10, NumAlign(version) - 1 - i, NumAlign(version) - 2, AlignStep(version));
    }
  }

  /**
   * After the first, the positions are a constant step apart: the only even number from (n - 13) / (k - 1) - 1 / 2, not
   * included, to (n - 13) / (k - 1) + 3 / 2, for k positions at size n.
   */
  lemma AlignStepMeaning(version: nat, i: nat)
    requires ValidVersion(version) && version > 1
    ensures var s, gaps, span := AlignStep(version), NumAlign(version) - 1, SizeOf(version) - 13;
            gaps > 0 && s % 2 == 0 && 2 * span - gaps < 2 * (s * gaps) <= 2 * span + 3 * gaps
    ensures 1 < i < NumAlign(version) ==> AlignPos(version, i) == AlignPos(version, i - 1) + AlignStep(version)
  {
    var k, s := NumAlign(version), AlignStep(version);
    StepBounds(version, k);
    assert s == (version * 8 + k * 3 + 5) / (k * 4 - 4) * 2;
    hide NumAlign, AlignStep;
    assert (k - 1 - (i - 1)) * s == (k - 1 - i) * s + s;
  }

  lemma StepBounds(version: nat, k: nat)
    requires 2 <= k <= 7
    ensures var s := (version * 8 + k * 3 + 5) / (k * 4 - 4) * 2;
            2 * (version * 4 + 4) - (k - 1) < 2 * (s * (k - 1)) <= 2 * (version * 4 + 4) + 3 * (k - 1)
  {
    if k == 2 {} else if k == 3 {} else if k == 4 {} else if k == 5 {} else if k == 6 {} else {}
  }

  lemma AlignSpacing(last: int, m: nat, top: nat, s: int)
    requires last % 2 == 0 && s % 2 == 0 && m <= top && (top > 0 ==> s >= 16) && last - top * s >= 18
    ensures (last - m * s) % 2 == 0 && 18 <= last - m * s <= last
    ensures m == 0 ==> last - m * s == last
    ensures m > 0 ==> last - m * s <= last - 16
    ensures m < top ==> last - m * s >= last - (m + 1) * s + 12
  {
    EvenMultiple(m, s);
    if top > 0 {
      MultipleBounds(m, top, s);
    }
  }

  lemma MultipleBounds(m: nat, top: nat, s: int)
    requires m <= top && s >= 16
    ensures 0 <= m * s <= top * s && (m > 0 ==> m * s >= 16) && (m + 1) * s == m * s + s
    ensures m == 0 ==> m * s == 0
  {
    ProductOrder(m, top, s);
    ProductOrder(0, m, s);
    ProductOrder(m, m + 1, s);
    NonNegativeProduct(m, s);
  }

  lemma AlignPosInside(version: nat, i: nat)
    requires ValidVersion(version) && i < NumAlign(version)
    ensures 4 <= AlignPos(version, i) - 2 && AlignPos(version, i) + 3 <= SizeOf(version)
  {
    AlignPosFacts(version, i);
  }

  lemma EvenMultiple(m: nat, s: int)
    requires s % 2 == 0
    ensures (m * s) % 2 == 0
  {
    assert s == 2 * (s / 2);
    assert m * s == 2 * (m * (s / 2));
  }

  lemma {:induction false} AlignPosApart(version: nat, i: nat, j: nat)
    requires ValidVersion(version) && i < j < NumAlign(version)
    ensures AlignPos(version, j) >= AlignPos(version, i) + 12
  {
    hide AlignPos;
    AlignPosFacts(version, j);
    if i < j - 1 {
      AlignPosApart(version, i, j - 1);
    }
  }

  method GetAlignmentPatternPositions(version: nat, result: array<int>) returns (numAlign: nat)
    requires ValidVersion(version) && result.Length == 7
    modifies result
    ensures numAlign == NumAlign(version)
    ensures forall i :: 0 <= i < numAlign ==> result[i] == AlignPos(version, i)
  {
    if version == 1 {
      return 0;
    }
    numAlign := version / 7 + 2;
    var step := (version * 8 + numAlign * 3 + 5) / (numAlign * 4 - 4) * 2;
    assert numAlign == NumAlign(version) && step == AlignStep(version);
    hide NumAlign, AlignStep;
    var i: int, pos := numAlign - 1, version * 4 + 10;
    while i >= 1
      invariant 0 <= i < numAlign
      invariant pos == version * 4 + 10 - (numAlign - 1 - i) * step
      invariant forall k :: i < k < numAlign ==> result[k] == AlignPos(version, k)
    {
      result[i] := pos;
      assert (numAlign - 1 - (i - 1)) * step == (numAlign - 1 - i) * step + step;
      i, pos := i - 1, pos - step;
    }
    result[0] := 6;
  }

  // ---- The reserved modules

  predicate Near(p: int, x: int) {
    p - 2 <= x <= p + 2
  }

  /** The three corners where a finder pattern takes the place of an alignment pattern. */
  predicate FinderCorner(k: nat, i: nat, j: nat) {
    (i == 0 && j == 0) || (i == 0 && j == k - 1) || (i == k - 1 && j == 0)
  }

  predicate IsTiming(x: int, y: int) {
    x == 6 || y == 6
  }

  /** Finder patterns with their separators and the format bits next to them. */
  predicate IsFinderArea(n: nat, x: int, y: int) {
    (x < 9 && y < 9) || (x >= n - 8 && y < 9) || (x < 9 && y >= n - 8)
  }

  predicate InAlignment(version: nat, i: nat, j: nat, x: int, y: int)
    requires ValidVersion(version) && i < NumAlign(version) && j < NumAlign(version)
  {
    !FinderCorner(NumAlign(version), i, j) && Near(AlignPos(version, i), x) && Near(AlignPos(version, j), y)
  }

  /** One of the alignment patterns before (i, j) in the order of the drawing loops. */
  ghost predicate AlignmentsBefore(version: nat, i: nat, j: nat, x: int, y: int)
    requires ValidVersion(version) && i <= NumAlign(version) && j <= NumAlign(version)
  {
    exists a: nat, b: nat :: a < NumAlign(version) && b < NumAlign(version)
                             && (a < i || (a == i && b < j)) && InAlignment(version, a, b, x, y)
  }

  ghost predicate IsAlignment(version: nat, x: int, y: int)
    requires ValidVersion(version)
  {
    AlignmentsBefore(version, NumAlign(version), 0, x, y)
  }

  predicate IsVersionArea(version: nat, x: int, y: int)
    requires ValidVersion(version)
  {
    var n := SizeOf(version);
    version >= 7 && ((n - 11 <= x < n - 8 && y < 6) || (x < 6 && n - 11 <= y < n - 8))
  }

  ghost predicate IsFunction(version: nat, x: int, y: int)
    requires ValidVersion(version)
  {
    IsTiming(x, y) || IsFinderArea(SizeOf(version), x, y) || IsAlignment(version, x, y) || IsVersionArea(version, x, y)
  }

  /** The grid that marks every function module. */
  ghost function FunctionModules(version: nat): (g: Grid)
    requires ValidVersion(version)
    ensures Square(g, SizeOf(version))
  {
    seq(SizeOf(version), y requires 0 <= y < SizeOf(version) =>
      seq(SizeOf(version), x requires 0 <= x < SizeOf(version) => IsFunction(version, x, y)))
  }

  lemma AlignmentsNext(version: nat, i: nat, j: nat, x: int, y: int)
    requires ValidVersion(version) && i < NumAlign(version) && j < NumAlign(version)
    ensures AlignmentsBefore(version, i, j + 1, x, y)
       <==> AlignmentsBefore(version, i, j, x, y) || InAlignment(version, i, j, x, y)
  {
    hide InAlignment, NumAlign;
  }

  lemma AlignmentsNextRow(version: nat, i: nat, x: int, y: int)
    requires ValidVersion(version) && i < NumAlign(version)
    ensures AlignmentsBefore(version, i, NumAlign(version), x, y) <==> AlignmentsBefore(version, i + 1, 0, x, y)
  {
    hide InAlignment, NumAlign;
  }

  // ---- Filling rectangles

  predicate InRect(left: int, top: int, width: int, height: int, x: int, y: int) {
    left <= x < left + width && top <= y < top + height
  }

  /** g with the first dy rows of the rectangle dark, and dx modules of the next one. */
  ghost predicate Painted(g: Grid, h: Grid, n: nat, left: int, top: int, width: int, dy: int, dx: int) {
    Square(g, n) && Square(h, n)
    && forall x, y :: 0 <= x < n && 0 <= y < n ==>
         h[y][x] == (g[y][x] || InRect(left, top, width, dy, x, y) || InRect(left, top + dy, dx, 1, x, y))
  }

  method FillRectangle(left: nat, top: nat, width: nat, height: nat, q: array<bv8>, n: nat)
    requires Sized(q[..], n) && left + width <= n && top + height <= n
    modifies q
    ensures Sized(q[..], n)
    ensures Painted(old(GridOf(q[..], n)), GridOf(q[..], n), n, left, top, width, height, 0)
  {
    hide GridOf, BufferLen;
    ghost var g := GridOf(q[..], n);
    for dy := 0 to height
      invariant Sized(q[..], n) && Painted(g, GridOf(q[..], n), n, left, top, width, dy, 0)
    {
      for dx := 0 to width
        invariant Sized(q[..], n) && Painted(g, GridOf(q[..], n), n, left, top, width, dy, dx)
      {
        SetModuleBounded(q, n, left + dx, top + dy, true);
      }
    }
  }

  // ---- initializeFunctionModules

  ghost function NthByte(n: nat): (b: bv8)
    requires n < 256
    ensures b as int == n
  {
    if n == 0 then 0 else NthByte(n - 1) + 1
  }

  lemma ConversionUnique(b: bv8, n: nat)
    requires b as int == n
    ensures n as bv8 == b
  {
  }

  lemma SizeByte(n: nat)
    requires n < 256
    ensures (n as bv8) as int == n
  {
    ConversionUnique(NthByte(n), n);
  }

  lemma LightByte(i: nat)
    requires i < 8
    ensures !Bit(0, i)
  {
  }

  /** The memset and the size byte: an all-light grid. */
  method ClearGrid(q: array<bv8>, n: nat)
    requires ValidSize(n) && n <= 177 && q.Length >= BufferLen(n)
    modifies q
    ensures Sized(q[..], n)
    ensures forall x, y :: 0 <= x < n && 0 <= y < n ==> !GridOf(q[..], n)[y][x]
  {
    hide Bit, CellIndex;
    var len := BufferLen(n);
    hide BufferLen;
    for i := 0 to len
      invariant forall k :: 0 <= k < i ==> q[k] == 0
    {
      q[i] := 0;
    }
    SizeByte(n);
    q[0] := n as bv8;
    forall x, y | 0 <= x < n && 0 <= y < n ensures !GridOf(q[..], n)[y][x] {
      GridAt(q[..], n, x, y);
      LightByte(CellIndex(n, x, y) % 8);
    }
  }

  /** The patterns drawn so far: all before the alignment loops, the alignment patterns before (i, j), the version areas. */
  ghost predicate Shows(g: Grid, version: nat, i: nat, j: nat, versionAreas: bool)
    requires ValidVersion(version) && i <= NumAlign(version) && j <= NumAlign(version)
  {
    var n := SizeOf(version);
    Square(g, n) && forall x, y :: 0 <= x < n && 0 <= y < n ==>
      g[y][x] == (IsTiming(x, y) || IsFinderArea(n, x, y) || AlignmentsBefore(version, i, j, x, y)
                  || (versionAreas && IsVersionArea(version, x, y)))
  }

  method FillTiming(q: array<bv8>, n: nat)
    requires Sized(q[..], n)
    requires forall x, y :: 0 <= x < n && 0 <= y < n ==> !GridOf(q[..], n)[y][x]
    modifies q
    ensures Sized(q[..], n)
    ensures forall x, y :: 0 <= x < n && 0 <= y < n ==> GridOf(q[..], n)[y][x] == IsTiming(x, y)
  {
    hide GridOf, BufferLen;
    FillRectangle(6, 0, 1, n, q, n);
    FillRectangle(0, 6, n, 1, q, n);
  }

  method FillFinders(version: nat, q: array<bv8>, n: nat)
    requires ValidVersion(version) && n == SizeOf(version) && Sized(q[..], n)
    requires forall x, y :: 0 <= x < n && 0 <= y < n ==> GridOf(q[..], n)[y][x] == IsTiming(x, y)
    modifies q
    ensures Sized(q[..], n) && Shows(GridOf(q[..], n), version, 0, 0, false)
  {
    hide GridOf, BufferLen, IsTiming, AlignmentsBefore, Painted, Shows;
    ghost var g := GridOf(q[..], n);
    FillRectangle(0, 0, 9, 9, q, n);
    ghost var g1 := GridOf(q[..], n);
    FillRectangle(n - 8, 0, 8, 9, q, n);
    ghost var g2 := GridOf(q[..], n);
    FillRectangle(0, n - 8, 9, 8, q, n);
    FinderRectangles(version, n, g, g1, g2, GridOf(q[..], n));
  }

  lemma FinderRectangles(version: nat, n: nat, g: Grid, g1: Grid, g2: Grid, g3: Grid)
    requires ValidVersion(version) && n == SizeOf(version)
    requires Square(g, n) && forall x, y :: 0 <= x < n && 0 <= y < n ==> g[y][x] == IsTiming(x, y)
    requires Painted(g, g1, n, 0, 0, 9, 9, 0) && Painted(g1, g2, n, n - 8, 0, 8, 9, 0) && Painted(g2, g3, n, 0, n - 8, 9, 8, 0)
    ensures Shows(g3, version, 0, 0, false)
  {
    hide NumAlign, InAlignment, IsTiming;
  }

  method FillAlignments(version: nat, q: array<bv8>, n: nat)
    requires ValidVersion(version) && n == SizeOf(version) && Sized(q[..], n)
    requires Shows(GridOf(q[..], n), version, 0, 0, false)
    modifies q
    ensures Sized(q[..], n) && Shows(GridOf(q[..], n), version, NumAlign(version), 0, false)
  {
    hide GridOf, BufferLen, NumAlign, AlignPos, SizeOf, Shows;
    var alignPatPos := new int[7];
    var numAlign := GetAlignmentPatternPositions(version, alignPatPos);
    for i := 0 to numAlign
      modifies q
      invariant Sized(q[..], n) && Shows(GridOf(q[..], n), version, i, 0, false)
    {
      for j := 0 to numAlign
        modifies q
        invariant Sized(q[..], n) && Shows(GridOf(q[..], n), version, i, j, false)
      {
        ghost var g := GridOf(q[..], n);
        if !((i == 0 && j == 0) || (i == 0 && j == numAlign - 1) || (i == numAlign - 1 && j == 0)) {
          AlignPosInside(version, i);
          AlignPosInside(version, j);
          FillRectangle(alignPatPos[i] - 2, alignPatPos[j] - 2, 5, 5, q, n);
        }
        ShowsNext(g, GridOf(q[..], n), version, i, j);
      }
      ShowsNextRow(GridOf(q[..], n), version, i);
    }
  }

  lemma ShowsNext(g: Grid, h: Grid, version: nat, i: nat, j: nat)
    requires ValidVersion(version) && i < NumAlign(version) && j < NumAlign(version)
    requires Shows(g, version, i, j, false)
    requires if FinderCorner(NumAlign(version), i, j) then h == g
             else Painted(g, h, SizeOf(version), AlignPos(version, i) - 2, AlignPos(version, j) - 2, 5, 5, 0)
    ensures Shows(h, version, i, j + 1, false)
  {
    hide NumAlign, AlignPos, SizeOf, AlignmentsBefore, IsTiming, IsFinderArea, IsVersionArea;
    var n := SizeOf(version);
    forall x, y | 0 <= x < n && 0 <= y < n
      ensures AlignmentsBefore(version, i, j + 1, x, y)
         <==> AlignmentsBefore(version, i, j, x, y) || InAlignment(version, i, j, x, y)
    {
      AlignmentsNext(version, i, j, x, y);
    }
  }

  lemma ShowsNextRow(g: Grid, version: nat, i: nat)
    requires ValidVersion(version) && i < NumAlign(version) && Shows(g, version, i, NumAlign(version), false)
    ensures Shows(g, version, i + 1, 0, false)
  {
    hide NumAlign, SizeOf, AlignmentsBefore, IsTiming, IsFinderArea, IsVersionArea;
    var n := SizeOf(version);
    forall x, y | 0 <= x < n && 0 <= y < n
      ensures AlignmentsBefore(version, i, NumAlign(version), x, y) <==> AlignmentsBefore(version, i + 1, 0, x, y)
    {
      AlignmentsNextRow(version, i, x, y);
    }
  }

  method InitializeFunctionModules(version: nat, q: array<bv8>)
    requires ValidVersion(version) && q.Length >= BufferLen(SizeOf(version))
    modifies q
    ensures Sized(q[..], SizeOf(version))
    ensures GridOf(q[..], SizeOf(version)) == FunctionModules(version)
  {
    hide GridOf, BufferLen, NumAlign, AlignmentsBefore, Shows;
    var n := version * 4 + 17;
    ClearGrid(q, n);
    FillTiming(q, n);
    FillFinders(version, q, n);
    FillAlignments(version, q, n);
    if version >= 7 {
      FillVersionAreas(version, q, n);
    }
    ShowsAll(GridOf(q[..], n), version);
  }

  method FillVersionAreas(version: nat, q: array<bv8>, n: nat)
    requires 7 <= version <= 40 && n == SizeOf(version) && Sized(q[..], n)
    requires Shows(GridOf(q[..], n), version, NumAlign(version), 0, false)
    modifies q
    ensures Sized(q[..], n) && Shows(GridOf(q[..], n), version, NumAlign(version), 0, true)
  {
    hide GridOf, BufferLen, NumAlign, Painted, Shows, SizeOf;
    ghost var g := GridOf(q[..], n);
    FillRectangle(n - 11, 0, 3, 6, q, n);
    ghost var g1 := GridOf(q[..], n);
    FillRectangle(0, n - 11, 6, 3, q, n);
    VersionRectangles(version, n, g, g1, GridOf(q[..], n));
  }

  lemma VersionRectangles(version: nat, n: nat, g: Grid, g1: Grid, g2: Grid)
    requires 7 <= version <= 40 && n == SizeOf(version) && Shows(g, version, NumAlign(version), 0, false)
    requires Painted(g, g1, n, n - 11, 0, 3, 6, 0) && Painted(g1, g2, n, 0, n - 11, 6, 3, 0)
    ensures Shows(g2, version, NumAlign(version), 0, true)
  {
    hide NumAlign, AlignmentsBefore, IsTiming, IsFinderArea;
  }

  lemma ShowsAll(g: Grid, version: nat)
    requires ValidVersion(version) && Shows(g, version, NumAlign(version), 0, version >= 7)
    ensures g == FunctionModules(version)
  {
    hide NumAlign, AlignmentsBefore, IsTiming, IsFinderArea;
    SameGrid(g, FunctionModules(version), SizeOf(version));
  }
}
