/** Placement of the codeword bits in the two-column zigzag (ISO/IEC 18004, section 7.7.3). */
module Zigzag {
  import opened Arithmetic
  import opened Grids

  // ---- Steps of the scan as (column pair, position within the pair)

  function Pair(n: nat, t: nat): int
    requires n > 0
  {
    t / (2 * n)
  }

  function Rest(n: nat, t: nat): int
    requires n > 0
  {
    t % (2 * n)
  }

  function Step(n: nat, p: nat, rest: nat): nat {
    p * (2 * n) + rest
  }

  /** The number of modules outside column 6. */
  function Steps(n: nat): nat
    requires n > 0
  {
    Step(n, (n - 1) / 2, 0)
  }

  lemma StepsAreModules(n: nat)
    requires ValidSize(n)
    ensures Steps(n) == n * (n - 1)
  {
    var m := (n - 1) / 2;
    assert n * (2 * m) == m * (2 * n);
  }

  lemma PartsOfStep(n: nat, p: nat, rest: nat)
    requires ValidSize(n) && p < (n - 1) / 2 && rest < 2 * n
    ensures Step(n, p, rest) < Steps(n) && Pair(n, Step(n, p, rest)) == p && Rest(n, Step(n, p, rest)) == rest
  {
    ProductOrder(p, (n - 1) / 2, 2 * n);
    DivModUnique(p * (2 * n) + rest, 2 * n, p, rest);
  }

  lemma StepOfParts(n: nat, t: nat)
    requires ValidSize(n) && t < Steps(n)
    ensures 0 <= Pair(n, t) < (n - 1) / 2 && 0 <= Rest(n, t) < 2 * n && Step(n, Pair(n, t), Rest(n, t)) == t
  {
    DivisionBound(t, 2 * n, (n - 1) / 2);
  }

  // ---- The modules visited

  /** The right column of the p-th column pair: the scan steps over column 6. */
  function RightColumn(n: nat, p: nat): int {
    if n - 1 - 2 * p > 6 then n - 1 - 2 * p else n - 2 - 2 * p
  }

  predicate Upward(right: int) {
    (right + 1) / 2 % 2 == 0
  }

  function Row(n: nat, right: int, vert: int): int {
    if Upward(right) then n - 1 - vert else vert
  }

  /** The module visited at step t: column pair, vertical counter, then the right column before the left one. */
  function Visit(n: nat, t: nat): (c: Coord)
    requires ValidSize(n) && t < Steps(n)
    ensures InGrid(c, n) && c.x != 6
  {
    StepOfParts(n, t);
    var right := RightColumn(n, Pair(n, t));
    Coord(right - Rest(n, t) % 2, Row(n, right, Rest(n, t) / 2))
  }

  /** Columns counted without column 6, and the even column that leads the pair of a column. */
  function Column(x: nat): nat {
    if x > 6 then x else x + 1
  }

  function Leader(x: nat): nat {
    if Column(x) % 2 == 0 then Column(x) else Column(x) + 1
  }

  /** The step at which a module outside column 6 is visited. */
  function StepOf(n: nat, c: Coord): int
    requires ValidSize(n) && InGrid(c, n) && c.x != 6
  {
    var p := (n - 1 - Leader(c.x)) / 2;
    Step(n, p, 2 * Row(n, RightColumn(n, p), c.y) + Leader(c.x) - Column(c.x))
  }

  /** The scan visits every module outside column 6 ... */
  lemma VisitStep(n: nat, c: Coord)
    requires ValidSize(n) && InGrid(c, n) && c.x != 6
    ensures 0 <= StepOf(n, c) < Steps(n) && Visit(n, StepOf(n, c)) == c
  {
    hide RightColumn, Column, Leader, Upward, Step, Steps, Pair, Rest;
    LeaderOfColumn(n, c.x);
    var p := (n - 1 - Leader(c.x)) / 2;
    var right := RightColumn(n, p);
    var rest := 2 * Row(n, right, c.y) + Leader(c.x) - Column(c.x);
    PartsOfStep(n, p, rest);
    assert rest % 2 == Leader(c.x) - Column(c.x) && rest / 2 == Row(n, right, c.y);
  }

  lemma LeaderOfColumn(n: nat, x: nat)
    requires ValidSize(n) && x < n && x != 6
    ensures Leader(x) <= n - 1 && (n - 1 - Leader(x)) % 2 == 0 && Leader(x) >= 2
    ensures 0 <= Leader(x) - Column(x) <= 1
    ensures RightColumn(n, (n - 1 - Leader(x)) / 2) - (Leader(x) - Column(x)) == x
  {
  }

  /** ... at exactly one step. */
  lemma StepVisit(n: nat, t: nat)
    requires ValidSize(n) && t < Steps(n)
    ensures StepOf(n, Visit(n, t)) == t
  {
    hide Upward, Step, Steps, Pair, Rest;
    StepOfParts(n, t);
    var p, rest := Pair(n, t), Rest(n, t);
    var c := Visit(n, t);
    assert Column(c.x) == n - 1 - 2 * p - rest % 2;
    assert Leader(c.x) == n - 1 - 2 * p;
  }

  lemma VisitParts(n: nat, p: nat, vert: nat, j: nat)
    requires ValidSize(n) && p < (n - 1) / 2 && vert < n && j < 2
    ensures Step(n, p, 2 * vert + j) < Steps(n)
    ensures Visit(n, Step(n, p, 2 * vert + j)) == Coord(RightColumn(n, p) - j, Row(n, RightColumn(n, p), vert))
  {
    assert (2 * vert + j) / 2 == vert && (2 * vert + j) % 2 == j;
    hide Step, Steps, Pair, Rest, RightColumn, Row;
    PartsOfStep(n, p, 2 * vert + j);
  }

  // ---- The course of the scan, without its column pairs and their directions

  /** The right one of two columns that are scanned together. */
  predicate IsRightColumn(x: int) {
    if x > 6 then x % 2 == 0 else x % 2 == 1
  }

  /**
   * From a the scan goes on to b: from a right column to the left in the same row; from a left column back to the right one
   * in a neighbouring row, or, from the first or last row, to the next column on its left that is not column 6.
   */
  predicate Follows(n: nat, a: Coord, b: Coord) {
    if IsRightColumn(a.x) then b.x == a.x - 1 && b.y == a.y
    else
      || (b.x == a.x + 1 && (b.y == a.y + 1 || b.y == a.y - 1))
      || (b.x == (if a.x == 7 then 5 else a.x - 1) && b.y == a.y && (a.y == 0 || a.y == n - 1))
  }

  /** The scan starts in the bottom right corner exactly at the sizes 4 k + 1, which symbols have, else in the top right one. */
  lemma ScanStarts(n: nat)
    requires ValidSize(n)
    ensures Steps(n) > 2 && Visit(n, 0) == Coord(n - 1, if n % 4 == 1 then n - 1 else 0)
    ensures Visit(n, 1) == Coord(n - 2, if n % 4 == 1 then n - 1 else 0)
    ensures Visit(n, 2) == Coord(n - 1, if n % 4 == 1 then n - 2 else 1)
  {
    hide Visit, Steps, Step;
    FirstSteps(n);
    VisitParts(n, 0, 0, 0);
    VisitParts(n, 0, 0, 1);
    VisitParts(n, 0, 1, 0);
  }

  lemma FirstSteps(n: nat)
    ensures Step(n, 0, 0) == 0 && Step(n, 0, 1) == 1 && Step(n, 0, 2) == 2
  {
  }

  /** One step of the scan, at every size. */
  lemma ScanFollows(n: nat, t: nat)
    requires ValidSize(n) && t + 1 < Steps(n)
    ensures Follows(n, Visit(n, t), Visit(n, t + 1))
  {
    hide Step, Steps, Pair, Rest;
    StepOfParts(n, t);
    StepOfParts(n, t + 1);
    var p, rest := Pair(n, t), Rest(n, t);
    NextParts(n, t);
    var right := RightColumn(n, p);
    assert IsRightColumn(right) && !IsRightColumn(right - 1);
    if rest + 1 == 2 * n {
      assert RightColumn(n, p + 1) == if right == 8 then 5 else right - 2;
      assert Upward(RightColumn(n, p + 1)) == !Upward(right);
    }
  }

  /** The next step is in the same pair of columns, or the first one of the next pair. */
  lemma NextParts(n: nat, t: nat)
    requires ValidSize(n) && t + 1 < Steps(n)
    ensures if Rest(n, t) + 1 < 2 * n then Pair(n, t + 1) == Pair(n, t) && Rest(n, t + 1) == Rest(n, t) + 1
            else Pair(n, t + 1) == Pair(n, t) + 1 && Rest(n, t + 1) == 0
  {
    var w := 2 * n;
    assert t == t / w * w + t % w;
    if t % w + 1 < w {
      DivModUnique(t + 1, w, t / w, t % w + 1);
    } else {
      assert (t / w + 1) * w == t / w * w + w;
      DivModUnique(t + 1, w, t / w + 1, 0);
    }
  }

  /** A step moves by at most one row, and by at most one column except across column 6. */
  lemma ScanMoves(n: nat, t: nat)
    requires ValidSize(n) && t + 1 < Steps(n)
    ensures var a, b := Visit(n, t), Visit(n, t + 1);
            -1 <= b.y - a.y <= 1 && (-1 <= b.x - a.x <= 1 || (a.x == 7 && b.x == 5))
  {
    hide Visit, Steps;
    ScanFollows(n, t);
  }
}
