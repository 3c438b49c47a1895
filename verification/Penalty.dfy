/** The penalty score that chooses the mask: the one-pass scans against their declarative meaning. */
module Penalty {
  import opened Arithmetic
  import opened Grids
  import opened Runs

  // ---- The run history

  /** h holds the last seven of the finished runs, newest first, and zeros before the first. */
  ghost predicate History(h: seq<nat>, done: seq<nat>) {
    |h| == 7 && forall i :: 0 <= i < 7 ==> h[i] == if i < |done| then done[|done| - 1 - i] else 0
  }

  method FinderPenaltyAddHistory(currentRunLength: nat, runHistory: array<nat>, qrsize: nat, ghost done: seq<nat>)
    requires runHistory.Length == 7 && qrsize > 0 && History(runHistory[..], done)
    requires done != [] ==> done[|done| - 1] > 0
    modifies runHistory
    ensures History(runHistory[..], done + [currentRunLength + (if done == [] then qrsize else 0)])
  {
    var length := currentRunLength;
    assert runHistory[0] == runHistory[..][0];
    if runHistory[0] == 0 {
      length := length + qrsize;
    }
    ghost var h := runHistory[..];
    MoveHistory(runHistory);
    runHistory[0] := length;
    assert runHistory[..] == [length] + h[..6];
  }

  /** The memmove that drops the oldest run. */
  method MoveHistory(runHistory: array<nat>)
    requires runHistory.Length == 7
    modifies runHistory
    ensures runHistory[1..] == old(runHistory[..6])
  {
    for k := 0 to 6
      invariant forall i :: 0 <= i < 7 - k ==> runHistory[i] == old(runHistory[i])
      invariant forall i :: 7 - k <= i < 7 ==> runHistory[i] == old(runHistory[i - 1])
    {
      runHistory[6 - k] := runHistory[5 - k];
    }
  }

  function LastPattern(done: seq<nat>): nat {
    if |done| >= 7 then PatternAt(done, |done| - 1) else 0
  }

  method FinderPenaltyCountPatterns(runHistory: array<nat>, qrsize: nat, ghost done: seq<nat>) returns (count: nat)
    requires runHistory.Length == 7 && History(runHistory[..], done)
    requires runHistory[1] <= qrsize * 3
    ensures count == LastPattern(done)
  {
    ghost var h := runHistory[..];
    var n := runHistory[1];
    var core := n > 0 && runHistory[2] == n && runHistory[3] == n * 3 && runHistory[4] == n && runHistory[5] == n;
    count := (if core && runHistory[0] >= n * 4 && runHistory[6] >= n then 1 else 0)
           + (if core && runHistory[6] >= n * 4 && runHistory[0] >= n then 1 else 0);
    assert h[0] == runHistory[0] && h[1] == n && h[2] == runHistory[2] && h[3] == runHistory[3];
    assert h[4] == runHistory[4] && h[5] == runHistory[5] && h[6] == runHistory[6];
  }

  // ---- One line

  function LineOf(g: Grid, n: nat, index: nat, vertical: bool): (line: seq<bool>)
    requires Square(g, n) && index < n
    ensures |line| == n
  {
    if vertical then seq(n, y requires 0 <= y < n => g[y][index]) else g[index]
  }

  /** The padded lengths of the runs finished so far. */
  function Done(ls: seq<nat>, n: nat): (done: seq<nat>)
    requires ls != []
    ensures |done| == |ls| - 1
  {
    PadFirst(ls, n)[..|ls| - 1]
  }

  /** The scan has read the modules of `line`. */
  ghost predicate Scanned(line: seq<bool>, n: nat, h: seq<nat>, runColor: bool, runLength: nat, score: nat) {
    var ls := Lengths(line);
    runColor == DarkRun(|ls| - 1) && runLength == ls[|ls| - 1] && History(h, Done(ls, n))
    && score == RunScore(ls) + PatternCount(Done(ls, n)) * PENALTY_N3
  }

  lemma ScanStart(n: nat)
    ensures Scanned([], n, [0, 0, 0, 0, 0, 0, 0], false, 0, 0)
  {
  }

  lemma RunScoreGrows(ls: seq<nat>)
    requires ls != []
    ensures var m := |ls| - 1;
            RunScore(ls[m := ls[m] + 1]) == RunScore(ls) + (if ls[m] + 1 == 5 then PENALTY_N1 else if ls[m] + 1 > 5 then 1 else 0)
    ensures RunScore(ls + [1]) == RunScore(ls)
  {
    var m := |ls| - 1;
    assert ls[m := ls[m] + 1][..m] == ls[..m];
    assert (ls + [1])[..m + 1] == ls;
  }

  lemma ScanSame(line: seq<bool>, b: bool, n: nat, h: seq<nat>, runLength: nat, score: nat)
    requires Scanned(line, n, h, b, runLength, score)
    ensures Scanned(line + [b], n, h, b, runLength + 1,
                    score + (if runLength + 1 == 5 then PENALTY_N1 else if runLength + 1 > 5 then 1 else 0))
  {
    hide Lengths, RunScore, PatternCount, DarkRun, History;
    var ls := Lengths(line);
    LengthsSnoc(line, b);
    RunScoreGrows(ls);
    assert Done(NextLengths(ls, b), n) == Done(ls, n);
  }

  lemma DoneAppend(ls: seq<nat>, n: nat)
    requires ls != []
    ensures Done(ls + [1], n) == Done(ls, n) + [ls[|ls| - 1] + (if Done(ls, n) == [] then n else 0)]
    ensures Done(ls + [1], n) == PadFirst(ls, n)
    ensures PatternCount(PadFirst(ls, n))
         == PatternCount(Done(ls, n)) + (if DarkRun(|ls| - 1) then 0 else LastPattern(PadFirst(ls, n)))
  {
    hide DarkRun, PatternAt;
  }

  lemma ScanChange(line: seq<bool>, b: bool, n: nat, h: seq<nat>, h': seq<nat>, runLength: nat, score: nat)
    requires Scanned(line, n, h, !b, runLength, score)
    requires History(h', Done(Lengths(line), n) + [runLength + (if Done(Lengths(line), n) == [] then n else 0)])
    ensures Scanned(line + [b], n, h', b, 1,
                    score + (if b then LastPattern(PadFirst(Lengths(line), n)) * PENALTY_N3 else 0))
  {
    hide Lengths, RunScore, PatternCount, DarkRun, History, LastPattern, PadFirst, Done;
    var ls := Lengths(line);
    LengthsSnoc(line, b);
    RunScoreGrows(ls);
    DoneAppend(ls, n);
    Alternate(|ls| - 1);
  }

  /** Finished runs are not empty, and no run is longer than the line with its borders. */
  lemma DoneFacts(line: seq<bool>, n: nat)
    requires n > 0 && |line| <= n
    ensures var done := Done(Lengths(line), n);
            (done != [] ==> done[|done| - 1] > 0) && (forall k :: 0 <= k < |done| ==> done[k] <= 2 * n)
    ensures forall k :: 0 <= k < |PadFirst(Lengths(line), n)| ==> PadFirst(Lengths(line), n)[k] <= 2 * n
  {
    LengthsExpand(line);
    LengthBound(line);
    hide Lengths, Expand;
  }

  method ScanModule(ghost line: seq<bool>, b: bool, n: nat, runHistory: array<nat>, runColor: bool, runLength: nat, score: nat)
    returns (runColor': bool, runLength': nat, score': nat)
    requires runHistory.Length == 7 && n > 0 && |line| <= n
    requires Scanned(line, n, runHistory[..], runColor, runLength, score)
    modifies runHistory
    ensures Scanned(line + [b], n, runHistory[..], runColor', runLength', score')
  {
    hide Scanned, History, LastPattern, Lengths;
    runColor', runLength', score' := runColor, runLength, score;
    if b == runColor {
      runLength' := runLength' + 1;
      if runLength' == 5 {
        score' := score' + PENALTY_N1;
      } else if runLength' > 5 {
        score' := score' + 1;
      }
      ScanSame(line, b, n, runHistory[..], runLength, score);
    } else {
      ghost var h, done := runHistory[..], Done(Lengths(line), n);
      ScannedParts(line, n, h, runColor, runLength, score);
      DoneFacts(line, n);
      FinderPenaltyAddHistory(runLength, runHistory, n, done);
      ScanChange(line, b, n, h, runHistory[..], runLength, score);
      if !runColor {
        HistoryBound(runHistory[..], PadFirst(Lengths(line), n), 2 * n);
        var count := FinderPenaltyCountPatterns(runHistory, n, PadFirst(Lengths(line), n));
        score' := score' + count * PENALTY_N3;
      }
      runColor' := b;
      runLength' := 1;
    }
  }

  lemma HistoryBound(h: seq<nat>, done: seq<nat>, bound: nat)
    requires History(h, done) && forall k :: 0 <= k < |done| ==> done[k] <= bound
    ensures h[1] <= bound
  {
  }

  lemma ScannedParts(line: seq<bool>, n: nat, h: seq<nat>, runColor: bool, runLength: nat, score: nat)
    requires Scanned(line, n, h, runColor, runLength, score)
    ensures var ls := Lengths(line);
            runLength == ls[|ls| - 1] && History(h, Done(ls, n)) && runColor == DarkRun(|ls| - 1)
            && Done(ls, n) + [runLength + (if Done(ls, n) == [] then n else 0)] == PadFirst(ls, n)
            && score == RunScore(ls) + PatternCount(Done(ls, n)) * PENALTY_N3
  {
    hide Lengths, RunScore, PatternCount, DarkRun, History;
    DoneAppend(Lengths(line), n);
  }

  method FinderPenaltyTerminateAndCount(currentRunColor: bool, currentRunLength: nat, runHistory: array<nat>, qrsize: nat,
                                        ghost line: seq<bool>, ghost score: nat)
    returns (count: nat)
    requires runHistory.Length == 7 && qrsize > 0 && |line| == qrsize
    requires Scanned(line, qrsize, runHistory[..], currentRunColor, currentRunLength, score)
    modifies runHistory
    ensures score + count * PENALTY_N3 == LineScore(line)
  {
    hide Scanned, History, LastPattern, Lengths, PatternCount, RunScore, PadLast;
    ghost var ls := Lengths(line);
    ghost var padded := PadFirst(ls, qrsize);
    ScannedParts(line, qrsize, runHistory[..], currentRunColor, currentRunLength, score);
    DoneFacts(line, qrsize);
    ghost var done := Done(ls, qrsize);
    var length := currentRunLength;
    if currentRunColor {
      FinderPenaltyAddHistory(length, runHistory, qrsize, done);
      done := padded;
      length := 0;
      DarkRunPositive(line, qrsize);
    }
    length := length + qrsize;
    FinderPenaltyAddHistory(length, runHistory, qrsize, done);
    ghost var all := done + [length + (if done == [] then qrsize else 0)];
    TerminatedLine(line, qrsize, runHistory[..], currentRunColor, currentRunLength, score, all);
    count := FinderPenaltyCountPatterns(runHistory, qrsize, all);
  }

  lemma DarkRunPositive(line: seq<bool>, n: nat)
    requires DarkRun(|Lengths(line)| - 1)
    ensures var p := PadFirst(Lengths(line), n); p[|p| - 1] > 0 && p != []
  {
    LengthsExpand(line);
    hide Lengths, Expand;
  }

  lemma TerminatedLine(line: seq<bool>, n: nat, h: seq<nat>, runColor: bool, runLength: nat, score: nat, all: seq<nat>)
    requires n > 0 && |line| == n
    requires var ls := Lengths(line);
             runLength == ls[|ls| - 1] && runColor == DarkRun(|ls| - 1)
             && score == RunScore(ls) + PatternCount(Done(ls, n)) * PENALTY_N3
    requires var ls := Lengths(line);
             all == if runColor then PadFirst(ls, n) + [n]
                    else Done(ls, n) + [runLength + n + (if Done(ls, n) == [] then n else 0)]
    requires History(h, all)
    ensures h[1] <= 3 * n
    ensures score + LastPattern(all) * PENALTY_N3 == LineScore(line)
  {
    hide Lengths, RunScore, PatternCount, LastPattern, Bordered, DarkRun, PadFirst, Done;
    var ls := Lengths(line);
    LengthsBordered(line, n);
    DoneFacts(line, n);
    DoneAppend(ls, n);
    TerminatedRuns(ls, n, all);
    PatternCountSnoc(all);
    HistoryBound(h, all, 3 * n);
  }

  lemma PatternCountSnoc(all: seq<nat>)
    requires all != []
    ensures PatternCount(all) == PatternCount(all[..|all| - 1]) + (if DarkRun(|all| - 1) then 0 else LastPattern(all))
  {
    hide PatternAt;
  }

  lemma TerminatedRuns(ls: seq<nat>, n: nat, all: seq<nat>)
    requires ls != []
    requires forall k :: 0 <= k < |PadFirst(ls, n)| ==> PadFirst(ls, n)[k] <= 2 * n
    requires all == if DarkRun(|ls| - 1) then PadFirst(ls, n) + [n]
                    else Done(ls, n) + [ls[|ls| - 1] + n + (if Done(ls, n) == [] then n else 0)]
    ensures all == PadLast(PadFirst(ls, n), n) && all != [] && !DarkRun(|all| - 1)
    ensures all[..|all| - 1] == if DarkRun(|ls| - 1) then PadFirst(ls, n) else Done(ls, n)
    ensures forall k :: 0 <= k < |all| ==> all[k] <= 3 * n
  {
    Alternate(|ls| - 1);
    hide DarkRun;
  }

  /** The scan of one row or column; its score is the declarative score of the line. */
  method ScanLine(q: array<bv8>, n: nat, index: nat, vertical: bool) returns (score: nat)
    requires Sized(q[..], n) && index < n
    ensures score == LineScore(LineOf(GridOf(q[..], n), n, index, vertical))
  {
    hide GridOf, Scanned, LineScore;
    ghost var line := LineOf(GridOf(q[..], n), n, index, vertical);
    var runColor, runLength := false, 0;
    var runHistory := new nat[7](_ => 0);
    assert runHistory[..] == [0, 0, 0, 0, 0, 0, 0];
    score := 0;
    ScanStart(n);
    assert line[..0] == [];
    for i := 0 to n
      invariant Scanned(line[..i], n, runHistory[..], runColor, runLength, score)
    {
      var b := ReadModule(q, n, index, vertical, i);
      assert line[..i + 1] == line[..i] + [b];
      runColor, runLength, score := ScanModule(line[..i], b, n, runHistory, runColor, runLength, score);
    }
    assert line[..n] == line;
    var count := FinderPenaltyTerminateAndCount(runColor, runLength, runHistory, n, line, score);
    score := score + count * PENALTY_N3;
  }

  method ReadModule(q: array<bv8>, n: nat, index: nat, vertical: bool, i: nat) returns (b: bool)
    requires Sized(q[..], n) && index < n && i < n
    ensures b == LineOf(GridOf(q[..], n), n, index, vertical)[i]
  {
    hide GridOf;
    if vertical {
      b := GetModuleBounded(q, n, index, i);
    } else {
      b := GetModuleBounded(q, n, i, index);
    }
  }

  // ---- The whole grid

  /** The scores of the first k rows or columns. */
  function LineScores(g: Grid, n: nat, vertical: bool, k: nat): nat
    requires Square(g, n) && k <= n
  {
    if k == 0 then 0 else LineScores(g, n, vertical, k - 1) + LineScore(LineOf(g, n, k - 1, vertical))
  }

  /** Top left corners of the 2 by 2 blocks of one colour that come before (x, y) row by row. */
  ghost function BlocksBefore(g: Grid, n: nat, x: nat, y: nat): set<Coord>
    requires Square(g, n)
  {
    set a: nat, b: nat | a < n && b < n && IsBlock(g, n, a, b) && (b < y || (b == y && a < x)) :: Coord(a, b)
  }

  predicate IsBlock(g: Grid, n: nat, x: nat, y: nat)
    requires Square(g, n)
  {
    x + 1 < n && y + 1 < n && g[y][x] == g[y][x + 1] && g[y][x] == g[y + 1][x] && g[y][x] == g[y + 1][x + 1]
  }

  ghost function Blocks(g: Grid, n: nat): set<Coord>
    requires Square(g, n)
  {
    BlocksBefore(g, n, 0, n)
  }

  ghost function DarkBefore(g: Grid, n: nat, x: nat, y: nat): set<Coord>
    requires Square(g, n)
  {
    set a: nat, b: nat | a < n && b < n && g[b][a] && (b < y || (b == y && a < x)) :: Coord(a, b)
  }

  ghost function DarkModules(g: Grid, n: nat): set<Coord>
    requires Square(g, n)
  {
    DarkBefore(g, n, 0, n)
  }

  lemma BlocksNext(g: Grid, n: nat, x: nat, y: nat)
    requires Square(g, n) && x < n && y < n
    ensures |BlocksBefore(g, n, x + 1, y)| == |BlocksBefore(g, n, x, y)| + (if IsBlock(g, n, x, y) then 1 else 0)
  {
    hide IsBlock;
    var c := Coord(x, y);
    assert c !in BlocksBefore(g, n, x, y);
    if IsBlock(g, n, x, y) {
      assert BlocksBefore(g, n, x + 1, y) == BlocksBefore(g, n, x, y) + {c};
    } else {
      assert BlocksBefore(g, n, x + 1, y) == BlocksBefore(g, n, x, y);
    }
  }

  lemma BlocksNextRow(g: Grid, n: nat, y: nat)
    requires Square(g, n) && n > 0 && y < n
    ensures BlocksBefore(g, n, n - 1, y) == BlocksBefore(g, n, 0, y + 1)
    ensures BlocksBefore(g, n, 0, 0) == {} && BlocksBefore(g, n, 0, n - 1) == Blocks(g, n)
  {
  }

  lemma DarkNext(g: Grid, n: nat, x: nat, y: nat)
    requires Square(g, n) && x < n && y < n
    ensures |DarkBefore(g, n, x + 1, y)| == |DarkBefore(g, n, x, y)| + (if g[y][x] then 1 else 0)
  {
    var c := Coord(x, y);
    assert c !in DarkBefore(g, n, x, y);
    if g[y][x] {
      assert DarkBefore(g, n, x + 1, y) == DarkBefore(g, n, x, y) + {c};
    } else {
      assert DarkBefore(g, n, x + 1, y) == DarkBefore(g, n, x, y);
    }
  }

  lemma DarkNextRow(g: Grid, n: nat, y: nat)
    requires Square(g, n) && y < n
    ensures DarkBefore(g, n, n, y) == DarkBefore(g, n, 0, y + 1)
    ensures DarkBefore(g, n, 0, 0) == {}
  {
  }

  /** The balance term as the code computes it. */
  function BalanceSteps(dark: nat, total: nat): int
    requires total > 0
  {
    var d := dark * 20 - total * 10;
    ((if d < 0 then -d else d) + total - 1) / total - 1
  }

  /** The dark share lies within k steps of five percent around one half. */
  predicate Balanced(dark: nat, total: nat, k: int) {
    (45 - 5 * k) * total <= 100 * dark <= (55 + 5 * k) * total
  }

  /** The balance term is the least k >= 0 that balances the grid, and never more than 9. */
  lemma BalanceMeaning(dark: nat, total: nat)
    requires total % 2 == 1 && dark <= total
    ensures var k := BalanceSteps(dark, total);
            0 <= k <= 9 && Balanced(dark, total, k) && (forall j :: 0 <= j < k ==> !Balanced(dark, total, j))
  {
    var d := dark * 20 - total * 10;
    var a := if d < 0 then -d else d;
    assert d != 0;
    var k := BalanceSteps(dark, total);
    CeilingBounds(a, total);
    assert k * total < a <= (k + 1) * total;
    hide BalanceSteps;
    ProductOrder(k, -1, total);
    ProductOrder(9, k, total);
    ProductOrder(k, 0, total);
    BalancedByDistance(dark, total, k);
    forall j | 0 <= j < k ensures !Balanced(dark, total, j) {
      ProductOrder(j, k, total);
      BalancedByDistance(dark, total, j);
    }
  }

  lemma CeilingBounds(a: nat, total: nat)
    requires a > 0 && total > 0
    ensures var k := (a + total - 1) / total - 1; k * total < a <= (k + 1) * total
  {
    var q := (a + total - 1) / total;
    assert a + total - 1 == q * total + (a + total - 1) % total;
    assert (q - 1) * total == q * total - total;
  }

  lemma BalancedByDistance(dark: nat, total: nat, k: int)
    ensures var d := dark * 20 - total * 10;
            Balanced(dark, total, k) <==> -((k + 1) * total) <= d <= (k + 1) * total
  {
    assert (45 - 5 * k) * total == 45 * total - 5 * (k * total);
    assert (55 + 5 * k) * total == 55 * total + 5 * (k * total);
    assert (k + 1) * total == k * total + total;
  }

  ghost function PenaltyScore(g: Grid, n: nat): int
    requires Square(g, n) && n > 0
  {
    LineScores(g, n, false, n) + LineScores(g, n, true, n) + |Blocks(g, n)| * PENALTY_N2
    + BalanceSteps(|DarkModules(g, n)|, Total(n)) * PENALTY_N4
  }

  function Total(n: nat): (t: nat)
    requires n > 0
    ensures t > 0
  {
    ProductOrder(0, n, n);
    n * n
  }

  method ScanLines(q: array<bv8>, n: nat, vertical: bool) returns (result: nat)
    requires Sized(q[..], n)
    ensures result == LineScores(GridOf(q[..], n), n, vertical, n)
  {
    hide GridOf, LineScore;
    result := 0;
    for k := 0 to n
      invariant result == LineScores(GridOf(q[..], n), n, vertical, k)
    {
      var score := ScanLine(q, n, k, vertical);
      result := result + score;
    }
  }

  method CountBlocks(q: array<bv8>, n: nat) returns (count: nat)
    requires Sized(q[..], n)
    ensures count == |Blocks(GridOf(q[..], n), n)|
  {
    hide GridOf, BlocksBefore;
    ghost var g := GridOf(q[..], n);
    count := 0;
    BlocksNextRow(g, n, 0);
    for y := 0 to n - 1
      invariant count == |BlocksBefore(g, n, 0, y)|
    {
      for x := 0 to n - 1
        invariant count == |BlocksBefore(g, n, x, y)|
      {
        BlocksNext(g, n, x, y);
        var color := GetModuleBounded(q, n, x, y);
        var right := GetModuleBounded(q, n, x + 1, y);
        var below := GetModuleBounded(q, n, x, y + 1);
        var across := GetModuleBounded(q, n, x + 1, y + 1);
        if color == right && color == below && color == across {
          count := count + 1;
        }
      }
      BlocksNextRow(g, n, y);
    }
  }

  method CountDark(q: array<bv8>, n: nat) returns (dark: nat)
    requires Sized(q[..], n)
    ensures dark == |DarkModules(GridOf(q[..], n), n)|
  {
    hide GridOf, DarkBefore;
    ghost var g := GridOf(q[..], n);
    dark := 0;
    DarkNextRow(g, n, 0);
    for y := 0 to n
      invariant dark == |DarkBefore(g, n, 0, y)|
    {
      for x := 0 to n
        invariant dark == |DarkBefore(g, n, x, y)|
      {
        DarkNext(g, n, x, y);
        var color := GetModuleBounded(q, n, x, y);
        if color {
          dark := dark + 1;
        }
      }
      DarkNextRow(g, n, y);
    }
  }

  method GetPenaltyScore(q: array<bv8>, n: nat) returns (result: int)
    requires Sized(q[..], n)
    ensures result == PenaltyScore(GridOf(q[..], n), n)
  {
    hide GridOf, LineScores, BlocksBefore, DarkBefore, BalanceSteps;
    var rows := ScanLines(q, n, false);
    var columns := ScanLines(q, n, true);
    var blocks := CountBlocks(q, n);
    var dark := CountDark(q, n);
    var k := BalanceSteps(dark, Total(n));
    result := rows + columns + blocks * PENALTY_N2 + k * PENALTY_N4;
  }

  // ---- Rows and columns count alike

  function Transposed(g: Grid, n: nat): (h: Grid)
    requires Square(g, n)
    ensures Square(h, n)
  {
    seq(n, y requires 0 <= y < n => seq(n, x requires 0 <= x < n => g[x][y]))
  }

  lemma {:induction false} TransposedLines(g: Grid, n: nat, vertical: bool, k: nat)
    requires Square(g, n) && k <= n
    ensures LineScores(Transposed(g, n), n, vertical, k) == LineScores(g, n, !vertical, k)
  {
    hide LineScore;
    if k > 0 {
      TransposedLines(g, n, vertical, k - 1);
      assert LineOf(Transposed(g, n), n, k - 1, vertical) == LineOf(g, n, k - 1, !vertical);
    }
  }

  function Swapped(cs: set<Coord>): set<Coord> {
    set c | c in cs :: Coord(c.y, c.x)
  }

  lemma {:induction false} SwappedSize(cs: set<Coord>)
    ensures |Swapped(cs)| == |cs|
  {
    if cs != {} {
      var c :| c in cs;
      SwappedSize(cs - {c});
      assert Coord(c.y, c.x) !in Swapped(cs - {c});
      assert Swapped(cs) == Swapped(cs - {c}) + {Coord(c.y, c.x)};
    }
  }

  lemma TransposedBlocks(g: Grid, n: nat)
    requires Square(g, n)
    ensures Blocks(Transposed(g, n), n) == Swapped(Blocks(g, n))
  {
    var h := Transposed(g, n);
    forall x: nat, y: nat | x < n && y < n ensures IsBlock(h, n, x, y) == IsBlock(g, n, y, x) {
    }
    hide IsBlock;
    forall c ensures c in Blocks(h, n) <==> c in Swapped(Blocks(g, n)) {
      if c in Blocks(h, n) {
        assert Coord(c.y, c.x) in Blocks(g, n);
      }
    }
  }

  lemma TransposedDark(g: Grid, n: nat)
    requires Square(g, n)
    ensures DarkModules(Transposed(g, n), n) == Swapped(DarkModules(g, n))
  {
    forall c ensures c in DarkModules(Transposed(g, n), n) <==> c in Swapped(DarkModules(g, n)) {
      if c in DarkModules(Transposed(g, n), n) {
        assert Coord(c.y, c.x) in DarkModules(g, n);
      }
    }
  }

  /** The score of a grid is that of its transpose. */
  lemma PenaltyTransposed(g: Grid, n: nat)
    requires Square(g, n) && n > 0
    ensures PenaltyScore(Transposed(g, n), n) == PenaltyScore(g, n)
  {
    hide LineScores, Blocks, DarkModules, BalanceSteps, Transposed, Swapped;
    TransposedLines(g, n, false, n);
    TransposedLines(g, n, true, n);
    TransposedBlocks(g, n);
    TransposedDark(g, n);
    SwappedSize(Blocks(g, n));
    SwappedSize(DarkModules(g, n));
  }

  // ---- Stripes: every part of the score at work

  /** Alternating modules, the first one dark. */
  function Alternating(n: nat): (line: seq<bool>)
    ensures |line| == n
  {
    seq(n, x => x % 2 == 0)
  }

  function Ones(n: nat): (ls: seq<nat>)
    ensures |ls| == n + 1 && forall k :: 0 <= k <= n ==> ls[k] == if k == 0 then 0 else 1
  {
    if n == 0 then [0] else Ones(n - 1) + [1]
  }

  lemma {:induction false} AlternatingExpands(n: nat)
    ensures Expand(Ones(n)) == Alternating(n)
  {
    if n == 0 {
      ExpandEmpty();
    } else {
      AlternatingExpands(n - 1);
      assert Ones(n)[..n] == Ones(n - 1);
      assert Repeat(DarkRun(n), 1) == [DarkRun(n)];
      assert Alternating(n) == Alternating(n - 1) + [DarkRun(n)];
    }
  }

  lemma {:induction false} OnesScore(n: nat)
    ensures RunScore(Ones(n)) == 0
  {
    if n > 0 {
      OnesScore(n - 1);
      assert Ones(n)[..n] == Ones(n - 1);
    } else {
      NoRuns();
    }
  }

  /** No finder-like pattern in runs that are all of one module but for the first and the last. */
  lemma {:induction false} NoPatterns(ls: seq<nat>, m: nat)
    requires m <= |ls| && forall k :: 0 < k < |ls| - 1 ==> ls[k] == 1
    ensures PatternCount(ls[..m]) == 0
  {
    if m > 0 {
      NoPatterns(ls, m - 1);
      assert ls[..m][..m - 1] == ls[..m - 1];
    }
  }

  lemma AlternatingScore(n: nat)
    requires n >= 5 && n % 2 == 1
    ensures LineScore(Alternating(n)) == 0
  {
    hide Lengths, RunScore, PatternCount, Bordered;
    AlternatingExpands(n);
    LengthsUnique(Ones(n));
    OnesScore(n);
    LengthsBordered(Alternating(n), n);
    var all := PadLast(PadFirst(Ones(n), n), n);
    NoPatterns(all, |all|);
    assert all[..|all|] == all;
  }

  /** A line of one colour is one run. */
  lemma UniformScore(b: bool, n: nat)
    requires n >= 5
    ensures LineScore(Repeat(b, n)) == n - 2
  {
    hide Lengths, Bordered;
    var ls := if b then [0, n] else [n];
    assert Expand(ls) == Repeat(b, n) by {
      ExpandOne(b, n);
    }
    LengthsUnique(ls);
    LengthsBordered(Repeat(b, n), n);
    var all := PadLast(PadFirst(ls, n), n);
    assert |all| <= 3;
    FewRuns(all);
    UniformRun(b, n);
  }

  lemma ExpandOne(b: bool, n: nat)
    ensures Expand(if b then [0, n] else [n]) == Repeat(b, n)
  {
    ExpandEmpty();
    if b {
      assert [0, n][..1] == [0];
    } else {
      assert [n][..0] == [];
    }
  }

  lemma UniformRun(b: bool, n: nat)
    requires n >= 5
    ensures RunScore(if b then [0, n] else [n]) == n - 2
  {
    NoRuns();
    if b {
      assert [0, n][..1] == [0];
    } else {
      assert [n][..0] == [];
    }
  }

  lemma {:induction false} FewRuns(ls: seq<nat>)
    requires |ls| <= 6
    ensures PatternCount(ls) == 0
  {
    if ls != [] {
      FewRuns(ls[..|ls| - 1]);
    }
  }

  /** Vertical stripes. */
  function Stripes(n: nat): (g: Grid)
    ensures Square(g, n)
  {
    seq(n, y => Alternating(n))
  }

  lemma {:induction false} StripeLines(n: nat, k: nat)
    requires n >= 5 && n % 2 == 1 && k <= n
    ensures LineScores(Stripes(n), n, false, k) == 0
    ensures LineScores(Stripes(n), n, true, k) == k * (n - 2)
  {
    hide LineScore;
    if k > 0 {
      StripeLines(n, k - 1);
      AlternatingScore(n);
      UniformScore((k - 1) % 2 == 0, n);
      assert LineOf(Stripes(n), n, k - 1, true) == Repeat((k - 1) % 2 == 0, n);
      assert (k - 1) * (n - 2) + (n - 2) == k * (n - 2);
    }
  }

  lemma NoBlocksInStripes(n: nat)
    ensures Blocks(Stripes(n), n) == {}
  {
  }

  lemma {:induction false} DarkInStripes(n: nat, x: nat, y: nat)
    requires n % 2 == 1 && x <= n && y < n
    ensures |DarkBefore(Stripes(n), n, x, y)| == y * ((n + 1) / 2) + (x + 1) / 2
    decreases y, x
  {
    hide DarkBefore;
    var g := Stripes(n);
    if x > 0 {
      DarkInStripes(n, x - 1, y);
      DarkNext(g, n, x - 1, y);
    } else if y > 0 {
      DarkInStripes(n, n, y - 1);
      DarkNextRow(g, n, y - 1);
      assert (y - 1) * ((n + 1) / 2) + (n + 1) / 2 == y * ((n + 1) / 2);
    } else {
      DarkNextRow(g, n, 0);
    }
  }

  lemma HalfDark(n: nat)
    requires n >= 21 && n % 2 == 1
    ensures BalanceSteps(n * ((n + 1) / 2), n * n) == 0
  {
    ProductOrder(10, n, n);
    var half := (n + 1) / 2;
    assert n == 2 * half - 1;
    assert n * n == 2 * (n * half) - n;
    HalfIsBalanced(n * half, n * n, n);
  }

  lemma HalfIsBalanced(dark: nat, total: nat, n: nat)
    requires 2 * dark == total + n && 0 < 10 * n <= total
    ensures BalanceSteps(dark, total) == 0
  {
    assert dark * 20 - total * 10 == 10 * n;
    DivModUnique(10 * n + total - 1, total, 1, 10 * n - 1);
  }

  /** Stripes have no blocks and no patterns, and the balance is even: each column scores n - 2, and nothing else does. */
  lemma PenaltyOfStripes(n: nat)
    requires ValidSize(n)
    ensures PenaltyScore(Stripes(n), n) == n * (n - 2)
    ensures PenaltyScore(Transposed(Stripes(n), n), n) == n * (n - 2)
  {
    hide LineScores, Blocks, DarkBefore, BalanceSteps, Stripes;
    StripeLines(n, n);
    NoBlocksInStripes(n);
    DarkInStripes(n, n, n - 1);
    DarkNextRow(Stripes(n), n, n - 1);
    assert (n - 1) * ((n + 1) / 2) + (n + 1) / 2 == n * ((n + 1) / 2);
    HalfDark(n);
    PenaltyTransposed(Stripes(n), n);
  }

  // ---- Bounds

  lemma {:induction false} DarkRowBound(g: Grid, n: nat, x: nat, y: nat)
    requires Square(g, n) && x <= n && y < n
    ensures |DarkBefore(g, n, x, y)| <= |DarkBefore(g, n, 0, y)| + x
  {
    hide DarkBefore;
    if x > 0 {
      DarkRowBound(g, n, x - 1, y);
      DarkNext(g, n, x - 1, y);
    }
  }

  lemma {:induction false} DarkBound(g: Grid, n: nat, y: nat)
    requires Square(g, n) && n > 0 && y <= n
    ensures |DarkBefore(g, n, 0, y)| <= y * n
  {
    hide DarkBefore;
    if y == 0 {
      DarkNextRow(g, n, 0);
    } else {
      DarkBound(g, n, y - 1);
      DarkRowBound(g, n, n, y - 1);
      DarkNextRow(g, n, y - 1);
      assert y * n == (y - 1) * n + n;
    }
  }

  /** In every symbol the balance term is the least step count, between 0 and 9, that balances its dark modules. */
  lemma GridBalance(g: Grid, n: nat)
    requires ValidSize(n) && Square(g, n)
    ensures var dark, total := |DarkModules(g, n)|, n * n;
            var k := BalanceSteps(dark, total);
            0 <= k <= 9 && Balanced(dark, total, k) && (forall j :: 0 <= j < k ==> !Balanced(dark, total, j))
  {
    hide DarkBefore, BalanceSteps, Balanced;
    DarkBound(g, n, n);
    var m := n / 2;
    assert n * n == 2 * (2 * m * m + 2 * m) + 1 by {
      assert n == 2 * m + 1;
      assert (2 * m + 1) * (2 * m + 1) == 2 * (2 * m * m + 2 * m) + 1;
    }
    BalanceMeaning(|DarkModules(g, n)|, n * n);
  }

  lemma {:induction false} RunsBound(line: seq<bool>)
    ensures RunScore(Lengths(line)) <= 3 * |line| && |Lengths(line)| <= |line| + 1
  {
    hide RunScore, DarkRun;
    if line == [] {
      assert RunScore([0]) == 0 by { NoRuns(); }
    } else {
      RunsBound(line[..|line| - 1]);
      RunScoreGrows(Lengths(line[..|line| - 1]));
    }
  }

  lemma NoRuns()
    ensures RunScore([0]) == 0
  {
  }

  lemma {:induction false} PatternsBound(ls: seq<nat>)
    ensures PatternCount(ls) <= 2 * |ls|
  {
    if ls != [] {
      PatternsBound(ls[..|ls| - 1]);
    }
  }

  lemma LineScoreBound(line: seq<bool>)
    requires line != []
    ensures LineScore(line) <= 83 * |line| + 160
  {
    hide Lengths, RunScore, PatternCount, Bordered;
    RunsBound(line);
    LengthsBordered(line, |line|);
    PatternsBound(Lengths(Bordered(line, |line|)));
  }

  lemma {:induction false} LineScoresBound(g: Grid, n: nat, vertical: bool, k: nat)
    requires Square(g, n) && k <= n <= 177 && n > 0
    ensures LineScores(g, n, vertical, k) <= 15000 * k
  {
    hide LineScore;
    if k > 0 {
      LineScoresBound(g, n, vertical, k - 1);
      LineScoreBound(LineOf(g, n, k - 1, vertical));
    }
  }

  lemma {:induction false} BlocksBound(g: Grid, n: nat, x: nat, y: nat)
    requires Square(g, n) && 1 <= n <= 177 && x <= n - 1 && y <= n - 1
    ensures |BlocksBefore(g, n, x, y)| <= 177 * y + x
    decreases y, x
  {
    hide BlocksBefore, IsBlock;
    if x > 0 {
      BlocksBound(g, n, x - 1, y);
      BlocksNext(g, n, x - 1, y);
    } else if y > 0 {
      BlocksBound(g, n, n - 1, y - 1);
      BlocksNextRow(g, n, y - 1);
    } else {
      BlocksNextRow(g, n, 0);
    }
  }

  const LONG_MAX := 2147483647

  /** A penalty score is a non-negative C long, so the first trial mask is always accepted. */
  lemma PenaltyIsLong(g: Grid, n: nat)
    requires ValidSize(n) && n <= 177 && Square(g, n)
    ensures 0 <= PenaltyScore(g, n) < LONG_MAX
  {
    hide LineScores, BlocksBefore, DarkBefore, BalanceSteps, Balanced;
    LineScoresBound(g, n, false, n);
    LineScoresBound(g, n, true, n);
    BlocksNextRow(g, n, 0);
    BlocksBound(g, n, 0, n - 1);
    GridBalance(g, n);
  }
}
