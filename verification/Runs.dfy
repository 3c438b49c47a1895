/** Run lengths of a row or column, and the scores the mask evaluation gives to them (ISO/IEC 18004, section 7.8.3). */
module Runs {

  // ---- Run lengths

  /** The run lengths after one more module. */
  function NextLengths(ls: seq<nat>, b: bool): (r: seq<nat>)
    requires ls != []
    ensures r != []
  {
    var m := |ls| - 1;
    if b == DarkRun(m) then ls[m := ls[m] + 1] else ls + [1]
  }

  /** The lengths of the maximal runs of equal colour: runs alternate, starting with a light one that may be empty. */
  function Lengths(line: seq<bool>): (ls: seq<nat>)
    ensures ls != []
  {
    if line == [] then [0] else NextLengths(Lengths(line[..|line| - 1]), line[|line| - 1])
  }

  lemma LengthsSnoc(line: seq<bool>, b: bool)
    ensures Lengths(line + [b]) == NextLengths(Lengths(line), b)
  {
    hide NextLengths;
    assert (line + [b])[..|line|] == line;
  }

  /** The colour of the k-th run. */
  predicate DarkRun(k: int) {
    k % 2 == 1
  }

  function Repeat(b: bool, n: nat): (s: seq<bool>)
    ensures |s| == n
  {
    seq(n, _ => b)
  }

  /** The line with the given run lengths. */
  function Expand(ls: seq<nat>): seq<bool> {
    if ls == [] then [] else Expand(ls[..|ls| - 1]) + Repeat(DarkRun(|ls| - 1), ls[|ls| - 1])
  }

  /** Only the first run may be empty. */
  ghost predicate Proper(ls: seq<nat>) {
    |ls| >= 1 && forall k :: 1 <= k < |ls| ==> ls[k] >= 1
  }

  lemma ExpandNext(ls: seq<nat>, b: bool)
    requires ls != []
    ensures Expand(NextLengths(ls, b)) == Expand(ls) + [b]
  {
    hide DarkRun;
    var m := |ls| - 1;
    var r := NextLengths(ls, b);
    if b == DarkRun(m) {
      assert r[..m] == ls[..m];
      assert Repeat(b, ls[m] + 1) == Repeat(b, ls[m]) + [b];
    } else {
      assert r[..m + 1] == ls;
      Alternate(m);
      assert Repeat(b, 1) == [b];
    }
  }

  lemma Alternate(m: int)
    ensures DarkRun(m + 1) == !DarkRun(m)
  {
  }

  lemma ExpandEmpty()
    ensures Expand([0]) == []
  {
    assert Expand([0]) == Expand([0][..0]) + Repeat(DarkRun(0), 0);
  }

  lemma {:induction false} LengthsExpand(line: seq<bool>)
    ensures Proper(Lengths(line)) && Expand(Lengths(line)) == line
  {
    hide Expand;
    if line == [] {
      ExpandEmpty();
    } else {
      var n := |line| - 1;
      LengthsExpand(line[..n]);
      ExpandNext(Lengths(line[..n]), line[n]);
      assert line == line[..n] + [line[n]];
    }
  }

  /** The run lengths before the last module of a non-empty line. */
  function Shorter(ls: seq<nat>): (r: seq<nat>)
    requires Proper(ls) && ls != [0]
    ensures Proper(r) && NextLengths(r, DarkRun(|ls| - 1)) == ls
  {
    var m := |ls| - 1;
    if ls[m] > 1 || m == 0 then ls[m := ls[m] - 1]
    else
      Alternate(m - 1);
      ls[..m]
  }

  /** Lengths is the only way to split a line into alternating runs. */
  lemma {:induction false} LengthsUnique(ls: seq<nat>)
    requires Proper(ls)
    ensures Lengths(Expand(ls)) == ls
    decreases |Expand(ls)|
  {
    hide Expand, NextLengths, DarkRun, Shorter;
    if ls == [0] {
      ExpandEmpty();
    } else {
      var b := DarkRun(|ls| - 1);
      ExpandNext(Shorter(ls), b);
      LengthsUnique(Shorter(ls));
      LengthsSnoc(Expand(Shorter(ls)), b);
    }
  }

  lemma {:induction false} LengthBound(line: seq<bool>)
    ensures forall k :: 0 <= k < |Lengths(line)| ==> Lengths(line)[k] <= |line|
  {
    if line != [] {
      LengthBound(line[..|line| - 1]);
    }
  }

  // ---- Scores

  /** L - 2 for every run of length L >= 5. */
  function RunScore(ls: seq<nat>): nat {
    if ls == [] then 0 else RunScore(ls[..|ls| - 1]) + OneRun(ls[|ls| - 1])
  }

  function OneRun(len: nat): nat {
    if len >= 5 then len - 2 else 0
  }

  /** Dark-light-dark-light-dark runs in ratio 1:1:3:1:1 before light run k, flanked by light of 4 and 1 units, each way. */
  function PatternAt(ls: seq<nat>, k: nat): nat
    requires 6 <= k < |ls|
  {
    var u := ls[k - 1];
    if u > 0 && ls[k - 2] == u && ls[k - 3] == u * 3 && ls[k - 4] == u && ls[k - 5] == u
    then (if ls[k] >= u * 4 && ls[k - 6] >= u then 1 else 0) + (if ls[k - 6] >= u * 4 && ls[k] >= u then 1 else 0)
    else 0
  }

  /** The finder-like patterns that end at one of the light runs. */
  function PatternCount(ls: seq<nat>): nat {
    if ls == [] then 0
    else PatternCount(ls[..|ls| - 1]) + (if |ls| >= 7 && !DarkRun(|ls| - 1) then PatternAt(ls, |ls| - 1) else 0)
  }

  /** The quiet zone beside the symbol counts as light. */
  function Bordered(line: seq<bool>, n: nat): seq<bool> {
    Repeat(false, n) + line + Repeat(false, n)
  }

  const PENALTY_N1 := 3
  const PENALTY_N2 := 3
  const PENALTY_N3 := 40
  const PENALTY_N4 := 10

  function LineScore(line: seq<bool>): nat {
    RunScore(Lengths(line)) + PatternCount(Lengths(Bordered(line, |line|))) * PENALTY_N3
  }

  // ---- The lengths of a bordered line

  function PadFirst(ls: seq<nat>, n: nat): (r: seq<nat>)
    requires ls != []
    ensures |r| == |ls|
  {
    ls[0 := ls[0] + n]
  }

  function PadLast(ls: seq<nat>, n: nat): (r: seq<nat>)
    requires ls != []
  {
    if DarkRun(|ls| - 1) then ls + [n] else ls[|ls| - 1 := ls[|ls| - 1] + n]
  }

  lemma {:induction false} LengthsOfLight(n: nat)
    ensures Lengths(Repeat(false, n)) == [n]
  {
    if n > 0 {
      LengthsOfLight(n - 1);
      assert Repeat(false, n)[..n - 1] == Repeat(false, n - 1);
    }
  }

  lemma {:induction false} LengthsPadFirst(line: seq<bool>, n: nat)
    ensures Lengths(Repeat(false, n) + line) == PadFirst(Lengths(line), n)
  {
    hide DarkRun;
    if line == [] {
      LengthsOfLight(n);
      assert Repeat(false, n) + line == Repeat(false, n);
    } else {
      var m := |line| - 1;
      LengthsPadFirst(line[..m], n);
      assert line == line[..m] + [line[m]];
      assert Repeat(false, n) + line == (Repeat(false, n) + line[..m]) + [line[m]];
      LengthsSnoc(Repeat(false, n) + line[..m], line[m]);
      NextPadFirst(Lengths(line[..m]), line[m], n);
    }
  }

  lemma NextPadFirst(ls: seq<nat>, b: bool, n: nat)
    requires ls != []
    ensures NextLengths(PadFirst(ls, n), b) == PadFirst(NextLengths(ls, b), n)
  {
    hide DarkRun;
  }

  lemma {:induction false} LengthsPadLast(line: seq<bool>, n: nat)
    requires n > 0
    ensures Lengths(line + Repeat(false, n)) == PadLast(Lengths(line), n)
    decreases n
  {
    hide Lengths;
    var ls := Lengths(line);
    if n == 1 {
      assert Repeat(false, 1) == [false];
      LengthsSnoc(line, false);
    } else {
      LengthsPadLast(line, n - 1);
      assert Repeat(false, n) == Repeat(false, n - 1) + [false];
      assert line + Repeat(false, n) == (line + Repeat(false, n - 1)) + [false];
      LengthsSnoc(line + Repeat(false, n - 1), false);
    }
  }

  lemma LengthsBordered(line: seq<bool>, n: nat)
    requires n > 0
    ensures Lengths(Bordered(line, n)) == PadLast(PadFirst(Lengths(line), n), n)
  {
    hide Lengths;
    LengthsPadFirst(line, n);
    LengthsPadLast(Repeat(false, n) + line, n);
  }
}
