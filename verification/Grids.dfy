/** The module grid: a size byte followed by n*n bits, packed least significant bit first. */
module Grids {
  import opened Arithmetic
  import opened Bits

  // ---- Abstract grids

  /** Rows of modules, true for dark: g[y][x]. */
  type Grid = seq<seq<bool>>

  ghost predicate Square(g: Grid, n: nat) {
    |g| == n && forall y :: 0 <= y < n ==> |g[y]| == n
  }

  function Set(g: Grid, n: nat, x: nat, y: nat, dark: bool): (g': Grid)
    requires Square(g, n) && x < n && y < n
    ensures Square(g', n)
    ensures forall a, b :: 0 <= a < n && 0 <= b < n ==> g'[b][a] == if a == x && b == y then dark else g[b][a]
  {
    g[y := g[y][x := dark]]
  }

  /** Grids that agree on every module are equal. */
  lemma SameGrid(g: Grid, h: Grid, n: nat)
    requires Square(g, n) && Square(h, n)
    requires forall x, y :: 0 <= x < n && 0 <= y < n ==> g[y][x] == h[y][x]
    ensures g == h
  {
    forall y | 0 <= y < n ensures g[y] == h[y] {
    }
  }

  datatype Coord = Coord(x: nat, y: nat)

  ghost predicate InGrid(c: Coord, n: nat) {
    c.x < n && c.y < n
  }

  ghost predicate AllInGrid(cs: seq<Coord>, n: nat) {
    forall k :: 0 <= k < |cs| ==> InGrid(cs[k], n)
  }

  ghost predicate Distinct(cs: seq<Coord>) {
    forall i, j :: 0 <= i < j < |cs| ==> cs[i] != cs[j]
  }

  /** The grid after writing bits[k] at cs[k], in order. */
  function Write(g: Grid, n: nat, cs: seq<Coord>, bits: seq<bool>): (g': Grid)
    requires Square(g, n) && AllInGrid(cs, n) && |bits| <= |cs|
    ensures Square(g', n)
    decreases |bits|
  {
    if bits == [] then g
    else
      var m := |bits| - 1;
      Set(Write(g, n, cs, bits[..m]), n, cs[m].x, cs[m].y, bits[m])
  }

  function Read(g: Grid, n: nat, cs: seq<Coord>): (bits: seq<bool>)
    requires Square(g, n) && AllInGrid(cs, n)
    ensures |bits| == |cs|
  {
    seq(|cs|, k requires 0 <= k < |cs| => g[cs[k].y][cs[k].x])
  }

  lemma {:induction false} WriteElsewhere(g: Grid, n: nat, cs: seq<Coord>, bits: seq<bool>, c: Coord)
    requires Square(g, n) && AllInGrid(cs, n) && |bits| <= |cs| && InGrid(c, n)
    requires forall k :: 0 <= k < |bits| ==> cs[k] != c
    ensures Write(g, n, cs, bits)[c.y][c.x] == g[c.y][c.x]
    decreases |bits|
  {
    if bits != [] {
      WriteElsewhere(g, n, cs, bits[..|bits| - 1], c);
    }
  }

  /** Bits written to distinct modules can all be read back. */
  lemma {:induction false} WriteThere(g: Grid, n: nat, cs: seq<Coord>, bits: seq<bool>, k: nat)
    requires Square(g, n) && AllInGrid(cs, n) && Distinct(cs) && k < |bits| <= |cs|
    ensures Write(g, n, cs, bits)[cs[k].y][cs[k].x] == bits[k]
    decreases |bits|
  {
    if k < |bits| - 1 {
      WriteThere(g, n, cs, bits[..|bits| - 1], k);
      assert cs[k] != cs[|bits| - 1];
    }
  }

  lemma WriteSnoc(g: Grid, n: nat, cs: seq<Coord>, bits: seq<bool>)
    requires Square(g, n) && AllInGrid(cs, n) && 0 < |bits| <= |cs|
    ensures Write(g, n, cs, bits)
         == Set(Write(g, n, cs, bits[..|bits| - 1]), n, cs[|bits| - 1].x, cs[|bits| - 1].y, bits[|bits| - 1])
  {
  }

  lemma {:induction false} WritePrefix(g: Grid, n: nat, cs: seq<Coord>, ds: seq<Coord>, bits: seq<bool>)
    requires Square(g, n) && AllInGrid(cs, n) && AllInGrid(ds, n) && |bits| <= |cs| && cs <= ds
    ensures Write(g, n, cs, bits) == Write(g, n, ds, bits)
    decreases |bits|
  {
    if bits != [] {
      WritePrefix(g, n, cs, ds, bits[..|bits| - 1]);
    }
  }

  /** Sizes that the algorithms on the grid work for. */
  ghost predicate ValidSize(n: int) {
    21 <= n && n % 2 == 1
  }

  // ---- Packed grids

  function BufferLen(n: nat): (len: nat)
    ensures len > 0
  {
    NonNegativeProduct(n, n);
    (n * n + 7) / 8 + 1
  }

  function CellIndex(n: nat, x: nat, y: nat): (i: nat)
    requires x < n && y < n
    ensures i < n * n && i / 8 + 1 < BufferLen(n)
  {
    ProductOrder(y, n, n);
    NonNegativeProduct(y, n);
    y * n + x
  }

  /** The size byte says n, which is at most that of version 40, and the buffer is long enough for n. */
  ghost predicate Sized(q: seq<bv8>, n: nat) {
    ValidSize(n) && n <= 177 && |q| >= BufferLen(n) && q[0] as int == n
  }

  predicate ModuleAt(q: seq<bv8>, n: nat, x: nat, y: nat)
    requires x < n && y < n && |q| >= BufferLen(n)
  {
    Bit(q[CellIndex(n, x, y) / 8 + 1], CellIndex(n, x, y) % 8)
  }

  function GridOf(q: seq<bv8>, n: nat): (g: Grid)
    requires |q| >= BufferLen(n)
    ensures Square(g, n)
  {
    seq(n, y requires 0 <= y < n => seq(n, x requires 0 <= x < n => ModuleAt(q, n, x, y)))
  }

  lemma GridAt(q: seq<bv8>, n: nat, x: nat, y: nat)
    requires x < n && y < n && |q| >= BufferLen(n)
    ensures GridOf(q, n)[y][x] == ModuleAt(q, n, x, y)
  {
    hide ModuleAt, BufferLen;
  }

  /** Different modules are different bits of the buffer. */
  lemma CellsDistinct(n: nat, x: nat, y: nat, a: nat, b: nat)
    requires x < n && y < n && a < n && b < n
    requires CellIndex(n, x, y) / 8 == CellIndex(n, a, b) / 8 && CellIndex(n, x, y) % 8 == CellIndex(n, a, b) % 8
    ensures x == a && y == b
  {
    var i := CellIndex(n, x, y);
    assert i == CellIndex(n, a, b);
    DivModUnique(i, n, y, x);
    DivModUnique(i, n, b, a);
  }

  lemma SetModuleBit(q: seq<bv8>, n: nat, x: nat, y: nat, dark: bool)
    requires x < n && y < n && |q| >= BufferLen(n)
    ensures var i := CellIndex(n, x, y);
            GridOf(q[i / 8 + 1 := WithBit(q[i / 8 + 1], i % 8, dark)], n) == Set(GridOf(q, n), n, x, y, dark)
  {
    hide Bit, WithBit, CellIndex, BufferLen, GridOf;
    var i := CellIndex(n, x, y);
    var q' := q[i / 8 + 1 := WithBit(q[i / 8 + 1], i % 8, dark)];
    var g, g' := Set(GridOf(q, n), n, x, y, dark), GridOf(q', n);
    forall a: nat, b: nat | a < n && b < n ensures g'[b][a] == g[b][a] {
      var k := CellIndex(n, a, b);
      GridAt(q, n, a, b);
      GridAt(q', n, a, b);
      if k / 8 == i / 8 {
        BitWithBit(q[i / 8 + 1], i % 8, dark, k % 8);
        if k % 8 == i % 8 {
          CellsDistinct(n, x, y, a, b);
        }
      }
    }
    SameGrid(g', g, n);
  }

  method GetModuleBounded(q: array<bv8>, n: nat, x: nat, y: nat) returns (dark: bool)
    requires Sized(q[..], n) && x < n && y < n
    ensures dark == GridOf(q[..], n)[y][x]
  {
    hide GridOf, Bit;
    GridAt(q[..], n, x, y);
    var index := CellIndex(n, x, y);
    dark := Bit(q[index / 8 + 1], index % 8);
  }

  method SetModuleBounded(q: array<bv8>, n: nat, x: nat, y: nat, isDark: bool)
    requires Sized(q[..], n) && x < n && y < n
    modifies q
    ensures Sized(q[..], n)
    ensures GridOf(q[..], n) == Set(GridOf(old(q[..]), n), n, x, y, isDark)
  {
    hide GridOf, Set, WithBit, BufferLen, CellIndex;
    SetModuleBit(q[..], n, x, y, isDark);
    var index := CellIndex(n, x, y);
    ghost var before := q[..];
    q[index / 8 + 1] := WithBit(q[index / 8 + 1], index % 8, isDark);
    assert q[..] == before[index / 8 + 1 := WithBit(before[index / 8 + 1], index % 8, isDark)];
  }
}
