/** Data masking (ISO/IEC 18004, section 7.8). */
module Masking {
  import opened Arithmetic
  import opened Grids

  /** Whether pattern `mask` inverts the module in column x and row y. */
  predicate MaskBit(mask: nat, x: nat, y: nat)
    requires mask < 8
  {
    match mask
    case 0 => (x + y) % 2 == 0
    case 1 => y % 2 == 0
    case 2 => x % 3 == 0
    case 3 => (x + y) % 3 == 0
    case 4 => (x / 3 + y / 2) % 2 == 0
    case 5 => x * y % 2 + x * y % 3 == 0
    case 6 => (x * y % 2 + x * y % 3) % 2 == 0
    case 7 => ((x + y) % 2 + x * y % 3) % 2 == 0
  }

  /** g with the pattern applied outside the function modules f. */
  function Masked(f: Grid, g: Grid, n: nat, mask: nat): (h: Grid)
    requires Square(f, n) && Square(g, n) && mask < 8
    ensures Square(h, n)
  {
    seq(n, y requires 0 <= y < n => seq(n, x requires 0 <= x < n => g[y][x] != (!f[y][x] && MaskBit(mask, x, y))))
  }

  /** Applying a mask twice gives back the grid: each trial mask is exactly undone. */
  lemma MaskInvolution(f: Grid, g: Grid, n: nat, mask: nat)
    requires Square(f, n) && Square(g, n) && mask < 8
    ensures Masked(f, Masked(f, g, n, mask), n, mask) == g
  {
    hide MaskBit;
    SameGrid(Masked(f, Masked(f, g, n, mask), n, mask), g, n);
  }

  lemma MaskKeepsFunctionModules(f: Grid, g: Grid, n: nat, mask: nat, x: nat, y: nat)
    requires Square(f, n) && Square(g, n) && mask < 8 && x < n && y < n && f[y][x]
    ensures Masked(f, g, n, mask)[y][x] == g[y][x]
  {
    hide MaskBit;
  }

  /** Rows above y are masked, and of row y the first x modules. */
  ghost predicate PartlyMasked(f: Grid, g: Grid, h: Grid, n: nat, mask: nat, x: nat, y: nat) {
    Square(f, n) && Square(g, n) && Square(h, n) && mask < 8
    && forall a, b :: 0 <= a < n && 0 <= b < n ==>
         h[b][a] == if b < y || (b == y && a < x) then Masked(f, g, n, mask)[b][a] else g[b][a]
  }

  lemma MaskOne(f: Grid, g: Grid, h: Grid, n: nat, mask: nat, x: nat, y: nat)
    requires PartlyMasked(f, g, h, n, mask, x, y) && x < n && y < n
    ensures PartlyMasked(f, g, if f[y][x] then h else Set(h, n, x, y, h[y][x] != MaskBit(mask, x, y)), n, mask, x + 1, y)
  {
    hide MaskBit;
  }

  lemma MaskRow(f: Grid, g: Grid, h: Grid, n: nat, mask: nat, y: nat)
    requires PartlyMasked(f, g, h, n, mask, n, y)
    ensures PartlyMasked(f, g, h, n, mask, 0, y + 1)
  {
    hide Masked;
  }

  lemma MaskAll(f: Grid, g: Grid, h: Grid, n: nat, mask: nat)
    requires PartlyMasked(f, g, h, n, mask, 0, n)
    ensures h == Masked(f, g, n, mask)
  {
    hide MaskBit;
    SameGrid(h, Masked(f, g, n, mask), n);
  }

  method ApplyMask(functionModules: array<bv8>, q: array<bv8>, n: nat, mask: nat)
    requires mask < 8 && q != functionModules && Sized(q[..], n) && Sized(functionModules[..], n)
    modifies q
    ensures Sized(q[..], n)
    ensures GridOf(q[..], n) == Masked(GridOf(functionModules[..], n), old(GridOf(q[..], n)), n, mask)
  {
    hide GridOf, BufferLen, PartlyMasked, MaskBit, Masked, Set;
    ghost var f, g := GridOf(functionModules[..], n), GridOf(q[..], n);
    assert PartlyMasked(f, g, g, n, mask, 0, 0) by { MaskNone(f, g, n, mask); }
    for y := 0 to n
      invariant Sized(q[..], n) && PartlyMasked(f, g, GridOf(q[..], n), n, mask, 0, y)
    {
      for x := 0 to n
        invariant Sized(q[..], n) && PartlyMasked(f, g, GridOf(q[..], n), n, mask, x, y)
      {
        MaskOne(f, g, GridOf(q[..], n), n, mask, x, y);
        var reserved := GetModuleBounded(functionModules, n, x, y);
        if !reserved {
          var invert := MaskBit(mask, x, y);
          var val := GetModuleBounded(q, n, x, y);
          SetModuleBounded(q, n, x, y, val != invert);
        }
      }
      MaskRow(f, g, GridOf(q[..], n), n, mask, y);
    }
    MaskAll(f, g, GridOf(q[..], n), n, mask);
  }

  lemma MaskNone(f: Grid, g: Grid, n: nat, mask: nat)
    requires Square(f, n) && Square(g, n) && mask < 8
    ensures PartlyMasked(f, g, g, n, mask, 0, 0)
  {
  }

  // ---- The patterns as pictures

  /** Pattern 4 repeats every 4 rows, the others every 6; all repeat every 6 columns. */
  function Height(mask: nat): (h: nat)
    ensures h > 0
  {
    if mask == 4 then 4 else 6
  }

  /** One period; # marks the modules that are inverted. */
  function Tile(mask: nat): (rows: seq<string>)
    requires mask < 8
    ensures |rows| == Height(mask) && forall y :: 0 <= y < |rows| ==> |rows[y]| == 6
  {
    match mask
    case 0 => ["#.#.#.", ".#.#.#", "#.#.#.", ".#.#.#", "#.#.#.", ".#.#.#"]
    case 1 => ["######", "......", "######", "......", "######", "......"]
    case 2 => ["#..#..", "#..#..", "#..#..", "#..#..", "#..#..", "#..#.."]
    case 3 => ["#..#..", "..#..#", ".#..#.", "#..#..", "..#..#", ".#..#."]
    case 4 => ["###...", "###...", "...###", "...###"]
    case 5 => ["######", "#.....", "#..#..", "#.#.#.", "#..#..", "#....."]
    case 6 => ["######", "###...", "##.##.", "#.#.#.", "#.##.#", "#...##"]
    case 7 => ["#.#.#.", "...###", "#...##", ".#.#.#", "###...", ".###.."]
  }

  lemma SameRest(x: int, a: int, d: int)
    requires d > 0
    ensures (x + a * d) % d == x % d
  {
    DivModUnique(x + a * d, d, x / d + a, x % d);
    assert (x / d + a) * d == x / d * d + a * d;
  }

  lemma ProductOfRests(x: int, y: int, d: int)
    requires d > 0
    ensures x * y % d == (x % d) * (y % d) % d
  {
    var a, b, r, s := x / d, y / d, x % d, y % d;
    var k := a * y + r * b;
    assert x * y == r * s + k * d by {
      assert x == a * d + r && y == b * d + s;
      assert x * y == (a * y) * d + r * y;
      assert r * y == (r * b) * d + r * s;
      assert (a * y) * d + (r * b) * d == k * d;
    }
    SameRest(r * s, k, d);
  }

  lemma ProductRepeats(x: nat, y: nat, d: int)
    requires d == 2 || d == 3
    ensures x * y % d == (x % 6) * (y % 6) % d
  {
    ProductOfRests(x, y, d);
    ProductOfRests(x % 6, y % 6, d);
    RestOfRest(x);
    RestOfRest(y);
    if d == 2 {} else {}
  }

  lemma RestOfRest(x: nat)
    ensures x % 6 % 2 == x % 2 && x % 6 % 3 == x % 3
  {
    var q := x / 6;
    assert x == x % 6 + (3 * q) * 2 == x % 6 + (2 * q) * 3;
    SameRest(x % 6, 3 * q, 2);
    SameRest(x % 6, 2 * q, 3);
  }

  lemma SumRepeats(x: nat, y: nat)
    ensures (x + y) % 2 == (x % 6 + y % 6) % 2 && (x + y) % 3 == (x % 6 + y % 6) % 3
  {
    SameRest(x % 6 + y % 6, 3 * (x / 6) + 3 * (y / 6), 2);
    SameRest(x % 6 + y % 6, 2 * (x / 6) + 2 * (y / 6), 3);
  }

  lemma StepsRepeat(x: nat, y: nat)
    ensures (x / 3 + y / 2) % 2 == (x % 6 / 3 + y % 4 / 2) % 2
  {
    assert x / 3 == 2 * (x / 6) + x % 6 / 3;
    assert y / 2 == 2 * (y / 4) + y % 4 / 2;
    SameRest(x % 6 / 3 + y % 4 / 2, x / 6 + y / 4, 2);
  }

  lemma PatternRepeats(mask: nat, x: nat, y: nat)
    requires mask < 8
    ensures MaskBit(mask, x, y) == MaskBit(mask, x % 6, y % Height(mask))
  {
    if mask == 4 {
      StepsRepeat(x, y);
    } else {
      ProductRepeats(x, y, 2);
      ProductRepeats(x, y, 3);
      SumRepeats(x, y);
      RestOfRest(y);
      RestOfRest(x);
    }
  }

  lemma Picture0(x: nat, y: nat)
    requires x < 6 && y < 6
    ensures MaskBit(0, x, y) == (Tile(0)[y][x] == '#')
  {
  }

  lemma Picture1(x: nat, y: nat)
    requires x < 6 && y < 6
    ensures MaskBit(1, x, y) == (Tile(1)[y][x] == '#')
  {
  }

  lemma Picture2(x: nat, y: nat)
    requires x < 6 && y < 6
    ensures MaskBit(2, x, y) == (Tile(2)[y][x] == '#')
  {
  }

  lemma Picture3(x: nat, y: nat)
    requires x < 6 && y < 6
    ensures MaskBit(3, x, y) == (Tile(3)[y][x] == '#')
  {
  }

  lemma Picture4(x: nat, y: nat)
    requires x < 6 && y < 4
    ensures MaskBit(4, x, y) == (Tile(4)[y][x] == '#')
  {
  }

  lemma Picture5(x: nat, y: nat)
    requires x < 6 && y < 6
    ensures MaskBit(5, x, y) == (Tile(5)[y][x] == '#')
  {
  }

  lemma Picture6(x: nat, y: nat)
    requires x < 6 && y < 6
    ensures MaskBit(6, x, y) == (Tile(6)[y][x] == '#')
  {
  }

  lemma ThirdOfProduct(x: nat, y: nat)
    ensures x * y % 3 == if y % 3 == 0 then 0 else if y % 3 == 1 then x % 3 else 2 * (x % 3) % 3
  {
    ProductOfRests(x, y, 3);
    var r := x % 3;
    if y % 3 == 0 {
      assert r * 0 == 0;
    } else if y % 3 == 1 {
      assert r * 1 == r;
    } else {
      assert r * 2 == 2 * r;
    }
  }

  lemma Pattern7(x: nat, y: nat)
    ensures MaskBit(7, x, y) == (((x + y) % 2 + x * y % 3) % 2 == 0)
  {
  }

  lemma Picture7(x: nat, y: nat)
    requires x < 6 && y < 6
    ensures MaskBit(7, x, y) == (Tile(7)[y][x] == '#')
  {
    hide MaskBit, Tile;
    ThirdOfProduct(x, y);
    Pattern7(x, y);
    PictureOfRest(x, y, x * y % 3);
  }

  lemma PictureOfRest(x: nat, y: nat, r: nat)
    requires x < 6 && y < 6 && r == if y % 3 == 0 then 0 else if y % 3 == 1 then x % 3 else 2 * (x % 3) % 3
    ensures (((x + y) % 2 + r) % 2 == 0) == (Tile(7)[y][x] == '#')
  {
  }

  /** Each pattern is its picture, at every module. */
  lemma MaskPicture(mask: nat, x: nat, y: nat)
    requires mask < 8
    ensures MaskBit(mask, x, y) == (Tile(mask)[y % Height(mask)][x % 6] == '#')
  {
    hide MaskBit, Tile;
    PatternRepeats(mask, x, y);
    match mask
    case 0 => Picture0(x % 6, y % 6);
    case 1 => Picture1(x % 6, y % 6);
    case 2 => Picture2(x % 6, y % 6);
    case 3 => Picture3(x % 6, y % 6);
    case 4 => Picture4(x % 6, y % 4);
    case 5 => Picture5(x % 6, y % 6);
    case 6 => Picture6(x % 6, y % 6);
    case 7 => Picture7(x % 6, y % 6);
  }
}
