/** The two copies of the format bits: error correction level and mask with their BCH code (ISO/IEC 18004, section 7.9). */
module FormatBits {
  import Bch = BchCodes
  import opened FunctionPatterns
  import opened Grids
  import opened Hamming
  import opened Versions

  // ---- The 15 bits

  function LevelCode(ecl: Ecc): bv18 {
    match ecl
    case Low => 1
    case Medium => 0
    case Quartile => 3
    case High => 2
  }

  function MaskWord(mask: nat): bv18
    requires mask < 8
  {
    mask as bv18
  }

  function FormatData(ecl: Ecc, mask: nat): bv18
    requires mask < 8
  {
    (LevelCode(ecl) << 3) | MaskWord(mask)
  }

  /** The BCH codeword of level and mask, masked so that it is never all light. */
  function FormatWord(ecl: Ecc, mask: nat): bv18
    requires mask < 8
  {
    Bch.Xor(Bch.Codeword(Bch.FormatCode, FormatData(ecl, mask)), 0x5412)
  }

  method ComputeFormatWord(ecl: Ecc, mask: nat) returns (bits: bv18)
    requires mask < 8
    ensures bits == FormatWord(ecl, mask) && Bch.IsCodeword(Bch.FormatCode, Bch.Xor(bits, 0x5412))
    ensures Bch.Data(Bch.FormatCode, Bch.Xor(bits, 0x5412)) == FormatData(ecl, mask)
  {
    hide Bch.Remainder, Bch.WithRemainder, Bch.Xor, Bch.IsCodeword, Bch.Data, FormatData;
    FormatDataBits(ecl, mask);
    var data := FormatData(ecl, mask);
    var rem := Bch.ComputeRemainder(Bch.FormatCode, data);
    var word := Bch.WithRemainder(Bch.FormatCode, data, rem);
    bits := Bch.Xor(word, 0x5412);
    Bch.XorAssociates(word, 0x5412, 0x5412);
    Bch.XorLaws(0x5412);
    Bch.XorLaws(word);
  }

  // ---- Reading the level and the mask back from the bits

  function ReadMask(bits: seq<bool>): nat
    requires |bits| == 15
    ensures ReadMask(bits) < 8
  {
    (if bits[10] then 0 else 1) + (if bits[11] then 2 else 0) + (if bits[12] then 0 else 4)
  }

  function ReadLevel(bits: seq<bool>): Ecc
    requires |bits| == 15
  {
    if bits[14] then (if bits[13] then Low else Medium) else (if bits[13] then Quartile else High)
  }

  function FormatBitList(ecl: Ecc, mask: nat): (bits: seq<bool>)
    requires mask < 8
    ensures |bits| == 15
  {
    Bch.BitList(FormatWord(ecl, mask), 15)
  }

  lemma HighBits(data: bv18, rem: bv18)
    requires data < 32 && rem < 1024
    ensures var word := Bch.Xor(Bch.WithRemainder(Bch.FormatCode, data, rem), 0x5412);
            (Bch.GetBit(word, 10) <==> data & 1 == 0) && (Bch.GetBit(word, 11) <==> data & 2 != 0)
            && (Bch.GetBit(word, 12) <==> data & 4 == 0) && (Bch.GetBit(word, 13) <==> data & 8 != 0)
            && (Bch.GetBit(word, 14) <==> data & 16 == 0)
  {
  }

  lemma FormatDataBits(ecl: Ecc, mask: nat)
    requires mask < 8
    ensures FormatData(ecl, mask) < 32
    ensures mask == (if FormatData(ecl, mask) & 1 != 0 then 1 else 0) + (if FormatData(ecl, mask) & 2 != 0 then 2 else 0)
                  + (if FormatData(ecl, mask) & 4 != 0 then 4 else 0)
    ensures FormatData(ecl, mask) & 8 != 0 <==> ecl in {Low, Quartile}
    ensures FormatData(ecl, mask) & 16 != 0 <==> ecl in {Quartile, High}
  {
    if mask == 0 {} else if mask == 1 {} else if mask == 2 {} else if mask == 3 {}
    else if mask == 4 {} else if mask == 5 {} else if mask == 6 {} else {}
  }

  /** The level and the mask are recovered from the format bits. */
  lemma ReadFormat(ecl: Ecc, mask: nat)
    requires mask < 8
    ensures ReadMask(FormatBitList(ecl, mask)) == mask && ReadLevel(FormatBitList(ecl, mask)) == ecl
  {
    hide Bch.GetBit, Bch.Remainder, Bch.WithRemainder, Bch.Xor, FormatData;
    var data := FormatData(ecl, mask);
    FormatDataBits(ecl, mask);
    var _ := Bch.Quotient(Bch.FormatCode, data);
    HighBits(data, Bch.Remainder(Bch.FormatCode, data, 10));
    match ecl
    case Low => case Medium => case Quartile => case High =>
  }

  /** Whatever up to three of the fifteen bits are wrong, the others leave no doubt about level and mask. */
  lemma {:induction false} FormatCorrects(ecl: Ecc, mask: nat, ecl': Ecc, mask': nat, received: seq<bool>)
    requires mask < 8 && mask' < 8 && |received| == 15
    requires Distance(FormatBitList(ecl, mask), received) <= 3 && Distance(received, FormatBitList(ecl', mask')) <= 3
    ensures ecl == ecl' && mask == mask'
  {
    hide Bch.Codeword, Bch.BitList, Bch.Xor, FormatData, ReadMask, ReadLevel;
    FormatDataBits(ecl, mask);
    FormatDataBits(ecl', mask');
    Bch.Corrects(Bch.FormatCode, FormatData(ecl, mask), FormatData(ecl', mask'), 0x5412, received);
    ReadFormat(ecl, mask);
    ReadFormat(ecl', mask');
  }

  // ---- The 31 modules

  /** Position k of the drawing order: two copies of bits 0..14 and the module that is always dark. */
  function FormatCoord(n: nat, k: nat): (c: Coord)
    requires ValidSize(n) && k < 31
    ensures InGrid(c, n)
  {
    if k <= 5 then Coord(8, k)
    else if k == 6 then Coord(8, 7)
    else if k == 7 then Coord(8, 8)
    else if k == 8 then Coord(7, 8)
    else if k < 15 then Coord(14 - k, 8)
    else if k < 23 then Coord(n - 1 - (k - 15), 8)
    else if k < 30 then Coord(8, n - 15 + (k - 15))
    else Coord(8, n - 8)
  }

  function FormatCoords(n: nat): (cs: seq<Coord>)
    requires ValidSize(n)
    ensures |cs| == 31 && AllInGrid(cs, n)
  {
    seq(31, k requires 0 <= k < 31 => FormatCoord(n, k))
  }

  function FormatValue(ecl: Ecc, mask: nat, k: nat): bool
    requires mask < 8 && k < 31
  {
    if k < 15 then Bch.GetBit(FormatWord(ecl, mask), k)
    else if k < 30 then Bch.GetBit(FormatWord(ecl, mask), k - 15)
    else true
  }

  function FormatValues(ecl: Ecc, mask: nat): (bits: seq<bool>)
    requires mask < 8
    ensures |bits| == 31
  {
    seq(31, k requires 0 <= k < 31 => FormatValue(ecl, mask, k))
  }

  lemma FormatCoordsDistinct(n: nat)
    requires ValidSize(n)
    ensures Distinct(FormatCoords(n))
  {
    forall i, j | 0 <= i < j < 31 ensures FormatCoord(n, i) != FormatCoord(n, j) {
    }
  }

  lemma FormatCoordIsFunction(version: nat, k: nat)
    requires ValidVersion(version) && k < 31
    ensures var c := FormatCoord(SizeOf(version), k); IsFunction(version, c.x, c.y)
  {
    hide IsAlignment, IsVersionArea, IsTiming;
  }

  /** The grid with the format bits drawn over it. */
  function WithFormat(g: Grid, n: nat, ecl: Ecc, mask: nat): (h: Grid)
    requires ValidSize(n) && Square(g, n) && mask < 8
    ensures Square(h, n)
  {
    Write(g, n, FormatCoords(n), FormatValues(ecl, mask))
  }

  ghost predicate FormatDrawn(g0: Grid, g: Grid, n: nat, ecl: Ecc, mask: nat, k: nat) {
    ValidSize(n) && Square(g0, n) && mask < 8 && k <= 31 && g == Write(g0, n, FormatCoords(n), FormatValues(ecl, mask)[..k])
  }

  method DrawFormatModule(q: array<bv8>, n: nat, x: nat, y: nat, dark: bool,
                          ghost g0: Grid, ghost ecl: Ecc, ghost mask: nat, ghost k: nat)
    requires Sized(q[..], n) && FormatDrawn(g0, GridOf(q[..], n), n, ecl, mask, k) && k < 31
    requires FormatCoord(n, k) == Coord(x, y) && dark == FormatValue(ecl, mask, k)
    modifies q
    ensures Sized(q[..], n) && FormatDrawn(g0, GridOf(q[..], n), n, ecl, mask, k + 1)
  {
    hide GridOf, BufferLen, Set, Write, FormatCoord, FormatValue;
    var values := FormatValues(ecl, mask);
    assert values[..k + 1][..k] == values[..k];
    WriteSnoc(g0, n, FormatCoords(n), values[..k + 1]);
    SetModuleBounded(q, n, x, y, dark);
  }

  method DrawFormatBits(ecl: Ecc, mask: nat, q: array<bv8>, n: nat)
    requires mask < 8 && Sized(q[..], n)
    modifies q
    ensures Sized(q[..], n)
    ensures GridOf(q[..], n) == WithFormat(old(GridOf(q[..], n)), n, ecl, mask)
  {
    hide GridOf, BufferLen, FormatDrawn, FormatWord, FormatData, Write;
    hide Bch.GetBit, Bch.IsCodeword, Bch.Data, Bch.Xor;
    ghost var g0 := GridOf(q[..], n);
    FormatStart(g0, n, ecl, mask);
    var bits := ComputeFormatWord(ecl, mask);
    for i := 0 to 6
      invariant Sized(q[..], n) && FormatDrawn(g0, GridOf(q[..], n), n, ecl, mask, i)
    {
      DrawFormatModule(q, n, 8, i, Bch.GetBit(bits, i), g0, ecl, mask, i);
    }
    DrawFormatModule(q, n, 8, 7, Bch.GetBit(bits, 6), g0, ecl, mask, 6);
    DrawFormatModule(q, n, 8, 8, Bch.GetBit(bits, 7), g0, ecl, mask, 7);
    DrawFormatModule(q, n, 7, 8, Bch.GetBit(bits, 8), g0, ecl, mask, 8);
    for i := 9 to 15
      invariant Sized(q[..], n) && FormatDrawn(g0, GridOf(q[..], n), n, ecl, mask, i)
    {
      DrawFormatModule(q, n, 14 - i, 8, Bch.GetBit(bits, i), g0, ecl, mask, i);
    }
    for i := 0 to 8
      invariant Sized(q[..], n) && FormatDrawn(g0, GridOf(q[..], n), n, ecl, mask, 15 + i)
    {
      DrawFormatModule(q, n, n - 1 - i, 8, Bch.GetBit(bits, i), g0, ecl, mask, 15 + i);
    }
    for i := 8 to 15
      invariant Sized(q[..], n) && FormatDrawn(g0, GridOf(q[..], n), n, ecl, mask, 15 + i)
    {
      DrawFormatModule(q, n, 8, n - 15 + i, Bch.GetBit(bits, i), g0, ecl, mask, 15 + i);
    }
    DrawFormatModule(q, n, 8, n - 8, true, g0, ecl, mask, 30);
    FormatEnd(g0, GridOf(q[..], n), n, ecl, mask);
  }

  lemma FormatStart(g0: Grid, n: nat, ecl: Ecc, mask: nat)
    requires ValidSize(n) && Square(g0, n) && mask < 8
    ensures FormatDrawn(g0, g0, n, ecl, mask, 0)
  {
  }

  lemma FormatEnd(g0: Grid, g: Grid, n: nat, ecl: Ecc, mask: nat)
    requires FormatDrawn(g0, g, n, ecl, mask, 31)
    ensures g == WithFormat(g0, n, ecl, mask)
  {
    hide Write, FormatValue, FormatCoord;
    assert FormatValues(ecl, mask)[..31] == FormatValues(ecl, mask);
  }

  // ---- What drawing the format bits means

  lemma {:induction false} FormatThere(g: Grid, n: nat, ecl: Ecc, mask: nat, k: nat)
    requires ValidSize(n) && Square(g, n) && mask < 8 && k < 31
    ensures var c := FormatCoord(n, k); WithFormat(g, n, ecl, mask)[c.y][c.x] == FormatValue(ecl, mask, k)
  {
    hide Write, FormatValue, FormatCoord;
    FormatCoordsDistinct(n);
    WriteThere(g, n, FormatCoords(n), FormatValues(ecl, mask), k);
  }

  lemma FormatElsewhere(g: Grid, n: nat, ecl: Ecc, mask: nat, c: Coord)
    requires ValidSize(n) && Square(g, n) && mask < 8 && InGrid(c, n) && c !in FormatCoords(n)
    ensures WithFormat(g, n, ecl, mask)[c.y][c.x] == g[c.y][c.x]
  {
    hide Write, FormatValue, FormatCoord;
    WriteElsewhere(g, n, FormatCoords(n), FormatValues(ecl, mask), c);
  }

  /** New format bits replace old ones completely. */
  lemma FormatOverwrites(g: Grid, n: nat, ecl: Ecc, mask: nat, ecl': Ecc, mask': nat)
    requires ValidSize(n) && Square(g, n) && mask < 8 && mask' < 8
    ensures WithFormat(WithFormat(g, n, ecl, mask), n, ecl', mask') == WithFormat(g, n, ecl', mask')
  {
    hide WithFormat, FormatValue, FormatCoord;
    var h := WithFormat(g, n, ecl, mask);
    forall x: nat, y: nat | x < n && y < n ensures WithFormat(h, n, ecl', mask')[y][x] == WithFormat(g, n, ecl', mask')[y][x] {
      var c := Coord(x, y);
      if c in FormatCoords(n) {
        var k :| 0 <= k < 31 && FormatCoords(n)[k] == c;
        FormatThere(h, n, ecl', mask', k);
        FormatThere(g, n, ecl', mask', k);
      } else {
        FormatElsewhere(h, n, ecl', mask', c);
        FormatElsewhere(g, n, ecl', mask', c);
        FormatElsewhere(g, n, ecl, mask, c);
      }
    }
    SameGrid(WithFormat(h, n, ecl', mask'), WithFormat(g, n, ecl', mask'), n);
  }

  /** The 15 modules of the first copy, in bit order: down column 8 and then to the left in row 8, without the timing modules. */
  function FirstCopy(g: Grid, n: nat): (bits: seq<bool>)
    requires ValidSize(n) && Square(g, n)
    ensures |bits| == 15
  {
    [g[0][8], g[1][8], g[2][8], g[3][8], g[4][8], g[5][8], g[7][8], g[8][8],
     g[8][7], g[8][5], g[8][4], g[8][3], g[8][2], g[8][1], g[8][0]]
  }

  /** The second copy: to the left from the right edge in row 8, then down to the bottom edge in column 8. */
  function SecondCopy(g: Grid, n: nat): (bits: seq<bool>)
    requires ValidSize(n) && Square(g, n)
    ensures |bits| == 15
  {
    [g[8][n - 1], g[8][n - 2], g[8][n - 3], g[8][n - 4], g[8][n - 5], g[8][n - 6], g[8][n - 7], g[8][n - 8],
     g[n - 7][8], g[n - 6][8], g[n - 5][8], g[n - 4][8], g[n - 3][8], g[n - 2][8], g[n - 1][8]]
  }

  lemma ReadFirstCopy(g: Grid, n: nat, ecl: Ecc, mask: nat)
    requires ValidSize(n) && Square(g, n) && mask < 8
    ensures FirstCopy(WithFormat(g, n, ecl, mask), n) == FormatBitList(ecl, mask)
  {
    hide WithFormat, Bch.GetBit, FormatWord;
    forall k: nat | k < 15 ensures FirstCopy(WithFormat(g, n, ecl, mask), n)[k] == FormatBitList(ecl, mask)[k] {
      FormatThere(g, n, ecl, mask, k);
    }
  }

  /** The second copy reads the same, and the module above its last part is dark. */
  lemma ReadSecondCopy(g: Grid, n: nat, ecl: Ecc, mask: nat)
    requires ValidSize(n) && Square(g, n) && mask < 8
    ensures SecondCopy(WithFormat(g, n, ecl, mask), n) == FormatBitList(ecl, mask)
    ensures WithFormat(g, n, ecl, mask)[n - 8][8]
  {
    hide WithFormat, Bch.GetBit, FormatWord;
    forall k: nat | k < 15 ensures SecondCopy(WithFormat(g, n, ecl, mask), n)[k] == FormatBitList(ecl, mask)[k] {
      FormatThere(g, n, ecl, mask, 15 + k);
    }
    FormatThere(g, n, ecl, mask, 30);
  }
}
