/** What a finished symbol is, how a reader takes it apart, and the end-to-end round trip. */
module Symbols {
  import opened Bits
  import opened BitBuffer
  import opened Segments
  import opened SegmentMaking
  import opened Versions
  import opened Interleaving
  import opened ReedSolomon
  import opened Grids
  import opened Zigzag
  import opened CodewordPlacement
  import opened FunctionPatterns
  import opened FunctionColours
  import opened Capacity
  import opened FormatBits
  import opened Masking

  // ---- Bytes from bits

  function ByteOf(bits: seq<bool>): bv8
    requires |bits| == 8
  {
    WithBit(WithBit(WithBit(WithBit(WithBit(WithBit(WithBit(WithBit(0, 7, bits[0]), 6, bits[1]), 5, bits[2]), 4, bits[3]),
                                    3, bits[4]), 2, bits[5]), 1, bits[6]), 0, bits[7])
  }

  lemma ByteOfBit(bits: seq<bool>, k: nat)
    requires |bits| == 8 && k < 8
    ensures Bit(ByteOf(bits), 7 - k) == bits[k]
  {
    hide Bit, WithBit;
    var b0 := WithBit(0, 7, bits[0]);
    var b1 := WithBit(b0, 6, bits[1]);
    var b2 := WithBit(b1, 5, bits[2]);
    var b3 := WithBit(b2, 4, bits[3]);
    var b4 := WithBit(b3, 3, bits[4]);
    var b5 := WithBit(b4, 2, bits[5]);
    var b6 := WithBit(b5, 1, bits[6]);
    BitWithBit(0, 7, bits[0], 7 - k);
    BitWithBit(b0, 6, bits[1], 7 - k);
    BitWithBit(b1, 5, bits[2], 7 - k);
    BitWithBit(b2, 4, bits[3], 7 - k);
    BitWithBit(b3, 3, bits[4], 7 - k);
    BitWithBit(b4, 2, bits[5], 7 - k);
    BitWithBit(b5, 1, bits[6], 7 - k);
    BitWithBit(b6, 0, bits[7], 7 - k);
  }

  function BytesOf(bits: seq<bool>, count: nat): (s: seq<bv8>)
    requires |bits| == 8 * count
    ensures |s| == count
  {
    seq(count, k requires 0 <= k < count => ByteOf(bits[8 * k..8 * k + 8]))
  }

  lemma BitsOfBytes(bits: seq<bool>, count: nat)
    requires |bits| == 8 * count
    ensures BitsOf(BytesOf(bits, count)) == bits
  {
    hide Bit, ByteOf;
    var s := BytesOf(bits, count);
    forall k | 0 <= k < |bits| ensures BitsOf(s)[k] == bits[k] {
      ByteOfBit(bits[8 * (k / 8)..8 * (k / 8) + 8], k % 8);
    }
  }

  lemma BytesOfBits(s: seq<bv8>)
    ensures BytesOf(BitsOf(s), |s|) == s
  {
    hide BitsOf;
    BitsOfBytes(BitsOf(s), |s|);
    BytesFromBits(BytesOf(BitsOf(s), |s|), s);
  }

  // ---- The data bits of a symbol

  function Zeroes(n: nat): (bits: seq<bool>)
    ensures |bits| == n
  {
    seq(n, _ => false)
  }

  /** k padding bytes, 0xEC and 0x11 in turn. */
  function PadBits(k: nat): (bits: seq<bool>)
    ensures |bits| == 8 * k
  {
    if k == 0 then [] else PadBits(k - 1) + ToBits(if k % 2 == 1 then 0xEC else 0x11, 8)
  }

  function TerminatorBits(used: nat, capacity: nat): nat
    requires used <= capacity
  {
    if capacity - used > 4 then 4 else capacity - used
  }

  /** The bits up to the byte boundary after the terminator. */
  function AlignedLength(used: nat, capacity: nat): (len: nat)
    requires used <= capacity && capacity % 8 == 0
    ensures len % 8 == 0 && used + TerminatorBits(used, capacity) <= len <= capacity
  {
    RoundUp(used + TerminatorBits(used, capacity), capacity / 8)
  }

  function RoundUp(t: nat, bytes: nat): (len: nat)
    requires t <= 8 * bytes
    ensures len % 8 == 0 && t <= len <= 8 * bytes
  {
    t + (8 - t % 8) % 8
  }

  function PadBytes(used: nat, capacity: nat): (k: nat)
    requires used <= capacity && capacity % 8 == 0
    ensures AlignedLength(used, capacity) + 8 * k == capacity
  {
    (capacity - AlignedLength(used, capacity)) / 8
  }

  /** Stream, terminator, zero bits up to a byte boundary, padding bytes up to the capacity. */
  function DataBits(stream: seq<bool>, capacity: nat): (bits: seq<bool>)
    requires |stream| <= capacity && capacity % 8 == 0
    ensures |bits| == capacity && stream <= bits
  {
    var aligned := AlignedLength(|stream|, capacity);
    stream + Zeroes(aligned - |stream|) + PadBits(PadBytes(|stream|, capacity))
  }

  lemma DataBitsTerminated(stream: seq<bool>, capacity: nat)
    requires |stream| <= capacity && capacity % 8 == 0
    ensures Terminated(DataBits(stream, capacity)[|stream|..])
  {
    var aligned := AlignedLength(|stream|, capacity);
    hide PadBits;
    var tail := DataBits(stream, capacity)[|stream|..];
    assert tail == Zeroes(aligned - |stream|) + PadBits(PadBytes(|stream|, capacity));
    if |tail| >= 4 {
      assert aligned - |stream| >= 4;
      assert tail[..4] == [false, false, false, false];
    }
  }

  lemma {:induction false} PadBitsAt(k: nat, i: nat)
    requires i < k
    ensures PadBits(k)[8 * i..8 * i + 8] == ToBits(if i % 2 == 0 then 0xEC else 0x11, 8)
    decreases k
  {
    hide ToBits;
    if i < k - 1 {
      PadBitsAt(k - 1, i);
      assert PadBits(k)[8 * i..8 * i + 8] == PadBits(k - 1)[8 * i..8 * i + 8];
    }
  }

  lemma FirstPaddingBits()
    ensures ToBits(0xEC, 8) == [true, true, true, false, true, true, false, false]
  {
  }

  lemma SecondPaddingBits()
    ensures ToBits(0x11, 8) == [false, false, false, true, false, false, false, true]
  {
  }

  lemma PaddingBytes()
    ensures ByteOf(ToBits(0xEC, 8)) == 0xEC && ByteOf(ToBits(0x11, 8)) == 0x11
  {
    hide ToBits;
    FirstPaddingBits();
    SecondPaddingBits();
  }

  /**
   * After the stream come at most four zero bits, zero bits up to the next whole byte, and 0xEC and 0x11 in turn up to the
   * capacity.
   */
  lemma {:induction false} DataBitsPadded(stream: seq<bool>, capacity: nat, i: nat)
    requires |stream| <= capacity && capacity % 8 == 0
    ensures var bits, start := DataBits(stream, capacity), AlignedLength(|stream|, capacity);
            |stream| <= start <= capacity && start % 8 == 0 && (start < |stream| + 12)
            && (start == capacity || start >= |stream| + 4)
            && (forall k :: |stream| <= k < start ==> !bits[k])
            && (start + 8 * i < capacity ==>
                  bits[start + 8 * i..start + 8 * i + 8] == ToBits(if i % 2 == 0 then 0xEC else 0x11, 8))
  {
    hide ToBits, PadBits;
    var bits, start := DataBits(stream, capacity), AlignedLength(|stream|, capacity);
    if start + 8 * i < capacity {
      var k := PadBytes(|stream|, capacity);
      PadBitsAt(k, i);
      assert bits[start..] == PadBits(k);
      assert bits[start + 8 * i..start + 8 * i + 8] == PadBits(k)[8 * i..8 * i + 8];
    }
  }

  /** The padding bytes among the data codewords. */
  lemma {:induction false} PaddingOfSymbol(cs: seq<Content>, version: nat, ecl: Ecc, i: nat)
    requires ValidVersion(version) && Fits(cs, version, ecl)
    requires AlignedLength(|StreamBits(cs, version)|, CapacityBits(version, ecl)) / 8 + i < DataLen(LayoutOf(version, ecl))
    ensures DataCodewords(cs, version, ecl)[AlignedLength(|StreamBits(cs, version)|, CapacityBits(version, ecl)) / 8 + i]
         == if i % 2 == 0 then 0xEC else 0x11
  {
    hide ToBits, ByteOf, LayoutOf, DataLen, DataBits, AlignedLength, StreamBits;
    var stream, capacity := StreamBits(cs, version), CapacityBits(version, ecl);
    DataBitsPadded(stream, capacity, i);
    PaddingBytes();
  }

  // ---- Which version and level

  function CapacityBits(version: nat, ecl: Ecc): (bits: nat)
    requires ValidVersion(version)
    ensures bits % 8 == 0 && bits == 8 * DataLen(LayoutOf(version, ecl))
  {
    8 * DataLen(LayoutOf(version, ecl))
  }

  /** The segments fit in the version at the level. */
  predicate Fits(cs: seq<Content>, version: nat, ecl: Ecc)
    requires ValidVersion(version)
  {
    TotalBits(cs, version) != LENGTH_OVERFLOW && TotalBits(cs, version) <= CapacityBits(version, ecl)
  }

  // ---- The symbol

  /** The modules outside the function patterns, in the order of the scan. */
  ghost function DataModules(version: nat): (cs: seq<Coord>)
    requires ValidVersion(version)
    ensures AllInGrid(cs, SizeOf(version)) && Distinct(cs)
  {
    AllDataCoords(FunctionModules(version), SizeOf(version))
  }

  /** The scan starts in the bottom right corner, which is free in every version, and goes up. */
  lemma FirstDataModules(version: nat)
    requires ValidVersion(version)
    ensures var n, cs := SizeOf(version), DataModules(version);
            |cs| >= 3 && cs[0] == Coord(n - 1, n - 1) && cs[1] == Coord(n - 2, n - 1) && cs[2] == Coord(n - 1, n - 2)
  {
    hide IsFunction, Visit, Steps;
    var n, f := SizeOf(version), FunctionModules(version);
    ScanStarts(n);
    CornerFree(version, 0, 0);
    CornerFree(version, 1, 0);
    CornerFree(version, 0, 1);
    assert DataCoords(f, n, 0) == [];
    assert DataCoords(f, n, 1) == [Coord(n - 1, n - 1)];
    assert DataCoords(f, n, 2) == [Coord(n - 1, n - 1), Coord(n - 2, n - 1)];
    assert DataCoords(f, n, 3) == [Coord(n - 1, n - 1), Coord(n - 2, n - 1), Coord(n - 1, n - 2)];
    DataCoordsPrefix(f, n, 3, Steps(n));
  }

  lemma CornerFree(version: nat, i: nat, j: nat)
    requires ValidVersion(version) && i <= 1 && j <= 1
    ensures !IsFunction(version, SizeOf(version) - 1 - i, SizeOf(version) - 1 - j)
  {
    hide NumAlign, FinderCorner, AlignStep;
    var x := SizeOf(version) - 1 - i;
    if IsAlignment(version, x, SizeOf(version) - 1 - j) {
      var a: nat, b: nat :| a < NumAlign(version) && b < NumAlign(version)
                            && InAlignment(version, a, b, x, SizeOf(version) - 1 - j);
      AlignPosFacts(version, a);
      assert false;
    }
  }

  /** The number of codewords; fewer than eight modules are left over. */
  ghost function RawBytes(version: nat): (b: nat)
    requires ValidVersion(version)
    ensures 8 * b <= |DataModules(version)|
  {
    |DataModules(version)| / 8
  }

  lemma RawBytesFormula(version: nat)
    requires ValidVersion(version)
    ensures RawBytes(version) == GetNumRawDataModules(version) / 8
  {
    hide AllDataCoords, FunctionModules, GetNumRawDataModules;
    CapacityTheorem(version);
  }

  function DataCodewords(cs: seq<Content>, version: nat, ecl: Ecc): (data: seq<bv8>)
    requires ValidVersion(version) && Fits(cs, version, ecl)
    ensures |data| == DataLen(LayoutOf(version, ecl))
  {
    BytesOf(DataBits(StreamBits(cs, version), CapacityBits(version, ecl)), DataLen(LayoutOf(version, ecl)))
  }

  ghost function RawCodewords(cs: seq<Content>, version: nat, ecl: Ecc): (raw: seq<bv8>)
    requires ValidVersion(version) && Fits(cs, version, ecl)
    ensures |raw| == RawBytes(version)
  {
    RawBytesFormula(version);
    Interleaved(LayoutOf(version, ecl), DataCodewords(cs, version, ecl))
  }

  /** Codewords placed, function modules coloured, no format bits and no mask yet. */
  ghost function Unmasked(raw: seq<bv8>, version: nat): (g: Grid)
    requires ValidVersion(version) && |raw| == RawBytes(version)
    ensures Square(g, SizeOf(version))
  {
    var n, f := SizeOf(version), FunctionModules(version);
    WithColours(Write(f, n, DataModules(version), BitsOf(raw)), version)
  }

  ghost function WithColours(g: Grid, version: nat): (h: Grid)
    requires ValidVersion(version) && Square(g, SizeOf(version))
    ensures Coloured(g, h, version)
  {
    seq(SizeOf(version), y requires 0 <= y < SizeOf(version) =>
      seq(SizeOf(version), x requires 0 <= x < SizeOf(version) =>
        if IsFunction(version, x, y) then FunctionColour(version, x, y) else g[y][x]))
  }

  /** The symbol with the given mask. */
  ghost function MaskedSymbol(raw: seq<bv8>, version: nat, ecl: Ecc, mask: nat): (g: Grid)
    requires ValidVersion(version) && |raw| == RawBytes(version) && mask < 8
    ensures Square(g, SizeOf(version))
  {
    var n := SizeOf(version);
    WithFormat(Masked(FunctionModules(version), Unmasked(raw, version), n, mask), n, ecl, mask)
  }

  ghost function Symbol(cs: seq<Content>, version: nat, ecl: Ecc, mask: nat): (g: Grid)
    requires ValidVersion(version) && Fits(cs, version, ecl) && mask < 8
    ensures Square(g, SizeOf(version))
  {
    MaskedSymbol(RawCodewords(cs, version, ecl), version, ecl, mask)
  }

  // ---- The reader

  function SymbolMask(g: Grid, version: nat): (mask: nat)
    requires ValidVersion(version) && Square(g, SizeOf(version))
    ensures mask < 8
  {
    ReadMask(FirstCopy(g, SizeOf(version)))
  }

  function SymbolLevel(g: Grid, version: nat): Ecc
    requires ValidVersion(version) && Square(g, SizeOf(version))
  {
    ReadLevel(FirstCopy(g, SizeOf(version)))
  }

  /** Undo the mask and walk the zigzag. */
  ghost function CodewordsUnder(g: Grid, version: nat, mask: nat): (raw: seq<bv8>)
    requires ValidVersion(version) && Square(g, SizeOf(version)) && mask < 8
    ensures |raw| == RawBytes(version)
  {
    var n := SizeOf(version);
    var unmasked := Masked(FunctionModules(version), g, n, mask);
    BytesOf(Read(unmasked, n, DataModules(version)[..8 * RawBytes(version)]), RawBytes(version))
  }

  /** The codewords, by the mask in the format bits. */
  ghost function ReadCodewords(g: Grid, version: nat): (raw: seq<bv8>)
    requires ValidVersion(version) && Square(g, SizeOf(version))
    ensures |raw| == RawBytes(version)
  {
    CodewordsUnder(g, version, SymbolMask(g, version))
  }

  /** De-interleave by the level in the format bits and parse the segments. */
  ghost function ReadSymbol(g: Grid, version: nat): Parsed
    requires ValidVersion(version) && Square(g, SizeOf(version))
  {
    RawBytesFormula(version);
    var l := LayoutOf(version, SymbolLevel(g, version));
    Parse(BitsOf(ReadData(l, ReadCodewords(g, version), l.blocks)), version)
  }

  lemma {:induction false} SymbolFormat(raw: seq<bv8>, version: nat, ecl: Ecc, mask: nat)
    requires ValidVersion(version) && |raw| == RawBytes(version) && mask < 8
    ensures SymbolMask(MaskedSymbol(raw, version, ecl, mask), version) == mask
    ensures SymbolLevel(MaskedSymbol(raw, version, ecl, mask), version) == ecl
  {
    hide Unmasked, FunctionModules, Masked, WithFormat, FirstCopy, ReadMask, ReadLevel;
    var n := SizeOf(version);
    ReadFirstCopy(Masked(FunctionModules(version), Unmasked(raw, version), n, mask), n, ecl, mask);
    ReadFormat(ecl, mask);
  }

  /** A data module of the symbol is its codeword bit with the mask applied. */
  lemma {:induction false} DataModule(raw: seq<bv8>, version: nat, ecl: Ecc, mask: nat, k: nat)
    requires ValidVersion(version) && |raw| == RawBytes(version) && mask < 8 && k < 8 * |raw|
    ensures var n, f, c := SizeOf(version), FunctionModules(version), DataModules(version)[k];
            Masked(f, MaskedSymbol(raw, version, ecl, mask), n, mask)[c.y][c.x] == BitsOf(raw)[k]
  {
    hide AllDataCoords, Write, WithFormat, FormatCoord, IsFunction, FunctionColour, MaskBit, BitsOf, SizeOf;
    var n, f := SizeOf(version), FunctionModules(version);
    CapacityTheorem(version);
    var cs := DataModules(version);
    var c := cs[k];
    assert c in cs;
    WriteThere(f, n, cs, BitsOf(raw), k);
    assert Unmasked(raw, version)[c.y][c.x] == BitsOf(raw)[k];
    hide Unmasked;
    NotFormat(version, c);
    FormatElsewhere(Masked(f, Unmasked(raw, version), n, mask), n, ecl, mask, c);
  }

  lemma NotFormat(version: nat, c: Coord)
    requires ValidVersion(version) && InGrid(c, SizeOf(version)) && !IsFunction(version, c.x, c.y)
    ensures c !in FormatCoords(SizeOf(version))
  {
    hide FormatCoord, IsFunction;
    if c in FormatCoords(SizeOf(version)) {
      var k :| 0 <= k < 31 && FormatCoords(SizeOf(version))[k] == c;
      FormatCoordIsFunction(version, k);
      assert false;
    }
  }

  lemma {:induction false} ReadCodewordsOfSymbol(raw: seq<bv8>, version: nat, ecl: Ecc, mask: nat)
    requires ValidVersion(version) && |raw| == RawBytes(version) && mask < 8
    ensures ReadCodewords(MaskedSymbol(raw, version, ecl, mask), version) == raw
  {
    hide DataModules, MaskedSymbol, FunctionModules, Masked, BitsOf, BytesOf, SizeOf, SymbolMask;
    var n, f := SizeOf(version), FunctionModules(version);
    var g := MaskedSymbol(raw, version, ecl, mask);
    SymbolFormat(raw, version, ecl, mask);
    var cs := DataModules(version)[..8 * |raw|];
    var bits := Read(Masked(f, g, n, mask), n, cs);
    forall k | 0 <= k < 8 * |raw| ensures bits[k] == BitsOf(raw)[k] {
      DataModule(raw, version, ecl, mask, k);
    }
    assert bits == BitsOf(raw);
    BytesOfBits(raw);
  }

  /** De-interleaving what was read gives back the data codewords. */
  lemma {:induction false} ReadDataOfSymbol(cs: seq<Content>, version: nat, ecl: Ecc, mask: nat)
    requires ValidVersion(version) && Fits(cs, version, ecl) && mask < 8
    ensures var l, g := LayoutOf(version, ecl), Symbol(cs, version, ecl, mask);
            SymbolLevel(g, version) == ecl && |ReadCodewords(g, version)| == RawLen(l)
            && ReadData(l, ReadCodewords(g, version), l.blocks) == DataCodewords(cs, version, ecl)
  {
    hide MaskedSymbol, GetNumRawDataModules, RawBytes, ReadCodewords, SymbolLevel, LayoutOf, RawLen,
         Interleaved, ReadData, DataCodewords, Fits;
    RawBytesFormula(version);
    var raw := RawCodewords(cs, version, ecl);
    SymbolFormat(raw, version, ecl, mask);
    ReadCodewordsOfSymbol(raw, version, ecl, mask);
    DeinterleaveData(LayoutOf(version, ecl), DataCodewords(cs, version, ecl));
  }

  /** The data codewords parse as the segments. */
  lemma {:induction false} ParseData(cs: seq<Content>, version: nat, ecl: Ecc)
    requires ValidVersion(version) && Fits(cs, version, ecl)
    requires forall i :: 0 <= i < |cs| ==> WellFormed(cs[i])
    ensures Parse(BitsOf(DataCodewords(cs, version, ecl)), version) == Parsed(cs)
  {
    hide LayoutOf, DataLen, Parse, BytesOf, BitsOf, WellFormed, CountFits, DataBits, StreamBits, Terminated;
    var stream, capacity := StreamBits(cs, version), CapacityBits(version, ecl);
    var bits := DataBits(stream, capacity);
    BitsOfBytes(bits, DataLen(LayoutOf(version, ecl)));
    DataBitsTerminated(stream, capacity);
    assert bits == stream + bits[|stream|..];
    ParseStream(cs, bits[|stream|..], version);
  }

  /** End to end: reading the finished symbol yields exactly the segments it was made from. */
  lemma {:induction false} RoundTrip(cs: seq<Content>, version: nat, ecl: Ecc, mask: nat)
    requires ValidVersion(version) && Fits(cs, version, ecl) && mask < 8
    requires forall i :: 0 <= i < |cs| ==> WellFormed(cs[i])
    ensures ReadSymbol(Symbol(cs, version, ecl, mask), version) == Parsed(cs)
  {
    hide Symbol, GetNumRawDataModules, RawBytes, ReadCodewords, SymbolLevel, LayoutOf, RawLen, ReadData, Parse,
         BitsOf, WellFormed, Fits, DataCodewords;
    RawBytesFormula(version);
    ReadDataOfSymbol(cs, version, ecl, mask);
    ParseData(cs, version, ecl);
  }
}
