/** The encoder: version and level choice, data bits, codewords, drawing, masking. */
module Encoder {
  import opened Bits
  import opened BitBuffer
  import opened Segments
  import opened SegmentMaking
  import opened Versions
  import opened Interleaving
  import opened Grids
  import opened CodewordPlacement
  import opened FunctionPatterns
  import opened FunctionColours
  import opened Capacity
  import opened FormatBits
  import opened Masking
  import opened Penalty
  import opened Symbols

  // ---- Writing the segments

  method AppendSegment(seg: Segment, version: nat, q: array<bv8>, bitLen: nat, ghost cap: nat, ghost bits: seq<bool>)
    returns (newLen: nat)
    requires ValidVersion(version) && Readable(seg) && seg.data != q && CountFits(ContentOf(seg), version)
    requires cap <= q.Length && |bits| == bitLen && BitBuffer.Holds(q[..cap], bits)
    requires bitLen + |SegmentBits(ContentOf(seg), version)| <= 8 * cap
    modifies q
    ensures newLen == bitLen + |SegmentBits(ContentOf(seg), version)|
    ensures BitBuffer.Holds(q[..cap], bits + SegmentBits(ContentOf(seg), version))
  {
    hide BitBuffer.Holds, ToBits, NumCharCountBits, ShiftRight, BitAt, BitsOf;
    ghost var c := ContentOf(seg);
    newLen := AppendBitsToBuffer(Indicator(seg.mode), 4, q, bitLen, cap, bits);
    ghost var bits1 := bits + ToBits(Indicator(seg.mode), 4);
    newLen := AppendBitsToBuffer(seg.numChars, NumCharCountBits(seg.mode, version), q, newLen, cap, bits1);
    ghost var bits2 := bits1 + ToBits(seg.numChars, NumCharCountBits(seg.mode, version));
    newLen := AppendPayload(seg, q, newLen, cap, bits2);
    assert bits2 + c.payload == bits + SegmentBits(c, version);
  }

  method AppendPayload(seg: Segment, q: array<bv8>, bitLen: nat, ghost cap: nat, ghost bits: seq<bool>) returns (newLen: nat)
    requires Readable(seg) && seg.data != q
    requires cap <= q.Length && |bits| == bitLen && BitBuffer.Holds(q[..cap], bits) && bitLen + seg.bitLength <= 8 * cap
    modifies q
    ensures newLen == bitLen + seg.bitLength
    ensures BitBuffer.Holds(q[..cap], bits + ContentOf(seg).payload)
  {
    hide BitBuffer.Holds, ToBits, BitAt;
    ghost var payload := ContentOf(seg).payload;
    newLen := bitLen;
    assert bits + payload[..0] == bits;
    for j := 0 to seg.bitLength
      invariant newLen == bitLen + j
      invariant BitBuffer.Holds(q[..cap], bits + payload[..j])
    {
      var bit := BitAt(seg.data[..], j);
      OneBit(bit);
      newLen := AppendBitsToBuffer(if bit then 1 else 0, 1, q, newLen, cap, bits + payload[..j]);
      assert bits + payload[..j] + [bit] == bits + payload[..j + 1];
    }
    assert payload[..seg.bitLength] == payload;
  }

  lemma OneBit(b: bool)
    ensures ToBits(if b then 1 else 0, 1) == [b] && ShiftRight(if b then 1 else 0, 1) == 0
  {
  }

  method AppendSegments(segs: seq<Segment>, version: nat, q: array<bv8>, ghost cap: nat) returns (bitLen: nat)
    requires ValidVersion(version) && cap <= q.Length && BitBuffer.Holds(q[..cap], [])
    requires forall i :: 0 <= i < |segs| ==> Readable(segs[i]) && segs[i].data != q
    requires forall i :: 0 <= i < |segs| ==> CountFits(ContentsOf(segs)[i], version)
    requires |StreamBits(ContentsOf(segs), version)| <= 8 * cap
    modifies q
    ensures bitLen == |StreamBits(ContentsOf(segs), version)|
    ensures BitBuffer.Holds(q[..cap], StreamBits(ContentsOf(segs), version))
    ensures ContentsOf(segs) == old(ContentsOf(segs))
  {
    hide BitBuffer.Holds, StreamBits, SegmentBits, CountFits, BitsOf;
    ghost var cs := ContentsOf(segs);
    bitLen := 0;
    EmptyStream(cs, version);
    for i := 0 to |segs|
      invariant ContentsOf(segs) == cs
      invariant bitLen == |StreamBits(cs[..i], version)|
      invariant BitBuffer.Holds(q[..cap], StreamBits(cs[..i], version))
    {
      assert cs[..i + 1] == cs[..i] + [cs[i]];
      StreamBitsSnoc(cs[..i], cs[i], version);
      StreamPrefix(cs, i + 1, version);
      assert ContentOf(segs[i]) == cs[i];
      bitLen := AppendSegment(segs[i], version, q, bitLen, cap, StreamBits(cs[..i], version));
      assert ContentsOf(segs) == cs;
    }
    assert cs[..|segs|] == cs;
  }

  lemma {:induction false} ZeroBits(n: nat)
    ensures ToBits(0, n) == Zeroes(n) && ShiftRight(0, n) == 0
  {
    if n > 0 {
      ZeroBits(n - 1);
    }
  }

  /** Terminator, byte alignment and padding bytes. */
  method AppendPadding(q: array<bv8>, used: nat, capacity: nat, ghost cap: nat, ghost stream: seq<bool>)
    requires cap <= q.Length && |stream| == used <= capacity <= 8 * cap && capacity % 8 == 0
    requires BitBuffer.Holds(q[..cap], stream)
    modifies q
    ensures BitBuffer.Holds(q[..cap], DataBits(stream, capacity))
  {
    hide BitBuffer.Holds, ToBits, ShiftRight, PadBits, Zeroes, AlignedLength, PadBytes;
    PaddingLengths(used, capacity);
    var terminatorBits := capacity - used;
    if terminatorBits > 4 {
      terminatorBits := 4;
    }
    assert terminatorBits == TerminatorBits(used, capacity);
    ghost var aligned := AlignedLength(used, capacity);
    ZeroBits(terminatorBits);
    var bitLen := AppendBitsToBuffer(0, terminatorBits, q, used, cap, stream);
    var rest := (8 - bitLen % 8) % 8;
    ZeroBits(rest);
    ghost var bits := stream + Zeroes(terminatorBits);
    assert bitLen + rest == aligned;
    bitLen := AppendBitsToBuffer(0, rest, q, bitLen, cap, bits);
    ZeroesSum(terminatorBits, rest);
    assert bits + Zeroes(rest) == stream + Zeroes(aligned - used);
    AppendPadBytes(q, bitLen, capacity, cap, stream + Zeroes(aligned - used));
  }

  lemma PaddingLengths(used: nat, capacity: nat)
    requires used <= capacity && capacity % 8 == 0
    ensures var t := used + TerminatorBits(used, capacity);
            t + (8 - t % 8) % 8 == AlignedLength(used, capacity) && (8 - t % 8) % 8 <= 7
    ensures (capacity - AlignedLength(used, capacity)) % 8 == 0
    ensures (capacity - AlignedLength(used, capacity)) / 8 == PadBytes(used, capacity)
  {
  }

  lemma ZeroesSum(a: nat, b: nat)
    ensures Zeroes(a) + Zeroes(b) == Zeroes(a + b)
  {
  }

  method AppendPadBytes(q: array<bv8>, start: nat, capacity: nat, ghost cap: nat, ghost bits: seq<bool>)
    requires cap <= q.Length && |bits| == start <= capacity <= 8 * cap && (capacity - start) % 8 == 0
    requires BitBuffer.Holds(q[..cap], bits)
    modifies q
    ensures BitBuffer.Holds(q[..cap], bits + PadBits((capacity - start) / 8))
  {
    hide BitBuffer.Holds, ToBits, ShiftRight;
    var bitLen, padByte := start, 0xEC;
    ghost var k := 0;
    assert bits + PadBits(0) == bits;
    while bitLen < capacity
      invariant bitLen == start + 8 * k <= capacity
      invariant padByte == if k % 2 == 0 then 0xEC else 0x11
      invariant BitBuffer.Holds(q[..cap], bits + PadBits(k))
    {
      PadByteFits();
      bitLen := AppendBitsToBuffer(padByte, 8, q, bitLen, cap, bits + PadBits(k));
      assert PadBits(k + 1) == PadBits(k) + ToBits(padByte, 8);
      assert bits + PadBits(k) + ToBits(padByte, 8) == bits + PadBits(k + 1);
      // padByte ^= 0xEC ^ 0x11
      padByte := if padByte == 0xEC then 0x11 else 0xEC;
      k := k + 1;
    }
  }

  lemma PadByteFits()
    ensures ShiftRight(0xEC, 8) == 0 && ShiftRight(0x11, 8) == 0
  {
    FitsInBits(0xEC, 8);
    FitsInBits(0x11, 8);
    assert Pow2(8) == 2 * (2 * (2 * (2 * Pow2(4)))) && Pow2(4) == 2 * (2 * (2 * (2 * Pow2(0))));
  }

  // ---- Version and level

  function Rank(ecl: Ecc): nat {
    match ecl
    case Low => 0
    case Medium => 1
    case Quartile => 2
    case High => 3
  }

  /** A higher rank is more error correction: in every version it leaves less room for data. */
  lemma RankMeans(version: nat, ecl: Ecc, other: Ecc)
    requires ValidVersion(version)
    ensures Rank(ecl) < Rank(other) <==> GetNumDataCodewords(version, ecl) > GetNumDataCodewords(version, other)
  {
    hide GetNumDataCodewords;
    LevelsOrdered(version);
  }

  function LevelOf(rank: nat): (ecl: Ecc)
    requires rank < 4
    ensures Rank(ecl) == rank
  {
    if rank == 0 then Low else if rank == 1 then Medium else if rank == 2 then Quartile else High
  }

  /** The least version of the range in which the segments fit at the requested level, if there is one. */
  ghost predicate IsLeastVersion(cs: seq<Content>, ecl: Ecc, minVersion: nat, maxVersion: nat, version: nat) {
    1 <= minVersion <= version <= maxVersion <= 40 && Fits(cs, version, ecl)
    && forall v :: minVersion <= v < version ==> !Fits(cs, v, ecl)
  }

  /** With boosting the highest level that still fits, otherwise the requested one. */
  ghost predicate IsChosenLevel(cs: seq<Content>, ecl: Ecc, boostEcl: bool, version: nat, level: Ecc)
    requires ValidVersion(version)
  {
    Fits(cs, version, level) && Rank(level) >= Rank(ecl)
    && (if boostEcl then forall e :: Fits(cs, version, e) ==> Rank(e) <= Rank(level) else level == ecl)
  }

  ghost predicate NoVersionFits(cs: seq<Content>, ecl: Ecc, minVersion: nat, maxVersion: nat)
    requires 1 <= minVersion <= maxVersion <= 40
  {
    forall v :: minVersion <= v <= maxVersion ==> !Fits(cs, v, ecl)
  }

  method ChooseVersion(segs: seq<Segment>, ecl: Ecc, minVersion: nat, maxVersion: nat)
    returns (found: bool, version: nat, dataUsedBits: int)
    requires 1 <= minVersion <= maxVersion <= 40
    requires forall i :: 0 <= i < |segs| ==> Readable(segs[i])
    ensures found ==> IsLeastVersion(ContentsOf(segs), ecl, minVersion, maxVersion, version)
    ensures found ==> dataUsedBits == TotalBits(ContentsOf(segs), version)
    ensures !found ==> NoVersionFits(ContentsOf(segs), ecl, minVersion, maxVersion)
  {
    hide TotalBits, LayoutOf, DataLen, GetNumDataCodewords;
    version := minVersion;
    while true
      invariant minVersion <= version <= maxVersion
      invariant forall v :: minVersion <= v < version ==> !Fits(ContentsOf(segs), v, ecl)
      decreases maxVersion - version
    {
      var dataCapacityBits := 8 * GetNumDataCodewords(version, ecl);
      assert dataCapacityBits == CapacityBits(version, ecl);
      dataUsedBits := GetTotalBits(segs, version);
      if dataUsedBits != LENGTH_OVERFLOW && dataUsedBits <= dataCapacityBits {
        found := true;
        return;
      }
      if version >= maxVersion {
        found := false;
        return;
      }
      version := version + 1;
    }
  }

  method ChooseLevel(ghost cs: seq<Content>, ecl: Ecc, boostEcl: bool, version: nat, dataUsedBits: int) returns (level: Ecc)
    requires ValidVersion(version) && Fits(cs, version, ecl) && dataUsedBits == TotalBits(cs, version)
    ensures IsChosenLevel(cs, ecl, boostEcl, version, level)
  {
    hide TotalBits, LayoutOf, DataLen, GetNumDataCodewords;
    level := ecl;
    for i := 1 to 4
      invariant Fits(cs, version, level)
      invariant !boostEcl ==> level == ecl
      invariant boostEcl ==> forall e :: 1 <= Rank(e) < i && Fits(cs, version, e) ==> Rank(e) <= Rank(level)
      invariant Rank(level) >= Rank(ecl) || (boostEcl && i <= Rank(ecl))
    {
      var capacity := 8 * GetNumDataCodewords(version, LevelOf(i));
      assert capacity == CapacityBits(version, LevelOf(i));
      if boostEcl && dataUsedBits <= capacity {
        level := LevelOf(i);
      }
    }
  }

  // ---- Codewords and drawing

  lemma {:induction false} BufferHoldsCodewords(version: nat)
    requires ValidVersion(version)
    ensures RawLen(LayoutOf(version, Low)) == RawBytes(version) <= BufferLen(SizeOf(version))
  {
    hide FunctionSet, AllDataCoords, FunctionModules;
    RawBytesFormula(version);
    FunctionSetSize(version);
  }

  lemma SameRawLen(version: nat, ecl: Ecc)
    requires ValidVersion(version)
    ensures RawLen(LayoutOf(version, ecl)) == RawLen(LayoutOf(version, Low))
  {
    hide RawLen;
  }

  lemma BufferGrows(n: nat, m: nat)
    requires n <= m
    ensures BufferLen(n) <= BufferLen(m)
  {
    assert n * n <= n * m <= m * m;
  }

  /** The data bits of the segments become the first data bytes of the buffer. */
  lemma BufferIsData(q: seq<bv8>, cap: nat, cs: seq<Content>, version: nat, ecl: Ecc)
    requires ValidVersion(version) && Fits(cs, version, ecl) && DataLen(LayoutOf(version, ecl)) <= cap <= |q|
    requires BitBuffer.Holds(q[..cap], DataBits(StreamBits(cs, version), CapacityBits(version, ecl)))
    ensures q[..DataLen(LayoutOf(version, ecl))] == DataCodewords(cs, version, ecl)
  {
    hide BitBuffer.Holds, DataBits, LayoutOf, StreamBits, DataLen, TotalBits;
    var len := DataLen(LayoutOf(version, ecl));
    var bits := DataBits(StreamBits(cs, version), CapacityBits(version, ecl));
    HoldsPrefix(q, cap, bits);
    BitsOfBytes(bits, len);
    BitsOfPrefix(q, q[..len]);
    BytesFromBits(q[..len], DataCodewords(cs, version, ecl));
  }

  method WriteData(segs: seq<Segment>, version: nat, ecl: Ecc, q: array<bv8>, ghost cs: seq<Content>)
    requires ValidVersion(version) && q.Length >= BufferLen(SizeOf(version))
    requires forall i :: 0 <= i < |segs| ==> Readable(segs[i]) && segs[i].data != q
    requires cs == ContentsOf(segs) && Fits(cs, version, ecl)
    modifies q
    ensures DataLen(LayoutOf(version, ecl)) <= q.Length
    ensures q[..DataLen(LayoutOf(version, ecl))] == DataCodewords(cs, version, ecl)
  {
    hide BitBuffer.Holds, StreamBits, CountFits, BitsOf, LayoutOf, RawLen, BufferLen, SizeOf, AlignedLength,
         RawBytes, GetNumRawDataModules, GetNumDataCodewords;
    ghost var cap := BufferLen(SizeOf(version));
    BufferHoldsCodewords(version);
    SameRawLen(version, ecl);
    var capacity := 8 * GetNumDataCodewords(version, ecl);
    assert capacity == CapacityBits(version, ecl);
    ClearBuffer(q, BufferLen(SizeOf(version)));
    var bitLen := AppendSegments(segs, version, q, cap);
    AppendPadding(q, bitLen, capacity, cap, StreamBits(cs, version));
    BufferIsData(q[..], cap, cs, version, ecl);
  }

  lemma {:induction false} PlacedModules(raw: seq<bv8>, version: nat)
    requires ValidVersion(version) && |raw| == RawBytes(version)
    ensures var n, f := SizeOf(version), FunctionModules(version);
            var g := Write(f, n, DataModules(version), BitsOf(raw));
            forall x, y :: 0 <= x < n && 0 <= y < n && IsFunction(version, x, y) ==> g[y][x]
  {
    hide AllDataCoords, Write, IsFunction, BitsOf;
    CapacityTheorem(version);
    var n, f, cs := SizeOf(version), FunctionModules(version), DataModules(version);
    forall x: nat, y: nat | x < n && y < n && IsFunction(version, x, y) ensures Write(f, n, cs, BitsOf(raw))[y][x] {
      assert Coord(x, y) !in cs;
      WriteElsewhere(f, n, cs, BitsOf(raw), Coord(x, y));
    }
  }

  lemma ColouredIsWithColours(g: Grid, h: Grid, version: nat)
    requires ValidVersion(version) && Coloured(g, h, version)
    ensures h == WithColours(g, version)
  {
    hide FunctionColour, IsFunction, WithColours;
    SameGrid(h, WithColours(g, version), SizeOf(version));
  }

  /** Draws the codewords in `codewords` and all function patterns, but no format bits. */
  method DrawUnmasked(codewords: array<bv8>, version: nat, q: array<bv8>, ghost raw: seq<bv8>)
    requires ValidVersion(version) && q != codewords && q.Length >= BufferLen(SizeOf(version))
    requires |raw| == RawBytes(version) <= codewords.Length && codewords[..|raw|] == raw
    modifies q
    ensures Sized(q[..], SizeOf(version)) && GridOf(q[..], SizeOf(version)) == Unmasked(raw, version)
  {
    hide AllDataCoords, Write, IsFunction, BitsOf, GridOf, BufferLen, FunctionModules, GetNumRawDataModules,
         FunctionColour, WithColours, Coloured, SizeOf;
    RawBytesFormula(version);
    PlacedModules(raw, version);
    InitializeFunctionModules(version, q);
    DrawCodewords(codewords, GetNumRawDataModules(version) / 8, q, SizeOf(version));
    ghost var g := GridOf(q[..], SizeOf(version));
    DrawLightFunctionModules(q, version);
    ColouredIsWithColours(g, GridOf(q[..], SizeOf(version)), version);
  }

  // ---- Masking

  /** Format bits lie on function modules, so masks and format bits do not interfere. */
  lemma FormatMaskCommute(g: Grid, version: nat, ecl: Ecc, i: nat, k: nat)
    requires ValidVersion(version) && Square(g, SizeOf(version)) && i < 8 && k < 8
    ensures var n, f := SizeOf(version), FunctionModules(version);
            Masked(f, WithFormat(g, n, ecl, i), n, k) == WithFormat(Masked(f, g, n, k), n, ecl, i)
  {
    hide WithFormat, MaskBit, IsFunction, FormatCoord, FormatValue, SizeOf;
    var n, f := SizeOf(version), FunctionModules(version);
    var a, b := Masked(f, WithFormat(g, n, ecl, i), n, k), WithFormat(Masked(f, g, n, k), n, ecl, i);
    forall x: nat, y: nat | x < n && y < n ensures a[y][x] == b[y][x] {
      var c := Coord(x, y);
      if c in FormatCoords(n) {
        var j :| 0 <= j < 31 && FormatCoords(n)[j] == c;
        FormatCoordIsFunction(version, j);
        FormatThere(g, n, ecl, i, j);
        FormatThere(Masked(f, g, n, k), n, ecl, i, j);
      } else {
        FormatElsewhere(g, n, ecl, i, c);
        FormatElsewhere(Masked(f, g, n, k), n, ecl, i, c);
      }
    }
    SameGrid(a, b, n);
  }

  /** Between trials the buffer shows the unmasked symbol, perhaps under the format bits of an earlier trial. */
  ghost predicate TrialStart(g: Grid, raw: seq<bv8>, version: nat, ecl: Ecc, i: nat)
    requires ValidVersion(version) && |raw| == RawBytes(version)
  {
    if i == 0 then g == Unmasked(raw, version)
    else i <= 8 && g == WithFormat(Unmasked(raw, version), SizeOf(version), ecl, i - 1)
  }

  /** Masking and drawing the format bits gives the symbol of the trial; masking again starts the next one. */
  lemma {:induction false} Trial(g: Grid, raw: seq<bv8>, version: nat, ecl: Ecc, i: nat, mask: nat)
    requires ValidVersion(version) && |raw| == RawBytes(version) && mask < 8 && TrialStart(g, raw, version, ecl, i)
    ensures Square(g, SizeOf(version))
    ensures var n, f := SizeOf(version), FunctionModules(version);
            WithFormat(Masked(f, g, n, mask), n, ecl, mask) == MaskedSymbol(raw, version, ecl, mask)
    ensures var n, f := SizeOf(version), FunctionModules(version);
            Masked(f, MaskedSymbol(raw, version, ecl, mask), n, mask) == WithFormat(Unmasked(raw, version), n, ecl, mask)
  {
    hide WithFormat, Masked, Unmasked, FunctionModules, SizeOf;
    var n, f, u := SizeOf(version), FunctionModules(version), Unmasked(raw, version);
    if i > 0 {
      FormatMaskCommute(u, version, ecl, i - 1, mask);
      FormatOverwrites(Masked(f, u, n, mask), n, ecl, i - 1, ecl, mask);
    }
    FormatMaskCommute(Masked(f, u, n, mask), version, ecl, mask, mask);
    MaskInvolution(f, u, n, mask);
  }

  /** The mask is the first of those whose symbols have the least penalty. */
  ghost predicate IsBestMask(raw: seq<bv8>, version: nat, ecl: Ecc, mask: nat)
    requires ValidVersion(version) && |raw| == RawBytes(version)
  {
    mask < 8
    && (forall m :: 0 <= m < 8 ==> Score(raw, version, ecl, mask) <= Score(raw, version, ecl, m))
    && (forall m :: 0 <= m < mask ==> Score(raw, version, ecl, mask) < Score(raw, version, ecl, m))
  }

  ghost function Score(raw: seq<bv8>, version: nat, ecl: Ecc, mask: nat): int
    requires ValidVersion(version) && |raw| == RawBytes(version) && mask < 8
  {
    PenaltyScore(MaskedSymbol(raw, version, ecl, mask), SizeOf(version))
  }

  method ChooseMask(functionModules: array<bv8>, version: nat, ecl: Ecc, q: array<bv8>, ghost raw: seq<bv8>) returns (mask: nat)
    requires ValidVersion(version) && q != functionModules && |raw| == RawBytes(version)
    requires Sized(q[..], SizeOf(version)) && Sized(functionModules[..], SizeOf(version))
    requires GridOf(functionModules[..], SizeOf(version)) == FunctionModules(version)
    requires GridOf(q[..], SizeOf(version)) == Unmasked(raw, version)
    modifies q
    ensures IsBestMask(raw, version, ecl, mask)
    ensures Sized(q[..], SizeOf(version)) && TrialStart(GridOf(q[..], SizeOf(version)), raw, version, ecl, 8)
  {
    hide GridOf, BufferLen, FunctionModules, Unmasked, MaskedSymbol, PenaltyScore, Masked, WithFormat, SizeOf,
         TrialStart;
    var minPenalty := LONG_MAX;
    mask := 8;
    TrialBegin(raw, version, ecl);
    for i := 0 to 8
      invariant Sized(q[..], SizeOf(version)) && TrialStart(GridOf(q[..], SizeOf(version)), raw, version, ecl, i)
      invariant i == 0 ==> minPenalty == LONG_MAX
      invariant i > 0 ==> mask < i && minPenalty == Score(raw, version, ecl, mask)
      invariant forall m :: 0 <= m < i ==> minPenalty <= Score(raw, version, ecl, m)
      invariant forall m :: 0 <= m < mask && m < i ==> minPenalty < Score(raw, version, ecl, m)
    {
      Trial(GridOf(q[..], SizeOf(version)), raw, version, ecl, i, i);
      PenaltyIsLong(MaskedSymbol(raw, version, ecl, i), SizeOf(version));
      ApplyMask(functionModules, q, SizeOf(version), i);
      DrawFormatBits(ecl, i, q, SizeOf(version));
      var penalty := GetPenaltyScore(q, SizeOf(version));
      assert penalty == Score(raw, version, ecl, i);
      if penalty < minPenalty {
        mask := i;
        minPenalty := penalty;
      }
      ApplyMask(functionModules, q, SizeOf(version), i);
      TrialNext(GridOf(q[..], SizeOf(version)), raw, version, ecl, i);
    }
  }

  lemma TrialBegin(raw: seq<bv8>, version: nat, ecl: Ecc)
    requires ValidVersion(version) && |raw| == RawBytes(version)
    ensures TrialStart(Unmasked(raw, version), raw, version, ecl, 0)
  {
    hide Unmasked;
  }

  lemma TrialNext(g: Grid, raw: seq<bv8>, version: nat, ecl: Ecc, i: nat)
    requires ValidVersion(version) && |raw| == RawBytes(version) && i < 8
    requires g == WithFormat(Unmasked(raw, version), SizeOf(version), ecl, i)
    ensures TrialStart(g, raw, version, ecl, i + 1)
  {
    hide Unmasked, WithFormat;
  }

  // ---- The whole encoder

  /** A finished symbol of the segments: least version, chosen level, requested or best mask. */
  ghost predicate IsEncoding(cs: seq<Content>, ecl: Ecc, minVersion: nat, maxVersion: nat, mask: int, boostEcl: bool,
                             g: Grid, version: nat, level: Ecc, chosen: nat) {
    IsLeastVersion(cs, ecl, minVersion, maxVersion, version) && IsChosenLevel(cs, ecl, boostEcl, version, level)
    && chosen < 8 && (if mask >= 0 then chosen == mask else IsBestMask(RawCodewords(cs, version, level), version, level, chosen))
    && g == Symbol(cs, version, level, chosen)
  }

  method EncodeSegmentsAdvanced(segs: seq<Segment>, ecl: Ecc, minVersion: nat, maxVersion: nat, mask: int, boostEcl: bool,
                                tempBuffer: array<bv8>, qrcode: array<bv8>)
    returns (ok: bool, ghost version: nat, ghost level: Ecc, ghost chosen: nat)
    requires 1 <= minVersion <= maxVersion <= 40 && -1 <= mask <= 7
    requires forall i :: 0 <= i < |segs| ==> Readable(segs[i]) && segs[i].data != qrcode
    requires tempBuffer != qrcode
    requires tempBuffer.Length >= BufferLen(SizeOf(maxVersion)) && qrcode.Length >= BufferLen(SizeOf(maxVersion))
    modifies tempBuffer, qrcode
    ensures ok ==> ValidVersion(version) && Sized(qrcode[..], SizeOf(version))
    ensures ok ==> IsEncoding(old(ContentsOf(segs)), ecl, minVersion, maxVersion, mask, boostEcl,
                              GridOf(qrcode[..], SizeOf(version)), version, level, chosen)
    ensures !ok ==> qrcode[0] == 0 && NoVersionFits(old(ContentsOf(segs)), ecl, minVersion, maxVersion)
  {
    hide BufferLen, SizeOf, IsLeastVersion, IsChosenLevel, Fits, GridOf, IsBestMask, RawCodewords, NoVersionFits;
    ghost var cs := ContentsOf(segs);
    var found, v, dataUsedBits := ChooseVersion(segs, ecl, minVersion, maxVersion);
    version, level, chosen := v, ecl, 0;
    if !found {
      qrcode[0] := 0;
      return false, version, level, chosen;
    }
    assert ValidVersion(v) && v <= maxVersion && Fits(cs, v, ecl) by { LeastVersionFits(cs, ecl, minVersion, maxVersion, v); }
    SizesGrow(v, maxVersion);
    var e := ChooseLevel(cs, ecl, boostEcl, v, dataUsedBits);
    assert Fits(cs, v, e) by { ChosenLevelFits(cs, ecl, boostEcl, v, e); }
    var m := EncodeAt(segs, v, e, mask, tempBuffer, qrcode, cs);
    ok, version, level, chosen := true, v, e, m;
  }

  lemma LeastVersionFits(cs: seq<Content>, ecl: Ecc, minVersion: nat, maxVersion: nat, version: nat)
    requires IsLeastVersion(cs, ecl, minVersion, maxVersion, version)
    ensures minVersion <= version <= maxVersion && ValidVersion(version) && Fits(cs, version, ecl)
  {
  }

  lemma ChosenLevelFits(cs: seq<Content>, ecl: Ecc, boostEcl: bool, version: nat, level: Ecc)
    requires ValidVersion(version) && IsChosenLevel(cs, ecl, boostEcl, version, level)
    ensures Fits(cs, version, level)
  {
  }

  lemma SizesGrow(version: nat, maxVersion: nat)
    requires ValidVersion(version) && ValidVersion(maxVersion) && version <= maxVersion
    ensures BufferLen(SizeOf(version)) <= BufferLen(SizeOf(maxVersion))
  {
    BufferGrows(SizeOf(version), SizeOf(maxVersion));
  }

  /** Everything after the choice of version and level. */
  method EncodeAt(segs: seq<Segment>, version: nat, ecl: Ecc, mask: int, tempBuffer: array<bv8>, qrcode: array<bv8>,
                  ghost cs: seq<Content>)
    returns (chosen: nat)
    requires ValidVersion(version) && -1 <= mask <= 7 && tempBuffer != qrcode
    requires forall i :: 0 <= i < |segs| ==> Readable(segs[i]) && segs[i].data != qrcode
    requires cs == ContentsOf(segs) && Fits(cs, version, ecl)
    requires tempBuffer.Length >= BufferLen(SizeOf(version)) && qrcode.Length >= BufferLen(SizeOf(version))
    modifies tempBuffer, qrcode
    ensures Sized(qrcode[..], SizeOf(version)) && chosen < 8
    ensures if mask >= 0 then chosen == mask else IsBestMask(RawCodewords(cs, version, ecl), version, ecl, chosen)
    ensures GridOf(qrcode[..], SizeOf(version)) == Symbol(cs, version, ecl, chosen)
  {
    hide BufferLen, SizeOf, Fits, GridOf, IsBestMask, RawBytes, LayoutOf, RawLen, DataLen, Interleaved,
         DataCodewords, BitsOf, FunctionModules, TrialStart, Unmasked, MaskedSymbol, WithFormat, Masked;
    ghost var raw := RawCodewords(cs, version, ecl);
    BufferHoldsCodewords(version);
    SameRawLen(version, ecl);
    WriteData(segs, version, ecl, qrcode, cs);
    AddEccAndInterleave(qrcode, version, ecl, tempBuffer);
    assert tempBuffer[..|raw|] == raw;
    DrawUnmasked(tempBuffer, version, qrcode, raw);
    InitializeFunctionModules(version, tempBuffer);
    if mask == -1 {
      chosen := ChooseMask(tempBuffer, version, ecl, qrcode, raw);
      assert chosen < 8 by { BestMaskBound(raw, version, ecl, chosen); }
      Trial(GridOf(qrcode[..], SizeOf(version)), raw, version, ecl, 8, chosen);
    } else {
      chosen := mask;
      TrialBegin(raw, version, ecl);
      Trial(GridOf(qrcode[..], SizeOf(version)), raw, version, ecl, 0, chosen);
    }
    ApplyMask(tempBuffer, qrcode, SizeOf(version), chosen);
    DrawFormatBits(ecl, chosen, qrcode, SizeOf(version));
  }

  lemma BestMaskBound(raw: seq<bv8>, version: nat, ecl: Ecc, mask: nat)
    requires ValidVersion(version) && |raw| == RawBytes(version) && IsBestMask(raw, version, ecl, mask)
    ensures mask < 8
  {
  }
}
