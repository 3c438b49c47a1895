/** encodeText and the text-level round trip: reading the symbol gives back the text. */
module TextEncoder {
  import opened Arithmetic
  import opened BitBuffer
  import opened Packing
  import opened Segments
  import opened SegmentMaking
  import opened Versions
  import opened Interleaving
  import opened Grids
  import opened FunctionPatterns
  import opened Symbols
  import opened Encoder

  // ---- From text to segments

  /** A C string: no NUL inside, each character one byte. */
  ghost predicate IsCString(text: string) {
    forall i :: 0 <= i < |text| ==> 0 < text[i] as int < 256
  }

  ghost predicate AllDigits(text: string) {
    forall i :: 0 <= i < |text| ==> IsDigit(text[i])
  }

  ghost predicate AllInCharset(text: string) {
    forall i :: 0 <= i < |text| ==> InCharset(text[i])
  }

  function ByteOfChar(c: char): bv8
    requires c as int < 256
  {
    (c as int) as bv8
  }

  function CharOfByte(b: bv8): char {
    (b as int) as char
  }

  lemma ByteRoundTrip(c: char)
    requires c as int < 256
    ensures CharOfByte(ByteOfChar(c)) == c
  {
  }

  function ByteValues(text: string): (bytes: seq<bv8>)
    requires IsCString(text)
    ensures |bytes| == |text|
  {
    seq(|text|, i requires 0 <= i < |text| => ByteOfChar(text[i]))
  }

  /** The segment that encodeText makes of a non-empty text, by the tightest mode that can hold it. */
  ghost function TextContent(text: string): Content
    requires IsCString(text)
  {
    if AllDigits(text) then Content(Numeric, |text|, Pack(NUMERIC, DigitValues(text)))
    else if AllInCharset(text) then Content(Alphanumeric, |text|, Pack(ALPHANUMERIC, AlphanumericValues(text)))
    else Content(Byte, |text|, BitsOf(ByteValues(text)))
  }

  ghost function TextSegments(text: string): seq<Content>
    requires IsCString(text)
  {
    if text == "" then [] else [TextContent(text)]
  }

  // ---- From segments to text

  ghost function SegmentText(c: Content): string
    requires WellFormed(c) && c.mode != Kanji
  {
    match c.mode
    case Numeric => DigitText(Unpack(NUMERIC, c.payload, c.numChars))
    case Alphanumeric => SymbolText(Unpack(ALPHANUMERIC, c.payload, c.numChars))
    case Byte => ByteText(BytesOf(c.payload, c.numChars))
  }

  /** Values that are not symbols of the scheme stand for nothing. */
  ghost function SymbolText(vals: seq<nat>): string {
    if AreSymbols(ALPHANUMERIC, vals) then Characters(vals) else ""
  }

  ghost function DigitText(vals: seq<nat>): string {
    if AreSymbols(NUMERIC, vals) then SymbolText(vals) else ""
  }

  function ByteText(bytes: seq<bv8>): (text: string)
    ensures |text| == |bytes|
  {
    seq(|bytes|, i requires 0 <= i < |bytes| => CharOfByte(bytes[i]))
  }

  ghost function SegmentsText(cs: seq<Content>): string
    requires forall i :: 0 <= i < |cs| ==> WellFormed(cs[i]) && cs[i].mode != Kanji
  {
    if cs == [] then "" else SegmentText(cs[0]) + SegmentsText(cs[1..])
  }

  lemma ByteTextOfValues(text: string)
    requires IsCString(text)
    ensures ByteText(ByteValues(text)) == text
  {
    hide ByteOfChar, CharOfByte;
    forall i | 0 <= i < |text| ensures ByteText(ByteValues(text))[i] == text[i] {
      ByteRoundTrip(text[i]);
    }
  }

  lemma {:induction false} TextContentReads(text: string)
    requires IsCString(text) && CalcSegmentBitLength(TextContent(text).mode, |text|) != LENGTH_OVERFLOW
    ensures TextContent(text).mode != Kanji && WellFormed(TextContent(text))
    ensures SegmentText(TextContent(text)) == text
  {
    hide Pack, Unpack, BitsOf, BytesOf, InCharset, IsDigit, ByteText, PackedLength, AreSymbols;
    CalcMatches(|text|);
    if AllDigits(text) {
      UnpackPack(NUMERIC, DigitValues(text));
      CharactersOfDigits(text);
    } else if AllInCharset(text) {
      UnpackPack(ALPHANUMERIC, AlphanumericValues(text));
    } else {
      BytesOfBits(ByteValues(text));
      ByteTextOfValues(text);
      ByteLength(|text|);
    }
  }

  lemma ByteLength(n: nat)
    ensures CalcSegmentBitLength(Byte, n) != LENGTH_OVERFLOW ==> CalcSegmentBitLength(Byte, n) == 8 * n
  {
  }

  // ---- No segment for the text is shorter

  /** The payload bits of n characters, however many. */
  function PayloadLength(mode: Mode, n: nat): nat
    requires mode != Kanji && mode != Eci
  {
    if mode == Numeric then (n * 10 + 2) / 3 else if mode == Alphanumeric then (n * 11 + 1) / 2 else n * 8
  }

  /** c is a segment that stands for the text, in whatever mode. */
  ghost predicate StandsFor(c: Content, text: string) {
    WellFormed(c) && c.mode != Kanji && SegmentText(c) == text
  }

  lemma CharsetDigits(c: char)
    requires IsDigit(c)
    ensures InCharset(c)
  {
    CharacterOfDigit(c);
  }

  lemma DigitOfValue(v: nat)
    requires v < 10
    ensures v < |CHARSET| && IsDigit(CHARSET[v])
  {
    if v < 5 {
      if v == 0 {} else if v == 1 {} else if v == 2 {} else if v == 3 {} else {}
    } else {
      if v == 5 {} else if v == 6 {} else if v == 7 {} else if v == 8 {} else {}
    }
  }

  /** What a segment with characters must be like to stand for the text. */
  lemma StandsForMeans(c: Content, text: string)
    requires StandsFor(c, text) && text != ""
    ensures c.mode != Kanji && c.mode != Eci && c.numChars == |text| && |c.payload| == PayloadLength(c.mode, |text|)
    ensures c.mode == Numeric ==> AllDigits(text)
    ensures c.mode == Alphanumeric ==> AllInCharset(text)
    ensures c.mode == Byte ==> |text| < 4096
  {
    hide Unpack, BytesOf, CharOfByte, InCharset, IsDigit;
    CalcMatches(c.numChars);
    match c.mode
    case Numeric =>
      var vals := Unpack(NUMERIC, c.payload, c.numChars);
      forall i | 0 <= i < |text| ensures IsDigit(text[i]) {
        DigitOfValue(vals[i]);
      }
    case Alphanumeric =>
      forall i | 0 <= i < |text| ensures InCharset(text[i]) {
        CharInCharset(Unpack(ALPHANUMERIC, c.payload, c.numChars)[i]);
      }
    case _ =>
  }

  lemma CharInCharset(v: nat)
    requires v < |CHARSET|
    ensures InCharset(CHARSET[v])
  {
  }

  lemma TextContentLength(text: string)
    requires IsCString(text)
    ensures var c := TextContent(text);
            c.mode != Kanji && c.mode != Eci && c.numChars == |text| && |c.payload| == PayloadLength(c.mode, |text|)
    ensures TextContent(text).mode == if AllDigits(text) then Numeric else if AllInCharset(text) then Alphanumeric else Byte
  {
    hide Pack, BitsOf, InCharset, IsDigit, ByteOfChar;
    if AllDigits(text) {
      PackLength(NUMERIC, DigitValues(text));
    } else if AllInCharset(text) {
      PackLength(ALPHANUMERIC, AlphanumericValues(text));
    }
  }

  function SegmentLength(mode: Mode, n: nat, version: nat): nat
    requires mode != Kanji && mode != Eci && ValidVersion(version)
  {
    4 + NumCharCountBits(mode, version) + PayloadLength(mode, n)
  }

  lemma ModesOrdered(n: nat, version: nat)
    requires n > 0 && ValidVersion(version)
    ensures SegmentLength(Numeric, n, version) <= SegmentLength(Alphanumeric, n, version) <= SegmentLength(Byte, n, version)
  {
  }

  /** The mode is the tightest: in every version no other segment that stands for the text has fewer bits. */
  lemma {:induction false} TightestMode(text: string, c: Content, version: nat)
    requires IsCString(text) && text != "" && StandsFor(c, text) && ValidVersion(version)
    ensures |SegmentBits(TextContent(text), version)| <= |SegmentBits(c, version)|
  {
    hide TextContent, StandsFor, NumCharCountBits, PayloadLength, InCharset, IsDigit, SegmentLength;
    StandsForMeans(c, text);
    TextContentLength(text);
    ModesOrdered(|text|, version);
    LengthOfSegment(c, version);
    LengthOfSegment(TextContent(text), version);
    DigitsAreInCharset(text);
  }

  lemma LengthOfSegment(c: Content, version: nat)
    requires c.mode != Kanji && c.mode != Eci && |c.payload| == PayloadLength(c.mode, c.numChars) && ValidVersion(version)
    ensures |SegmentBits(c, version)| == SegmentLength(c.mode, c.numChars, version)
  {
    hide ToBits, NumCharCountBits, PayloadLength;
  }

  lemma DigitsAreInCharset(text: string)
    ensures AllDigits(text) ==> AllInCharset(text)
  {
    hide InCharset, IsDigit;
    if AllDigits(text) {
      forall i | 0 <= i < |text| ensures InCharset(text[i]) {
        CharsetDigits(text[i]);
      }
    }
  }

  /** The counts of characters that a field can hold. */
  lemma CountLimits(mode: Mode, version: nat, n: nat)
    requires mode != Kanji && mode != Eci && ValidVersion(version)
    ensures var bits := NumCharCountBits(mode, version);
            ShiftRight(n, bits) == 0 <==>
              n < (if mode == Numeric then (if version < 10 then 1024 else if version < 27 then 4096 else 16384)
                   else if mode == Alphanumeric then (if version < 10 then 512 else if version < 27 then 2048 else 8192)
                   else if version < 10 then 256 else 65536)
  {
    hide ShiftRight;
    FitsInBits(n, NumCharCountBits(mode, version));
    Powers();
    assert Pow2(8) == 2 * (2 * (2 * (2 * Pow2(4)))) && Pow2(9) == 2 * Pow2(8) && Pow2(12) == 2 * Pow2(11);
    assert Pow2(13) == 2 * Pow2(12) && Pow2(14) == 2 * Pow2(13) && Pow2(16) == 2 * (2 * Pow2(14));
  }

  lemma CapacityLimit(version: nat, ecl: Ecc)
    requires ValidVersion(version)
    ensures CapacityBits(version, ecl) <= GetNumRawDataModules(version)
    ensures version < 27 ==> GetNumRawDataModules(version) < 16384
  {
    hide LayoutOf, DataLen, EccCodewordsPerBlock, NumErrorCorrectionBlocks;
    if version < 27 { RawLimit(version); }
    BlocksAreSound(version, ecl);
    NonNegativeProduct(EccCodewordsPerBlock(version, ecl), NumErrorCorrectionBlocks(version, ecl));
    hide GetNumRawDataModules;
  }

  lemma RawLimit(version: nat)
    requires 1 <= version < 27
    ensures 0 <= GetNumRawDataModules(version) < 16384
  {
    ProductOrder(16 * version + 128, 544, version);
    if version < 7 {} else if version < 14 {} else if version < 21 {} else {}
  }

  lemma OneSegment(c: Content, version: nat)
    requires ValidVersion(version)
    ensures StreamBits([c], version) == SegmentBits(c, version)
  {
    hide SegmentBits;
    assert [c][1..] == [];
    assert StreamBits([c], version) == SegmentBits(c, version) + [];
  }

  lemma CountsFitToo(text: string, c: Content, version: nat)
    requires IsCString(text) && text != "" && StandsFor(c, text) && ValidVersion(version) && CountFits(c, version)
    requires version < 27 ==> |SegmentBits(c, version)| < 16384
    ensures CountFits(TextContent(text), version)
  {
    hide TextContent, StandsFor, PayloadLength, InCharset, IsDigit, SegmentBits, ShiftRight, NumCharCountBits;
    StandsForMeans(c, text);
    TextContentLength(text);
    LengthOfSegment(c, version);
    DigitsAreInCharset(text);
    ByteMode(c.mode, |text|, version);
    CountLimits(c.mode, version, |text|);
    CountLimits(TextContent(text).mode, version, |text|);
  }

  lemma ByteMode(mode: Mode, n: nat, version: nat)
    requires mode != Kanji && mode != Eci && ValidVersion(version)
    ensures mode == Byte ==> SegmentLength(mode, n, version) >= 8 * n
  {
    hide NumCharCountBits;
  }

  /** If any segment that stands for the text fits, the one that encodeText makes fits, too. */
  lemma {:induction false} FitsToo(text: string, c: Content, version: nat, ecl: Ecc)
    requires IsCString(text) && text != "" && StandsFor(c, text) && ValidVersion(version) && Fits([c], version, ecl)
    ensures Fits([TextContent(text)], version, ecl)
  {
    hide TextContent, StandsFor, CountFits, CapacityBits, GetNumRawDataModules, SegmentBits, StreamBits;
    OneSegment(c, version);
    OneSegment(TextContent(text), version);
    TightestMode(text, c, version);
    CapacityLimit(version, ecl);
    assert CountFits([c][0], version);
    CountsFitToo(text, c, version);
  }

  lemma {:induction false} NoneFits(text: string, ecl: Ecc, minVersion: nat, maxVersion: int)
    requires IsCString(text) && text != "" && 1 <= minVersion && maxVersion <= 40
    requires forall v :: minVersion <= v <= maxVersion ==> !Fits([TextContent(text)], v, ecl)
    ensures NoSegmentFits(text, ecl, minVersion, maxVersion)
  {
    hide TextContent, StandsFor, Fits;
    forall c, v | minVersion <= v <= maxVersion && StandsFor(c, text) ensures !Fits([c], v, ecl) {
      if Fits([c], v, ecl) {
        FitsToo(text, c, v, ecl);
      }
    }
  }

  /** No segment that stands for the text fits one of the versions. */
  ghost predicate NoSegmentFits(text: string, ecl: Ecc, minVersion: nat, maxVersion: int)
    requires 1 <= minVersion && maxVersion <= 40
  {
    forall c, v :: minVersion <= v <= maxVersion && StandsFor(c, text) ==> !Fits([c], v, ecl)
  }

  // ---- The reader of a symbol buffer

  /** The version that the size byte stands for. */
  function VersionOfSize(n: int): int {
    (n - 17) / 4
  }

  ghost function ReadBuffer(q: seq<bv8>): Parsed {
    if |q| == 0 then Malformed
    else
      var n := q[0] as int;
      if n < 21 || n > 177 || n % 4 != 1 || |q| < BufferLen(n) then Malformed
      else ReadSymbol(GridOf(q, n), VersionOfSize(n))
  }

  lemma {:induction false} ReadSized(q: seq<bv8>, version: nat)
    requires ValidVersion(version) && Sized(q, SizeOf(version))
    ensures ReadBuffer(q) == ReadSymbol(GridOf(q, SizeOf(version)), version)
  {
    hide GridOf, BufferLen, ReadSymbol;
  }

  /** Whatever was encoded, at whatever version, level and mask the encoder chose, is what the buffer reads as. */
  lemma {:induction false} EncodingReads(cs: seq<Content>, ecl: Ecc, minVersion: nat, maxVersion: nat, mask: int, boostEcl: bool,
                      q: seq<bv8>, version: nat, level: Ecc, chosen: nat)
    requires ValidVersion(version) && Sized(q, SizeOf(version))
    requires IsEncoding(cs, ecl, minVersion, maxVersion, mask, boostEcl, GridOf(q, SizeOf(version)), version, level, chosen)
    requires forall i :: 0 <= i < |cs| ==> WellFormed(cs[i])
    ensures ReadBuffer(q) == Parsed(cs)
  {
    hide GridOf, BufferLen, ReadSymbol, Symbol, IsBestMask, WellFormed, IsLeastVersion, Fits, RawCodewords,
         ReadBuffer, Sized;
    ChosenLevelFits(cs, ecl, boostEcl, version, level);
    ReadSized(q, version);
    RoundTrip(cs, version, level, chosen);
  }

  // ---- encodeText

  const SIZE_MAX := 0xFFFF_FFFF

  function CalcSegmentBufferSize(mode: Mode, numChars: nat): nat
    requires mode == Eci ==> numChars == 0
  {
    var temp := CalcSegmentBitLength(mode, numChars);
    if temp == LENGTH_OVERFLOW then SIZE_MAX else (temp + 7) / 8
  }

  lemma PayloadInStream(c: Content, version: nat)
    requires ValidVersion(version)
    ensures |StreamBits([c], version)| >= |c.payload|
  {
    assert StreamBits([c], version) == SegmentBits(c, version) + StreamBits([c][1..], version);
  }

  /** A payload longer than the buffers, or than a C int16, fits no version. */
  lemma {:induction false} TooLong(c: Content, ecl: Ecc, minVersion: nat, maxVersion: nat)
    requires 1 <= minVersion <= maxVersion <= 40
    requires |c.payload| > INT16_MAX || |c.payload| > 8 * BufferLen(SizeOf(maxVersion))
    ensures NoVersionFits([c], ecl, minVersion, maxVersion)
  {
    hide StreamBits, SizeOf, BufferLen, CountFits, DataLen, LayoutOf, RawLen, RawBytes;
    forall v | minVersion <= v <= maxVersion ensures !Fits([c], v, ecl) {
      PayloadInStream(c, v);
      BufferHoldsCodewords(v);
      SameRawLen(v, ecl);
      SizesGrow(v, maxVersion);
    }
  }

  /** What the size checks of encodeText reject could not have been encoded anyway. */
  lemma {:induction false} RejectedText(text: string, ecl: Ecc, minVersion: nat, maxVersion: nat)
    requires IsCString(text) && text != "" && 1 <= minVersion <= maxVersion <= 40
    requires var len := CalcSegmentBitLength(TextContent(text).mode, |text|);
             len == LENGTH_OVERFLOW || len > 8 * BufferLen(SizeOf(maxVersion))
    ensures NoVersionFits(TextSegments(text), ecl, minVersion, maxVersion)
  {
    hide NoVersionFits, Pack, BitsOf, SizeOf, BufferLen, InCharset, IsDigit;
    var c := TextContent(text);
    if AllDigits(text) {
      PackLength(NUMERIC, DigitValues(text));
    } else if AllInCharset(text) {
      PackLength(ALPHANUMERIC, AlphanumericValues(text));
    }
    assert TextSegments(text) == [c];
    TooLong(c, ecl, minVersion, maxVersion);
  }

  /** Makes the segment of a non-empty text in tempBuffer, or reports that it is too long. */
  method MakeTextSegment(text: string, tempBuffer: array<bv8>, bufLen: nat) returns (ok: bool, seg: Segment)
    requires IsCString(text) && text != "" && bufLen <= tempBuffer.Length && bufLen < SIZE_MAX
    modifies tempBuffer
    ensures ok ==> Readable(seg) && seg.data == tempBuffer && ContentOf(seg) == TextContent(text)
    ensures ok ==> CalcSegmentBitLength(TextContent(text).mode, |text|) != LENGTH_OVERFLOW
    ensures !ok ==> var len := CalcSegmentBitLength(TextContent(text).mode, |text|);
                    len == LENGTH_OVERFLOW || len > 8 * bufLen
  {
    hide Pack, BitsOf, InCharset, IsDigit, ByteOfChar;
    seg := Segment(Byte, 0, tempBuffer, 0);
    var numeric := IsNumeric(text);
    if numeric {
      if CalcSegmentBufferSize(Numeric, |text|) > bufLen {
        return false, seg;
      }
      seg := MakeNumeric(text, tempBuffer);
      return true, seg;
    }
    var alphanumeric := IsAlphanumeric(text);
    if alphanumeric {
      if CalcSegmentBufferSize(Alphanumeric, |text|) > bufLen {
        return false, seg;
      }
      seg := MakeAlphanumeric(text, tempBuffer);
      return true, seg;
    }
    ok, seg := MakeByteSegment(text, tempBuffer, bufLen);
  }

  method MakeByteSegment(text: string, tempBuffer: array<bv8>, bufLen: nat) returns (ok: bool, seg: Segment)
    requires IsCString(text) && bufLen <= tempBuffer.Length
    modifies tempBuffer
    ensures ok ==> Readable(seg) && seg.data == tempBuffer && ContentOf(seg) == Content(Byte, |text|, BitsOf(ByteValues(text)))
    ensures ok <==> |text| <= bufLen && CalcSegmentBitLength(Byte, |text|) != LENGTH_OVERFLOW
  {
    hide BitsOf, ByteOfChar;
    seg := Segment(Byte, 0, tempBuffer, 0);
    if |text| > bufLen {
      return false, seg;
    }
    for i := 0 to |text|
      invariant forall k :: 0 <= k < i ==> tempBuffer[k] == ByteValues(text)[k]
    {
      tempBuffer[i] := ByteOfChar(text[i]);
    }
    assert ByteValues(text) <= tempBuffer[..];
    BitsOfPrefix(tempBuffer[..], ByteValues(text));
    var bitLength := CalcSegmentBitLength(Byte, |text|);
    ByteLength(|text|);
    if bitLength == LENGTH_OVERFLOW {
      return false, seg;
    }
    return true, Segment(Byte, |text|, tempBuffer, bitLength);
  }

  method EncodeText(text: string, tempBuffer: array<bv8>, qrcode: array<bv8>, ecl: Ecc, minVersion: nat, maxVersion: nat,
                    mask: int, boostEcl: bool)
    returns (ok: bool, ghost version: nat, ghost level: Ecc, ghost chosen: nat)
    requires IsCString(text) && 1 <= minVersion <= maxVersion <= 40 && -1 <= mask <= 7 && tempBuffer != qrcode
    requires tempBuffer.Length >= BufferLen(SizeOf(maxVersion)) && qrcode.Length >= BufferLen(SizeOf(maxVersion))
    modifies tempBuffer, qrcode
    ensures ok ==> ValidVersion(version) && Sized(qrcode[..], SizeOf(version))
    ensures ok ==> IsEncoding(TextSegments(text), ecl, minVersion, maxVersion, mask, boostEcl,
                              GridOf(qrcode[..], SizeOf(version)), version, level, chosen)
    ensures ok ==> ReadBuffer(qrcode[..]) == Parsed(TextSegments(text)) && TextReads(text)
    ensures !ok ==> qrcode[0] == 0 && NoVersionFits(TextSegments(text), ecl, minVersion, maxVersion)
    ensures text != "" ==> NoSegmentFits(text, ecl, minVersion, if ok then version - 1 else maxVersion)
  {
    hide BufferLen, SizeOf, IsEncoding, GridOf, NoVersionFits, ReadBuffer, TextContent, CalcSegmentBitLength,
         SegmentText, Sized, NoSegmentFits;
    version, level, chosen := 1, ecl, 0;
    var segs: seq<Segment> := [];
    ghost var cs := TextSegments(text);
    if |text| > 0 {
      BufferIsSmall(maxVersion);
      var made, seg := MakeTextSegment(text, tempBuffer, BufferLen(SizeOf(maxVersion)));
      if !made {
        RejectedText(text, ecl, minVersion, maxVersion);
        NoTextFits(text, ecl, minVersion, maxVersion);
        qrcode[0] := 0;
        return false, version, level, chosen;
      }
      segs := [seg];
    }
    assert ContentsOf(segs) == cs;
    ok, version, level, chosen := EncodeSegmentsAdvanced(segs, ecl, minVersion, maxVersion, mask, boostEcl, tempBuffer, qrcode);
    if ok && text != "" {
      NoSmallerFits(text, ecl, minVersion, maxVersion, mask, boostEcl, qrcode[..], version, level, chosen);
    } else if text != "" {
      NoTextFits(text, ecl, minVersion, maxVersion);
    }
    if ok {
      TextSegmentsRead(text);
      EncodingReads(cs, ecl, minVersion, maxVersion, mask, boostEcl, qrcode[..], version, level, chosen);
    }
  }

  lemma {:induction false} NoTextFits(text: string, ecl: Ecc, minVersion: nat, maxVersion: nat)
    requires IsCString(text) && text != "" && 1 <= minVersion <= maxVersion <= 40
    requires NoVersionFits(TextSegments(text), ecl, minVersion, maxVersion)
    ensures NoSegmentFits(text, ecl, minVersion, maxVersion)
  {
    hide TextContent, Fits, NoSegmentFits;
    NoneFits(text, ecl, minVersion, maxVersion);
  }

  lemma {:induction false} NoSmallerFits(text: string, ecl: Ecc, minVersion: nat, maxVersion: nat, mask: int, boostEcl: bool,
                                         q: seq<bv8>, version: nat, level: Ecc, chosen: nat)
    requires IsCString(text) && text != "" && ValidVersion(version) && Sized(q, SizeOf(version))
    requires IsEncoding(TextSegments(text), ecl, minVersion, maxVersion, mask, boostEcl, GridOf(q, SizeOf(version)),
                        version, level, chosen)
    ensures NoSegmentFits(text, ecl, minVersion, version - 1)
  {
    hide TextContent, Fits, NoSegmentFits, GridOf, Symbol, IsBestMask, RawCodewords, Sized, IsChosenLevel;
    NoneFits(text, ecl, minVersion, version - 1);
  }

  lemma BufferIsSmall(version: nat)
    requires ValidVersion(version)
    ensures BufferLen(SizeOf(version)) < SIZE_MAX
  {
    BufferGrows(SizeOf(version), 177);
  }

  /** The segments of the text read back as the text. */
  ghost predicate TextReads(text: string)
    requires IsCString(text)
  {
    var cs := TextSegments(text);
    (forall i :: 0 <= i < |cs| ==> WellFormed(cs[i]) && cs[i].mode != Kanji) && SegmentsText(cs) == text
  }

  lemma TextSegmentsRead(text: string)
    requires IsCString(text)
    requires text != "" ==> CalcSegmentBitLength(TextContent(text).mode, |text|) != LENGTH_OVERFLOW
    ensures TextReads(text)
  {
    hide TextContent, SegmentText, WellFormed;
    if text != "" {
      TextContentReads(text);
      var c := TextContent(text);
      assert [c][1..] == [];
      assert SegmentsText([c]) == SegmentText(c) + SegmentsText([]);
    }
  }
}
