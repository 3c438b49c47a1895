/** Segments: making them from text, their bit stream, and reading the stream back. */
module Segments {
  import opened BitBuffer
  import opened Packing

  datatype Mode = Numeric | Alphanumeric | Byte | Kanji | Eci

  /** The C struct: `data` holds the payload, most significant bit first, in its first `bitLength` bits. */
  datatype Segment = Segment(mode: Mode, numChars: nat, data: array<bv8>, bitLength: nat)

  /** The value of a segment, apart from where its payload is stored. */
  datatype Content = Content(mode: Mode, numChars: nat, payload: seq<bool>)

  const INT16_MAX := 32767
  const LENGTH_OVERFLOW := -1
  const VERSION_MIN := 1
  const VERSION_MAX := 40

  ghost function ContentOf(seg: Segment): Content
    requires seg.bitLength <= 8 * seg.data.Length
    reads seg.data
  {
    Content(seg.mode, seg.numChars, BitsOf(seg.data[..])[..seg.bitLength])
  }

  // ---- Lengths

  /** The payload bits of numChars characters; an ECI segment has no characters and is counted as its longest form. */
  function CalcSegmentBitLength(mode: Mode, numChars: nat): (len: int)
    requires mode == Eci ==> numChars == 0
    ensures len == LENGTH_OVERFLOW || 0 <= len <= INT16_MAX
  {
    if numChars > INT16_MAX then LENGTH_OVERFLOW
    else
      var result :=
        match mode
        case Numeric => (numChars * 10 + 2) / 3
        case Alphanumeric => (numChars * 11 + 1) / 2
        case Byte => numChars * 8
        case Kanji => numChars * 13
        case Eci => 3 * 8;
      if result > INT16_MAX then LENGTH_OVERFLOW else result
  }

  function NumCharCountBits(mode: Mode, version: nat): (n: nat)
    requires VERSION_MIN <= version <= VERSION_MAX
    ensures n <= 16
  {
    var i := (version + 7) / 17;
    match mode
    case Numeric => [10, 12, 14][i]
    case Alphanumeric => [9, 11, 13][i]
    case Byte => [8, 16, 16][i]
    case Kanji => [8, 10, 12][i]
    case Eci => 0
  }

  /** The mode indicator that the enum constant stands for. */
  function Indicator(mode: Mode): (v: nat)
    ensures ShiftRight(v, 4) == 0 && v != 0
  {
    match mode
    case Numeric => 1
    case Alphanumeric => 2
    case Byte => 4
    case Kanji => 8
    case Eci => 7
  }

  // ---- The bit stream

  function SegmentBits(c: Content, version: nat): seq<bool>
    requires VERSION_MIN <= version <= VERSION_MAX
  {
    ToBits(Indicator(c.mode), 4) + ToBits(c.numChars, NumCharCountBits(c.mode, version)) + c.payload
  }

  function StreamBits(cs: seq<Content>, version: nat): seq<bool>
    requires VERSION_MIN <= version <= VERSION_MAX
  {
    if cs == [] then [] else SegmentBits(cs[0], version) + StreamBits(cs[1..], version)
  }

  lemma {:induction false} StreamBitsSnoc(cs: seq<Content>, c: Content, version: nat)
    requires VERSION_MIN <= version <= VERSION_MAX
    ensures StreamBits(cs + [c], version) == StreamBits(cs, version) + SegmentBits(c, version)
  {
    hide SegmentBits;
    if cs == [] {
      assert [c][1..] == [];
      assert StreamBits([c], version) == SegmentBits(c, version) + [];
    } else {
      StreamBitsSnoc(cs[1..], c, version);
      assert (cs + [c])[1..] == cs[1..] + [c];
    }
  }

  /** The character count fits its field. */
  predicate CountFits(c: Content, version: nat)
    requires VERSION_MIN <= version <= VERSION_MAX
  {
    ShiftRight(c.numChars, NumCharCountBits(c.mode, version)) == 0
  }

  // ---- Reading a stream

  datatype Parsed = Parsed(segments: seq<Content>) | Malformed

  function ModeOf(indicator: nat): (mode: Mode)
    requires indicator in {1, 2, 4, 8}
    ensures mode != Eci && Indicator(mode) == indicator
  {
    if indicator == 1 then Numeric else if indicator == 2 then Alphanumeric else if indicator == 4 then Byte else Kanji
  }

  /** Reads mode, count and payload until the terminator or until fewer than four bits are left. */
  function Parse(bits: seq<bool>, version: nat): Parsed
    requires VERSION_MIN <= version <= VERSION_MAX
    decreases |bits|
  {
    if |bits| < 4 || FromBits(bits[..4]) == 0 then Parsed([])
    else if FromBits(bits[..4]) !in {1, 2, 4, 8} then Malformed
    else
      var mode := ModeOf(FromBits(bits[..4]));
      var start := 4 + NumCharCountBits(mode, version);
      if |bits| < start then Malformed
      else
        var numChars := FromBits(bits[4..start]);
        var len := CalcSegmentBitLength(mode, numChars);
        if len == LENGTH_OVERFLOW || |bits| < start + len then Malformed
        else
          match Parse(bits[start + len..], version)
          case Malformed => Malformed
          case Parsed(rest) => Parsed([Content(mode, numChars, bits[start..start + len])] + rest)
  }

  /** A segment of a mode with a fixed payload length, as the make functions build it. */
  predicate WellFormed(c: Content) {
    c.mode != Eci && |c.payload| == CalcSegmentBitLength(c.mode, c.numChars)
  }

  lemma ParseOne(c: Content, rest: seq<bool>, version: nat)
    requires VERSION_MIN <= version <= VERSION_MAX
    requires WellFormed(c) && CountFits(c, version)
    ensures Parse(SegmentBits(c, version) + rest, version)
         == match Parse(rest, version) case Malformed => Malformed case Parsed(cs) => Parsed([c] + cs)
  {
    var cc := NumCharCountBits(c.mode, version);
    FromToBits(Indicator(c.mode), 4);
    FromToBits(c.numChars, cc);
    hide ToBits, FromBits, ShiftRight, NumCharCountBits, CalcSegmentBitLength;
    var bits := SegmentBits(c, version) + rest;
    var start := 4 + cc;
    assert bits[..4] == ToBits(Indicator(c.mode), 4);
    assert bits[4..start] == ToBits(c.numChars, cc);
    assert bits[start..start + |c.payload|] == c.payload;
    assert bits[start + |c.payload|..] == rest;
    assert Indicator(c.mode) in {1, 2, 4, 8};
    assert ModeOf(Indicator(c.mode)) == c.mode;
  }

  /** No more segments: the reader stops at four zero bits or at the end. */
  predicate Terminated(tail: seq<bool>) {
    |tail| < 4 || tail[..4] == [false, false, false, false]
  }

  lemma ParseTail(tail: seq<bool>, version: nat)
    requires VERSION_MIN <= version <= VERSION_MAX && Terminated(tail)
    ensures Parse(tail, version) == Parsed([])
  {
    if |tail| >= 4 {
      var z := [false, false, false, false];
      assert z[..3] == [false, false, false] && z[..3][..2] == [false, false] && z[..3][..2][..1] == [false];
      assert FromBits([false]) == 0 && FromBits([false, false]) == 0 && FromBits([false, false, false]) == 0;
    }
  }

  /** Round trip: whatever terminated tail follows, reading the stream yields exactly the segments written. */
  lemma {:induction false} ParseStream(cs: seq<Content>, tail: seq<bool>, version: nat)
    requires VERSION_MIN <= version <= VERSION_MAX && Terminated(tail)
    requires forall i :: 0 <= i < |cs| ==> WellFormed(cs[i]) && CountFits(cs[i], version)
    ensures Parse(StreamBits(cs, version) + tail, version) == Parsed(cs)
  {
    hide Parse, SegmentBits, WellFormed, CountFits, Terminated;
    if cs == [] {
      assert StreamBits(cs, version) + tail == tail;
      ParseTail(tail, version);
    } else {
      ParseStream(cs[1..], tail, version);
      var rest := StreamBits(cs[1..], version) + tail;
      assert StreamBits(cs, version) + tail == SegmentBits(cs[0], version) + rest;
      ParseOne(cs[0], rest, version);
    }
  }
}
