/** The loops that build segments from text and add up their lengths. */
module SegmentMaking {
  import opened BitBuffer
  import opened Packing
  import opened Segments

  method IsNumeric(text: string) returns (b: bool)
    ensures b <==> forall i :: 0 <= i < |text| ==> IsDigit(text[i])
  {
    for i := 0 to |text|
      invariant forall k :: 0 <= k < i ==> IsDigit(text[k])
    {
      if text[i] < '0' || text[i] > '9' {
        return false;
      }
    }
    return true;
  }

  method IsAlphanumeric(text: string) returns (b: bool)
    ensures b <==> forall i :: 0 <= i < |text| ==> InCharset(text[i])
  {
    for i := 0 to |text|
      invariant forall k :: 0 <= k < i ==> InCharset(text[k])
    {
      if !InCharset(text[i]) {
        return false;
      }
    }
    return true;
  }

  // ---- The accumulator loop shared in shape by makeNumeric and makeAlphanumeric

  lemma AccumulatorStep(s: Scheme, vals: seq<nat>, m: nat, i: nat)
    requires m <= i < |vals|
    ensures BaseValue(s.base, vals[m..i + 1]) == BaseValue(s.base, vals[m..i]) * s.base + vals[i]
  {
    assert vals[m..i + 1][..i - m] == vals[m..i];
  }

  lemma PackNextGroup(s: Scheme, vals: seq<nat>, m: nat, i: nat)
    requires Valid(s) && m < i <= |vals| && i - m == LastGroup(s, i)
    ensures Pack(s, vals[..i]) == Pack(s, vals[..m]) + ToBits(BaseValue(s.base, vals[m..i]), FieldWidth(s, i - m))
  {
    hide BaseValue, ToBits, FieldWidth, LastGroup;
    assert vals[..i][..m] == vals[..m] && vals[..i][m..] == vals[m..i];
  }

  lemma PackFits(s: Scheme, vals: seq<nat>, i: nat)
    requires Valid(s) && i <= |vals|
    ensures |Pack(s, vals[..i])| == PackedLength(s, i) <= PackedLength(s, |vals|)
  {
    PackLength(s, vals[..i]);
  }

  /** Appends the group of symbols vals[m..i], which completes the packing of vals[..i]. */
  method AppendGroup(s: Scheme, accumData: nat, numBits: nat, buf: array<bv8>, bitLength: nat,
                     ghost cap: nat, ghost vals: seq<nat>, ghost m: nat, ghost i: nat) returns (newLength: nat)
    requires Valid(s) && AreSymbols(s, vals) && m < i <= |vals| && i - m == LastGroup(s, i)
    requires accumData == BaseValue(s.base, vals[m..i]) && numBits == FieldWidth(s, i - m)
    requires cap <= buf.Length && PackedLength(s, |vals|) <= 8 * cap
    requires Holds(buf[..cap], Pack(s, vals[..m])) && bitLength == |Pack(s, vals[..m])|
    modifies buf
    ensures Holds(buf[..cap], Pack(s, vals[..i])) && newLength == |Pack(s, vals[..i])|
    ensures forall k :: cap <= k < buf.Length ==> buf[k] == old(buf[k])
  {
    hide Holds, Pack, BaseValue, ToBits, LastGroup;
    NextGroup(s, vals, m, i);
    newLength := AppendBitsToBuffer(accumData, numBits, buf, bitLength, cap, Pack(s, vals[..m]));
  }

  method MakeNumeric(digits: string, buf: array<bv8>) returns (seg: Segment)
    requires forall i :: 0 <= i < |digits| ==> IsDigit(digits[i])
    requires CalcSegmentBitLength(Numeric, |digits|) != LENGTH_OVERFLOW
    requires CalcSegmentBitLength(Numeric, |digits|) <= 8 * buf.Length
    modifies buf
    ensures seg == Segment(Numeric, |digits|, buf, CalcSegmentBitLength(Numeric, |digits|))
    ensures ContentOf(seg).payload == Pack(NUMERIC, DigitValues(digits))
    ensures forall k :: (seg.bitLength + 7) / 8 <= k < buf.Length ==> buf[k] == old(buf[k])
  {
    hide Holds, Pack, BaseValue, BitsOf, IsDigit, CalcSegmentBitLength, PackedLength;
    var bitLen := CalcSegmentBitLength(Numeric, |digits|);
    var cap := (bitLen + 7) / 8;
    ghost var vals := DigitValues(digits);
    PackFits(NUMERIC, vals, |digits|);
    assert PackedLength(NUMERIC, |digits|) == bitLen by { CalcMatches(|digits|); }
    ClearBuffer(buf, cap);
    var bitLength := 0;
    var accumData: nat, accumCount := 0, 0;
    EmptyStart(NUMERIC, vals);
    for i := 0 to |digits|
      invariant accumCount == i % 3
      invariant accumData == BaseValue(10, vals[i - accumCount..i])
      invariant bitLength == |Pack(NUMERIC, vals[..i - accumCount])|
      invariant Holds(buf[..cap], Pack(NUMERIC, vals[..i - accumCount]))
      invariant forall k :: cap <= k < buf.Length ==> buf[k] == old(buf[k])
    {
      AccumulatorStep(NUMERIC, vals, i - accumCount, i);
      accumData := accumData * 10 + DigitValue(digits[i]);
      accumCount := accumCount + 1;
      if accumCount == 3 {
        bitLength := AppendGroup(NUMERIC, accumData, 10, buf, bitLength, cap, vals, i - 2, i + 1);
        accumData := 0;
        accumCount := 0;
      }
    }
    assert vals[..|digits|] == vals;
    if accumCount > 0 {
      bitLength := AppendGroup(NUMERIC, accumData, accumCount * 3 + 1, buf, bitLength, cap, vals,
                               |digits| - accumCount, |digits|);
    }
    HoldsPrefix(buf[..], cap, Pack(NUMERIC, vals));
    seg := Segment(Numeric, |digits|, buf, bitLength);
  }

  lemma CalcMatches(n: nat)
    ensures CalcSegmentBitLength(Numeric, n) != LENGTH_OVERFLOW ==> CalcSegmentBitLength(Numeric, n) == PackedLength(NUMERIC, n)
    ensures (CalcSegmentBitLength(Alphanumeric, n) != LENGTH_OVERFLOW
             ==> CalcSegmentBitLength(Alphanumeric, n) == PackedLength(ALPHANUMERIC, n))
  {
  }

  lemma EmptyStart(s: Scheme, vals: seq<nat>)
    requires Valid(s)
    ensures Pack(s, vals[..0]) == [] && BaseValue(s.base, []) == 0
    ensures forall i :: 0 <= i <= |vals| ==> vals[i..i] == []
  {
  }

  /** Everything an append of one group needs: its width, that the value fits, and the packing it completes. */
  lemma NextGroup(s: Scheme, vals: seq<nat>, m: nat, i: nat)
    requires Valid(s) && AreSymbols(s, vals) && m < i <= |vals| && i - m == LastGroup(s, i)
    ensures ShiftRight(BaseValue(s.base, vals[m..i]), FieldWidth(s, i - m)) == 0 && FieldWidth(s, i - m) <= 16
    ensures FieldWidth(s, i - m) == if s == NUMERIC then 3 * (i - m) + 1 else 5 * (i - m) + 1
    ensures Pack(s, vals[..i]) == Pack(s, vals[..m]) + ToBits(BaseValue(s.base, vals[m..i]), FieldWidth(s, i - m))
    ensures |Pack(s, vals[..m])| + FieldWidth(s, i - m) <= PackedLength(s, |vals|)
  {
    hide BaseValue, Pack, PackedLength, ToBits, ShiftRight, LastGroup;
    GroupFits(s, vals[m..i]);
    PackNextGroup(s, vals, m, i);
    PackFits(s, vals, i);
  }

  method MakeAlphanumeric(text: string, buf: array<bv8>) returns (seg: Segment)
    requires forall i :: 0 <= i < |text| ==> InCharset(text[i])
    requires CalcSegmentBitLength(Alphanumeric, |text|) != LENGTH_OVERFLOW
    requires CalcSegmentBitLength(Alphanumeric, |text|) <= 8 * buf.Length
    modifies buf
    ensures seg == Segment(Alphanumeric, |text|, buf, CalcSegmentBitLength(Alphanumeric, |text|))
    ensures ContentOf(seg).payload == Pack(ALPHANUMERIC, AlphanumericValues(text))
    ensures forall k :: (seg.bitLength + 7) / 8 <= k < buf.Length ==> buf[k] == old(buf[k])
  {
    hide Holds, Pack, BaseValue, BitsOf, AlphanumericValue, InCharset, CalcSegmentBitLength, PackedLength;
    var bitLen := CalcSegmentBitLength(Alphanumeric, |text|);
    var cap := (bitLen + 7) / 8;
    ghost var vals := AlphanumericValues(text);
    PackFits(ALPHANUMERIC, vals, |text|);
    assert PackedLength(ALPHANUMERIC, |text|) == bitLen by { CalcMatches(|text|); }
    ClearBuffer(buf, cap);
    var bitLength := 0;
    var accumData: nat, accumCount := 0, 0;
    EmptyStart(ALPHANUMERIC, vals);
    for i := 0 to |text|
      invariant accumCount == i % 2
      invariant accumData == BaseValue(45, vals[i - accumCount..i])
      invariant bitLength == |Pack(ALPHANUMERIC, vals[..i - accumCount])|
      invariant Holds(buf[..cap], Pack(ALPHANUMERIC, vals[..i - accumCount]))
      invariant forall k :: cap <= k < buf.Length ==> buf[k] == old(buf[k])
    {
      AccumulatorStep(ALPHANUMERIC, vals, i - accumCount, i);
      accumData := accumData * 45 + AlphanumericValue(text[i]);
      accumCount := accumCount + 1;
      if accumCount == 2 {
        bitLength := AppendGroup(ALPHANUMERIC, accumData, 11, buf, bitLength, cap, vals, i - 1, i + 1);
        accumData := 0;
        accumCount := 0;
      }
    }
    assert vals[..|text|] == vals;
    if accumCount > 0 {
      assert accumCount == 1;
      bitLength := AppendGroup(ALPHANUMERIC, accumData, 6, buf, bitLength, cap, vals, |text| - accumCount, |text|);
    }
    HoldsPrefix(buf[..], cap, Pack(ALPHANUMERIC, vals));
    seg := Segment(Alphanumeric, |text|, buf, bitLength);
  }

  method MakeBytes(data: seq<bv8>, buf: array<bv8>) returns (seg: Segment)
    requires CalcSegmentBitLength(Byte, |data|) != LENGTH_OVERFLOW && |data| <= buf.Length
    modifies buf
    ensures seg == Segment(Byte, |data|, buf, CalcSegmentBitLength(Byte, |data|))
    ensures ContentOf(seg).payload == BitsOf(data)
    ensures forall k :: |data| <= k < buf.Length ==> buf[k] == old(buf[k])
  {
    for i := 0 to |data|
      invariant forall k :: 0 <= k < i ==> buf[k] == data[k]
      invariant forall k :: |data| <= k < buf.Length ==> buf[k] == old(buf[k])
    {
      buf[i] := data[i];
    }
    seg := Segment(Byte, |data|, buf, CalcSegmentBitLength(Byte, |data|));
    BitsOfPrefix(buf[..], data);
  }

  lemma BitsOfPrefix(s: seq<bv8>, t: seq<bv8>)
    requires t <= s
    ensures BitsOf(s)[..8 * |t|] == BitsOf(t)
  {
    hide BitAt;
    forall k | 0 <= k < 8 * |t| ensures BitsOf(s)[k] == BitsOf(t)[k] {
      assert BitAt(s, k) == BitAt(t, k) by { BitAtPrefix(s, t, k); }
    }
  }

  lemma BitAtPrefix(s: seq<bv8>, t: seq<bv8>, k: nat)
    requires t <= s && k < 8 * |t|
    ensures BitAt(s, k) == BitAt(t, k)
  {
  }

  // ---- The total length

  ghost predicate Readable(seg: Segment) {
    seg.bitLength <= 8 * seg.data.Length && seg.bitLength <= INT16_MAX && seg.numChars <= INT16_MAX
  }

  ghost function ContentsOf(segs: seq<Segment>): (cs: seq<Content>)
    requires forall i :: 0 <= i < |segs| ==> Readable(segs[i])
    reads set i | 0 <= i < |segs| :: segs[i].data
    ensures |cs| == |segs|
  {
    seq(|segs|, i requires 0 <= i < |segs| && Readable(segs[i])
                  reads set k | 0 <= k < |segs| :: segs[k].data
                => ContentOf(segs[i]))
  }

  /** The length of the bit stream, or LENGTH_OVERFLOW when a count does not fit its field or the length its type. */
  function TotalBits(cs: seq<Content>, version: nat): int
    requires VERSION_MIN <= version <= VERSION_MAX
  {
    if (forall i :: 0 <= i < |cs| ==> CountFits(cs[i], version)) && |StreamBits(cs, version)| <= INT16_MAX
    then |StreamBits(cs, version)|
    else LENGTH_OVERFLOW
  }

  lemma {:induction false} StreamPrefix(cs: seq<Content>, n: nat, version: nat)
    requires VERSION_MIN <= version <= VERSION_MAX && n <= |cs|
    ensures |StreamBits(cs[..n], version)| <= |StreamBits(cs, version)|
    ensures n < |cs| ==> (|StreamBits(cs[..n + 1], version)| == |StreamBits(cs[..n], version)|
                           + 4 + NumCharCountBits(cs[n].mode, version) + |cs[n].payload|)
    decreases |cs| - n
  {
    hide NumCharCountBits;
    if n == |cs| {
      assert cs[..n] == cs;
    } else {
      StreamPrefix(cs, n + 1, version);
      StreamBitsSnoc(cs[..n], cs[n], version);
      assert cs[..n + 1] == cs[..n] + [cs[n]];
    }
  }

  method GetTotalBits(segs: seq<Segment>, version: nat) returns (total: int)
    requires VERSION_MIN <= version <= VERSION_MAX
    requires forall i :: 0 <= i < |segs| ==> Readable(segs[i])
    ensures total == TotalBits(ContentsOf(segs), version)
  {
    hide StreamBits, NumCharCountBits, Pow2, ShiftRight, BitsOf;
    ghost var cs := ContentsOf(segs);
    total := 0;
    EmptyStream(cs, version);
    for i := 0 to |segs|
      invariant total == |StreamBits(cs[..i], version)| <= INT16_MAX
      invariant forall k :: 0 <= k < i ==> CountFits(cs[k], version)
    {
      var ccbits := NumCharCountBits(segs[i].mode, version);
      FitsInBits(segs[i].numChars, ccbits);
      StreamPrefix(cs, i, version);
      StreamPrefix(cs, i + 1, version);
      if segs[i].numChars >= Pow2(ccbits) {
        assert !CountFits(cs[i], version);
        return LENGTH_OVERFLOW;
      }
      total := total + (4 + ccbits + segs[i].bitLength);
      if total > INT16_MAX {
        return LENGTH_OVERFLOW;
      }
    }
    assert cs[..|segs|] == cs;
  }

  lemma EmptyStream(cs: seq<Content>, version: nat)
    requires VERSION_MIN <= version <= VERSION_MAX
    ensures StreamBits(cs[..0], version) == []
  {
  }
}
