/** Splitting the data into blocks and interleaving data and error correction codewords (ISO/IEC 18004, section 7.6). */
module Interleaving {
  import opened Arithmetic
  import opened ReedSolomon
  import opened Versions

  /** Block structure: `numShort` blocks of `shortLen` data bytes, the others one byte longer; `ecc` more bytes each. */
  datatype Layout = Layout(blocks: nat, shortLen: nat, numShort: nat, ecc: nat)

  ghost predicate Valid(l: Layout) {
    1 <= l.numShort <= l.blocks && 1 <= l.ecc <= DEGREE_MAX
  }

  function BlockLen(l: Layout, i: nat): nat {
    l.shortLen + (if i < l.numShort then 0 else 1)
  }

  /** Where block i starts in the data. */
  function Offset(l: Layout, i: nat): nat {
    i * l.shortLen + (if i < l.numShort then 0 else i - l.numShort)
  }

  function DataLen(l: Layout): nat {
    Offset(l, l.blocks)
  }

  function RawLen(l: Layout): (n: nat)
    ensures n >= DataLen(l)
  {
    NonNegativeProduct(l.ecc, l.blocks);
    DataLen(l) + l.ecc * l.blocks
  }

  lemma OffsetStep(l: Layout, i: nat)
    ensures Offset(l, i + 1) == Offset(l, i) + BlockLen(l, i)
  {
    assert (i + 1) * l.shortLen == i * l.shortLen + l.shortLen;
  }

  lemma {:induction false} OffsetMonotone(l: Layout, i: nat, n: nat)
    requires i <= n
    ensures Offset(l, i) <= Offset(l, n)
    decreases n - i
  {
    hide Offset;
    if i < n {
      OffsetStep(l, i);
      OffsetMonotone(l, i + 1, n);
    }
  }

  // ---- Slots and result indices

  /** Byte `pos` of the data or of the error correction bytes of a block. */
  datatype Slot = DataSlot(block: nat, pos: nat) | EccSlot(block: nat, pos: nat)

  ghost predicate ValidSlot(l: Layout, s: Slot) {
    s.block < l.blocks && s.pos < (if s.DataSlot? then BlockLen(l, s.block) else l.ecc)
  }

  /** The result index that the copying loops compute for a slot. */
  function IndexOf(l: Layout, s: Slot): int {
    match s
    case DataSlot(i, j) => if j < l.shortLen then j * l.blocks + i else l.shortLen * l.blocks + i - l.numShort
    case EccSlot(i, j) => DataLen(l) + j * l.blocks + i
  }

  function SlotAt(l: Layout, r: nat): Slot
    requires l.blocks > 0 && l.numShort <= l.blocks
  {
    if r < l.shortLen * l.blocks then
      NatQuotient(r, l.blocks);
      DataSlot(r % l.blocks, r / l.blocks)
    else if r < DataLen(l) then DataSlot(r - l.shortLen * l.blocks + l.numShort, l.shortLen)
    else
      NatQuotient(r - DataLen(l), l.blocks);
      EccSlot((r - DataLen(l)) % l.blocks, (r - DataLen(l)) / l.blocks)
  }

  lemma DataLenSplit(l: Layout)
    requires Valid(l)
    ensures DataLen(l) == l.shortLen * l.blocks + (l.blocks - l.numShort)
  {
  }

  /** Every result index belongs to a slot of a block ... */
  lemma SlotOfIndex(l: Layout, r: nat)
    requires Valid(l) && r < RawLen(l)
    ensures ValidSlot(l, SlotAt(l, r)) && IndexOf(l, SlotAt(l, r)) == r
  {
    DataLenSplit(l);
    if r < l.shortLen * l.blocks {
      DivisionBound(r, l.blocks, l.shortLen);
    } else if r >= DataLen(l) {
      DivisionBound(r - DataLen(l), l.blocks, l.ecc);
    }
  }

  lemma IndexOfDataSlot(l: Layout, i: nat, j: nat)
    requires Valid(l) && ValidSlot(l, DataSlot(i, j))
    ensures 0 <= IndexOf(l, DataSlot(i, j)) < DataLen(l) && SlotAt(l, IndexOf(l, DataSlot(i, j))) == DataSlot(i, j)
  {
    DataLenSplit(l);
    hide DataLen;
    if j < l.shortLen {
      ProductOrder(j, l.shortLen, l.blocks);
      DivModUnique(j * l.blocks + i, l.blocks, j, i);
    } else {
      assert j == l.shortLen && i >= l.numShort;
    }
  }

  lemma IndexOfEccSlot(l: Layout, i: nat, j: nat)
    requires Valid(l) && ValidSlot(l, EccSlot(i, j))
    ensures DataLen(l) <= IndexOf(l, EccSlot(i, j)) < RawLen(l) && SlotAt(l, IndexOf(l, EccSlot(i, j))) == EccSlot(i, j)
  {
    DataLenSplit(l);
    hide DataLen;
    ProductOrder(j, l.ecc, l.blocks);
    NonNegativeProduct(j, l.blocks);
    DivModUnique(j * l.blocks + i, l.blocks, j, i);
  }

  /** ... and every slot to exactly one index: interleaving is a bijection. */
  lemma IndexOfSlot(l: Layout, s: Slot)
    requires Valid(l) && ValidSlot(l, s)
    ensures 0 <= IndexOf(l, s) < RawLen(l) && SlotAt(l, IndexOf(l, s)) == s
  {
    hide IndexOf, SlotAt, DataLen;
    NonNegativeProduct(l.ecc, l.blocks);
    match s {
      case DataSlot(i, j) => IndexOfDataSlot(l, i, j);
      case EccSlot(i, j) => IndexOfEccSlot(l, i, j);
    }
  }

  /** The shorter blocks come first. */
  lemma ShortBlocksFirst(l: Layout, i: nat, j: nat)
    requires i <= j
    ensures l.shortLen <= BlockLen(l, i) <= BlockLen(l, j) <= l.shortLen + 1
    ensures BlockLen(l, i) == l.shortLen <==> i < l.numShort
  {
  }

  /** All data bytes come before all error correction bytes; both come byte by byte, and of equal bytes block by block. */
  lemma SlotsInOrder(l: Layout, s: Slot, t: Slot)
    requires Valid(l) && ValidSlot(l, s) && ValidSlot(l, t)
    ensures IndexOf(l, s) < IndexOf(l, t) <==>
              if s.DataSlot? == t.DataSlot? then s.pos < t.pos || (s.pos == t.pos && s.block < t.block) else s.DataSlot?
  {
    SlotBounds(l, s);
    SlotBounds(l, t);
    hide ValidSlot, DataLen;
    if s.DataSlot? == t.DataSlot? {
      if s.pos < t.pos {
        ProductOrder(s.pos + 1, t.pos, l.blocks);
      } else if t.pos < s.pos {
        ProductOrder(t.pos + 1, s.pos, l.blocks);
      }
    }
  }

  /** The index of a byte lies in the group of its position. */
  lemma SlotBounds(l: Layout, s: Slot)
    requires Valid(l) && ValidSlot(l, s)
    ensures s.block < l.blocks && (s.DataSlot? ==> s.pos <= l.shortLen && (s.pos == l.shortLen ==> s.block >= l.numShort))
    ensures if s.DataSlot? then 0 <= IndexOf(l, s) < DataLen(l) else DataLen(l) <= IndexOf(l, s)
    ensures (s.pos + 1) * l.blocks == s.pos * l.blocks + l.blocks
  {
    IndexOfSlot(l, s);
    hide DataLen, IndexOf;
    match s
    case DataSlot(i, j) => IndexOfDataSlot(l, i, j);
    case EccSlot(i, j) => IndexOfEccSlot(l, i, j);
  }

  // ---- The interleaved sequence and its inverse

  function Block(l: Layout, data: seq<bv8>, i: nat): (b: seq<bv8>)
    requires Valid(l) && |data| == DataLen(l) && i < l.blocks
    ensures |b| == BlockLen(l, i)
  {
    OffsetStep(l, i);
    OffsetMonotone(l, i + 1, l.blocks);
    data[Offset(l, i)..Offset(l, i) + BlockLen(l, i)]
  }

  function SlotValue(l: Layout, data: seq<bv8>, s: Slot): bv8
    requires Valid(l) && |data| == DataLen(l) && ValidSlot(l, s)
  {
    match s
    case DataSlot(i, j) => Block(l, data, i)[j]
    case EccSlot(i, j) => Remainder(Block(l, data, i), Divisor(l.ecc))[j]
  }

  function Interleaved(l: Layout, data: seq<bv8>): (result: seq<bv8>)
    requires Valid(l) && |data| == DataLen(l)
    ensures |result| == RawLen(l)
  {
    seq(RawLen(l), r requires 0 <= r < RawLen(l) => SlotOfIndex(l, r); SlotValue(l, data, SlotAt(l, r)))
  }

  /** Block i of a received sequence: its data followed by its error correction bytes. */
  function ReadBlock(l: Layout, result: seq<bv8>, i: nat): (b: seq<bv8>)
    requires Valid(l) && |result| == RawLen(l) && i < l.blocks
    ensures |b| == BlockLen(l, i) + l.ecc
  {
    seq(BlockLen(l, i), j requires 0 <= j < BlockLen(l, i) => IndexOfSlot(l, DataSlot(i, j)); result[IndexOf(l, DataSlot(i, j))])
    + seq(l.ecc, j requires 0 <= j < l.ecc => IndexOfSlot(l, EccSlot(i, j)); result[IndexOf(l, EccSlot(i, j))])
  }

  /** The data bytes of the first n blocks of a received sequence. */
  function ReadData(l: Layout, result: seq<bv8>, n: nat): seq<bv8>
    requires Valid(l) && |result| == RawLen(l) && n <= l.blocks
  {
    if n == 0 then [] else ReadData(l, result, n - 1) + ReadBlock(l, result, n - 1)[..BlockLen(l, n - 1)]
  }

  /** Each block of the interleaved sequence is a Reed-Solomon codeword of its data. */
  lemma ReadBlockInterleaved(l: Layout, data: seq<bv8>, i: nat)
    requires Valid(l) && |data| == DataLen(l) && i < l.blocks
    ensures ReadBlock(l, Interleaved(l, data), i) == Codeword(Block(l, data, i), l.ecc)
  {
    hide Remainder, Divisor, IndexOf, SlotAt, Block, BlockLen, RawLen;
    var result := Interleaved(l, data);
    var b, e := Block(l, data, i), Remainder(Block(l, data, i), Divisor(l.ecc));
    forall j: nat | j < BlockLen(l, i) ensures ReadBlock(l, result, i)[j] == b[j] {
      IndexOfSlot(l, DataSlot(i, j));
    }
    forall j: nat | j < l.ecc ensures ReadBlock(l, result, i)[BlockLen(l, i) + j] == e[j] {
      IndexOfSlot(l, EccSlot(i, j));
    }
    assert ReadBlock(l, result, i)[..BlockLen(l, i)] == b;
    assert ReadBlock(l, result, i)[BlockLen(l, i)..] == e;
  }

  lemma {:induction false} ReadDataPrefix(l: Layout, data: seq<bv8>, n: nat)
    requires Valid(l) && |data| == DataLen(l) && n <= l.blocks
    ensures Offset(l, n) <= |data| && ReadData(l, Interleaved(l, data), n) == data[..Offset(l, n)]
  {
    hide Remainder, Divisor, Interleaved, ReadBlock;
    if n > 0 {
      ReadDataPrefix(l, data, n - 1);
      ReadBlockInterleaved(l, data, n - 1);
      OffsetStep(l, n - 1);
      assert ReadBlock(l, Interleaved(l, data), n - 1)[..BlockLen(l, n - 1)] == Block(l, data, n - 1);
    }
    OffsetMonotone(l, n, l.blocks);
  }

  /** De-interleaving recovers all the data, in order. */
  lemma DeinterleaveData(l: Layout, data: seq<bv8>)
    requires Valid(l) && |data| == DataLen(l)
    ensures ReadData(l, Interleaved(l, data), l.blocks) == data
  {
    ReadDataPrefix(l, data, l.blocks);
  }

  // ---- The tables' layouts

  function LayoutOf(version: nat, ecl: Ecc): (l: Layout)
    requires ValidVersion(version)
    ensures Valid(l) && RawLen(l) == GetNumRawDataModules(version) / 8 && DataLen(l) == GetNumDataCodewords(version, ecl)
    ensures l.shortLen >= 1 && l.shortLen + 1 + l.ecc <= 255
  {
    BlocksAreSound(version, ecl);
    var blocks: nat := NumErrorCorrectionBlocks(version, ecl);
    var ecc: nat := EccCodewordsPerBlock(version, ecl);
    var raw: nat := GetNumRawDataModules(version) / 8;
    LayoutArithmetic(raw, blocks, ecc);
    Layout(blocks, raw / blocks - ecc, blocks - raw % blocks, ecc)
  }

  lemma LayoutArithmetic(raw: nat, blocks: nat, ecc: nat)
    requires 1 <= blocks && 1 <= ecc && (ecc + 1) * blocks <= raw < 255 * blocks
    ensures ecc + 1 <= raw / blocks < 255 && raw % blocks < blocks
    ensures DataLen(Layout(blocks, raw / blocks - ecc, blocks - raw % blocks, ecc)) == raw - ecc * blocks
    ensures RawLen(Layout(blocks, raw / blocks - ecc, blocks - raw % blocks, ecc)) == raw
  {
    var q := raw / blocks;
    assert raw == q * blocks + raw % blocks;
    DivisionBound(raw, blocks, 255);
    ProductOrder(q, ecc + 1, blocks);
    assert blocks * (q - ecc) == q * blocks - ecc * blocks;
  }

  // ---- The copying loops

  /** Blocks below i are in place, and of block i the first `dj` data bytes and the first `ej` error correction bytes. */
  ghost predicate Filled(l: Layout, result: seq<bv8>, input: seq<bv8>, i: nat, dj: nat, ej: nat)
    requires Valid(l) && |input| == DataLen(l) && |result| == RawLen(l)
  {
    forall r :: 0 <= r < RawLen(l) ==>
      var s := SlotAt(l, r);
      s.block < i || (s.block == i && s.pos < (if s.DataSlot? then dj else ej)) ==> result[r] == Interleaved(l, input)[r]
  }

  lemma FillStart(l: Layout, result: seq<bv8>, input: seq<bv8>)
    requires Valid(l) && |input| == DataLen(l) && |result| == RawLen(l)
    ensures Filled(l, result, input, 0, 0, 0)
  {
    hide SlotAt, RawLen, DataLen, Interleaved;
  }

  lemma FillSlot(l: Layout, result: seq<bv8>, input: seq<bv8>, i: nat, dj: nat, ej: nat, s: Slot)
    requires Valid(l) && |input| == DataLen(l) && |result| == RawLen(l)
    requires Filled(l, result, input, i, dj, ej) && ValidSlot(l, s)
    requires s == DataSlot(i, dj) || s == EccSlot(i, ej)
    ensures 0 <= IndexOf(l, s) < RawLen(l)
    ensures Filled(l, result[IndexOf(l, s) := SlotValue(l, input, s)], input, i,
                   if s.DataSlot? then dj + 1 else dj, if s.DataSlot? then ej else ej + 1)
  {
    IndexOfSlot(l, s);
    var k := IndexOf(l, s);
    hide IndexOf, SlotAt, RawLen, DataLen, Block, Remainder, Divisor, ValidSlot;
    assert Interleaved(l, input)[k] == SlotValue(l, input, s);
    hide SlotValue, Interleaved;
    var result' := result[k := SlotValue(l, input, s)];
    forall r | 0 <= r < RawLen(l) && r != k && SlotAt(l, r) == s ensures false {
      SlotOfIndex(l, r);
    }
  }

  lemma FillBlock(l: Layout, result: seq<bv8>, input: seq<bv8>, i: nat)
    requires Valid(l) && |input| == DataLen(l) && |result| == RawLen(l) && i < l.blocks
    requires Filled(l, result, input, i, BlockLen(l, i), l.ecc)
    ensures Filled(l, result, input, i + 1, 0, 0)
  {
    hide IndexOf, SlotAt, RawLen, DataLen, Interleaved;
    forall r | 0 <= r < RawLen(l) ensures ValidSlot(l, SlotAt(l, r)) {
      SlotOfIndex(l, r);
    }
  }

  lemma FillAll(l: Layout, result: seq<bv8>, input: seq<bv8>)
    requires Valid(l) && |input| == DataLen(l) && |result| == RawLen(l)
    requires Filled(l, result, input, l.blocks, 0, 0)
    ensures result == Interleaved(l, input)
  {
    hide IndexOf, SlotAt, RawLen, DataLen, Interleaved;
    forall r | 0 <= r < RawLen(l) ensures ValidSlot(l, SlotAt(l, r)) {
      SlotOfIndex(l, r);
    }
  }

  lemma BlockByte(l: Layout, data: seq<bv8>, input: seq<bv8>, i: nat, j: nat)
    requires Valid(l) && |input| == DataLen(l) && i < l.blocks && j < BlockLen(l, i)
    requires input <= data
    ensures Offset(l, i) + BlockLen(l, i) <= |input|
    ensures data[Offset(l, i) + j] == SlotValue(l, input, DataSlot(i, j))
  {
    OffsetStep(l, i);
    OffsetMonotone(l, i + 1, l.blocks);
    hide Offset;
  }

  lemma BlockSlice(l: Layout, data: seq<bv8>, input: seq<bv8>, i: nat)
    requires Valid(l) && |input| == DataLen(l) && i < l.blocks
    requires input <= data
    ensures Offset(l, i) + BlockLen(l, i) <= |input|
    ensures data[Offset(l, i)..Offset(l, i) + BlockLen(l, i)] == Block(l, input, i)
  {
    OffsetStep(l, i);
    OffsetMonotone(l, i + 1, l.blocks);
    hide Offset;
  }

  method AddEccAndInterleave(data: array<bv8>, version: nat, ecl: Ecc, result: array<bv8>)
    requires ValidVersion(version) && data != result
    requires data.Length >= RawLen(LayoutOf(version, ecl)) && result.Length >= RawLen(LayoutOf(version, ecl))
    modifies data, result
    ensures result[..RawLen(LayoutOf(version, ecl))]
         == Interleaved(LayoutOf(version, ecl), old(data[..DataLen(LayoutOf(version, ecl))]))
    ensures forall k :: 0 <= k < DataLen(LayoutOf(version, ecl)) ==> data[k] == old(data[k])
  {
    var numBlocks := NumErrorCorrectionBlocks(version, ecl);
    var blockEccLen := EccCodewordsPerBlock(version, ecl);
    var rawCodewords := GetNumRawDataModules(version) / 8;
    var dataLen := GetNumDataCodewords(version, ecl);
    var numShortBlocks := numBlocks - rawCodewords % numBlocks;
    var shortBlockDataLen := rawCodewords / numBlocks - blockEccLen;
    assert LayoutOf(version, ecl) == Layout(numBlocks, shortBlockDataLen, numShortBlocks, blockEccLen);
    var l := Layout(numBlocks, shortBlockDataLen, numShortBlocks, blockEccLen);
    WorkAreaFits(l);
    InterleaveBlocks(l, data, dataLen, result);
  }

  /** Copies the data bytes of block i, which start at data[dat]. */
  method CopyData(l: Layout, i: nat, data: array<bv8>, dat: nat, result: array<bv8>, ghost input: seq<bv8>)
    requires Valid(l) && i < l.blocks && data != result && |input| == DataLen(l) && input <= data[..]
    requires dat == Offset(l, i) && RawLen(l) <= result.Length
    requires Filled(l, result[..RawLen(l)], input, i, 0, 0)
    modifies result
    ensures Filled(l, result[..RawLen(l)], input, i, BlockLen(l, i), 0)
  {
    hide DataLen, RawLen, Filled, SlotValue, IndexOf, Offset;
    var datLen := BlockLen(l, i);
    var j, k := 0, i;
    while j < datLen
      invariant 0 <= j <= datLen
      invariant j <= l.shortLen ==> k == j * l.blocks + i
      invariant Filled(l, result[..RawLen(l)], input, i, j, 0)
    {
      if j == l.shortLen {
        k := k - l.numShort;
      }
      IndexFormula(l, i, j);
      BlockByte(l, data[..], input, i, j);
      FillSlot(l, result[..RawLen(l)], input, i, j, 0, DataSlot(i, j));
      ghost var before := result[..RawLen(l)];
      result[k] := data[dat + j];
      assert result[..RawLen(l)] == before[k := SlotValue(l, input, DataSlot(i, j))];
      j, k := j + 1, k + l.blocks;
    }
  }

  /** Copies the error correction bytes of block i out of the work area behind the data. */
  method CopyEcc(l: Layout, i: nat, data: array<bv8>, dataLen: nat, result: array<bv8>, ghost input: seq<bv8>)
    requires Valid(l) && i < l.blocks && data != result && dataLen == |input| == DataLen(l)
    requires dataLen + l.ecc <= data.Length && RawLen(l) <= result.Length
    requires data[dataLen..dataLen + l.ecc] == Remainder(Block(l, input, i), Divisor(l.ecc))
    requires Filled(l, result[..RawLen(l)], input, i, BlockLen(l, i), 0)
    modifies result
    ensures Filled(l, result[..RawLen(l)], input, i, BlockLen(l, i), l.ecc)
  {
    hide DataLen, RawLen, Filled, SlotValue, IndexOf, Remainder, Divisor, Block;
    ghost var ecc := data[dataLen..dataLen + l.ecc];
    var j, k := 0, dataLen + i;
    while j < l.ecc
      invariant 0 <= j <= l.ecc
      invariant k == dataLen + j * l.blocks + i
      invariant Filled(l, result[..RawLen(l)], input, i, BlockLen(l, i), j)
    {
      IndexFormula(l, i, j);
      EccByte(l, input, i, j);
      FillSlot(l, result[..RawLen(l)], input, i, BlockLen(l, i), j, EccSlot(i, j));
      ghost var before := result[..RawLen(l)];
      assert data[dataLen + j] == ecc[j];
      result[k] := data[dataLen + j];
      assert result[..RawLen(l)] == before[k := ecc[j]];
      j, k := j + 1, k + l.blocks;
    }
  }

  lemma EccByte(l: Layout, input: seq<bv8>, i: nat, j: nat)
    requires Valid(l) && |input| == DataLen(l) && ValidSlot(l, EccSlot(i, j))
    ensures SlotValue(l, input, EccSlot(i, j)) == Remainder(Block(l, input, i), Divisor(l.ecc))[j]
  {
  }

  method InterleaveBlocks(l: Layout, data: array<bv8>, dataLen: nat, result: array<bv8>)
    requires Valid(l) && data != result && dataLen == DataLen(l)
    requires DataLen(l) + l.ecc <= data.Length && RawLen(l) <= result.Length
    modifies data, result
    ensures result[..RawLen(l)] == Interleaved(l, old(data[..dataLen]))
    ensures forall k :: 0 <= k < dataLen ==> data[k] == old(data[k])
  {
    hide DataLen, RawLen, Filled, Interleaved, Offset, Remainder, Divisor;
    ghost var input := data[..dataLen];
    var rsdiv := new bv8[30];
    ReedSolomonComputeDivisor(l.ecc, rsdiv);
    var dat := 0;
    FillStart(l, result[..RawLen(l)], input);
    OffsetZero(l);
    for i := 0 to l.blocks
      invariant dat == Offset(l, i)
      invariant input == data[..dataLen] && rsdiv[..l.ecc] == Divisor(l.ecc)
      invariant Filled(l, result[..RawLen(l)], input, i, 0, 0)
    {
      BlockSlice(l, data[..], input, i);
      ReedSolomonComputeRemainder(data, dat, BlockLen(l, i), rsdiv, l.ecc, data, dataLen);
      assert data[..dataLen] == input;
      CopyData(l, i, data, dat, result, input);
      CopyEcc(l, i, data, dataLen, result, input);
      FillBlock(l, result[..RawLen(l)], input, i);
      OffsetStep(l, i);
      dat := dat + BlockLen(l, i);
    }
    FillAll(l, result[..RawLen(l)], input);
  }

  lemma OffsetZero(l: Layout)
    ensures l.numShort > 0 ==> Offset(l, 0) == 0
  {
  }

  lemma IndexFormula(l: Layout, i: nat, j: nat)
    ensures IndexOf(l, DataSlot(i, j)) == if j < l.shortLen then j * l.blocks + i else l.shortLen * l.blocks + i - l.numShort
    ensures IndexOf(l, EccSlot(i, j)) == DataLen(l) + j * l.blocks + i
    ensures (j + 1) * l.blocks == j * l.blocks + l.blocks
  {
  }

  lemma WorkAreaFits(l: Layout)
    requires Valid(l)
    ensures DataLen(l) + l.ecc <= RawLen(l)
  {
    ProductOrder(1, l.blocks, l.ecc);
  }
}
