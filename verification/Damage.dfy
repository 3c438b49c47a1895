/** Damaged symbols: what the error correction of codewords and of format bits says about a symbol that is read. */
module Damage {
  import opened BitBuffer
  import opened CodeDistance
  import opened FormatBits
  import opened FunctionPatterns
  import opened Grids
  import opened Hamming
  import opened Interleaving
  import opened Masking
  import opened ReedSolomon
  import opened Segments
  import opened Symbols
  import opened Versions

  /** No block has more than half as many wrong bytes as it has error correction bytes. */
  ghost predicate BlocksNear(l: Layout, received: seq<bv8>, sent: seq<bv8>)
    requires Valid(l) && |received| == |sent| == RawLen(l)
  {
    forall i: nat :: i < l.blocks ==> 2 * Distance(ReadBlock(l, sent, i), ReadBlock(l, received, i)) <= l.ecc
  }

  lemma {:induction false} BlocksDetermine(l: Layout, data: seq<bv8>, data': seq<bv8>, n: nat)
    requires Valid(l) && |data| == |data'| == DataLen(l) && n <= l.blocks
    requires forall i: nat :: i < l.blocks ==> Block(l, data, i) == Block(l, data', i)
    ensures Offset(l, n) <= |data| && data[..Offset(l, n)] == data'[..Offset(l, n)]
  {
    hide Offset;
    OffsetMonotone(l, n, l.blocks);
    if n == 0 {
      OffsetZero(l);
    } else {
      BlocksDetermine(l, data, data', n - 1);
      OffsetStep(l, n - 1);
      OffsetMonotone(l, n - 1, l.blocks);
      var m := Offset(l, n - 1);
      assert data[..Offset(l, n)] == data[..m] + Block(l, data, n - 1);
      assert data'[..Offset(l, n)] == data'[..m] + Block(l, data', n - 1);
    }
  }

  /** What is received near the interleaving of two data comes from equal data. */
  lemma {:induction false} InterleavedCorrects(l: Layout, data: seq<bv8>, data': seq<bv8>, received: seq<bv8>)
    requires Valid(l) && l.shortLen + 1 + l.ecc <= 255
    requires |data| == |data'| == DataLen(l) && |received| == RawLen(l)
    requires BlocksNear(l, received, Interleaved(l, data)) && BlocksNear(l, received, Interleaved(l, data'))
    ensures data == data'
  {
    hide DataLen, RawLen, Interleaved, ReadBlock, Block, Codeword, Offset;
    forall i: nat | i < l.blocks ensures Block(l, data, i) == Block(l, data', i) {
      ReadBlockInterleaved(l, data, i);
      ReadBlockInterleaved(l, data', i);
      DistanceSymmetric(ReadBlock(l, Interleaved(l, data'), i), ReadBlock(l, received, i));
      UniqueCorrection(Block(l, data, i), Block(l, data', i), ReadBlock(l, received, i), l.ecc);
    }
    BlocksDetermine(l, data, data', l.blocks);
    WholeData(l, data);
    WholeData(l, data');
  }

  lemma WholeData(l: Layout, data: seq<bv8>)
    requires |data| == DataLen(l)
    ensures data[..Offset(l, l.blocks)] == data
  {
  }

  /**
   * g may be the symbol of these segments with this level and mask: at most three of the fifteen bits in the first copy of
   * the format bits are wrong, and the error correction of the codewords suffices in every block.
   */
  ghost predicate ComesFrom(g: Grid, cs: seq<Content>, version: nat, ecl: Ecc, mask: nat)
    requires ValidVersion(version) && Square(g, SizeOf(version)) && Fits(cs, version, ecl) && mask < 8
  {
    RawBytesFormula(version);
    Distance(FormatBitList(ecl, mask), FirstCopy(g, SizeOf(version))) <= 3
    && BlocksNear(LayoutOf(version, ecl), CodewordsUnder(g, version, mask), RawCodewords(cs, version, ecl))
  }

  /** An undamaged symbol comes from its segments ... */
  lemma {:induction false} SymbolComesFromItself(cs: seq<Content>, version: nat, ecl: Ecc, mask: nat)
    requires ValidVersion(version) && Fits(cs, version, ecl) && mask < 8
    ensures ComesFrom(Symbol(cs, version, ecl, mask), cs, version, ecl, mask)
  {
    hide FormatBitList, FirstCopy, CodewordsUnder, LayoutOf, RawCodewords, Fits, SizeOf, RawBytes, RawLen, BlocksNear,
         SymbolMask, Masked, Unmasked, FunctionModules, WithFormat;
    RawBytesFormula(version);
    var raw, n := RawCodewords(cs, version, ecl), SizeOf(version);
    SymbolFormat(raw, version, ecl, mask);
    ReadCodewordsOfSymbol(raw, version, ecl, mask);
    ReadFirstCopy(Masked(FunctionModules(version), Unmasked(raw, version), n, mask), n, ecl, mask);
    ZeroDistance(FormatBitList(ecl, mask), FirstCopy(Symbol(cs, version, ecl, mask), SizeOf(version)));
    NearItself(LayoutOf(version, ecl), raw);
  }

  lemma NearItself(l: Layout, raw: seq<bv8>)
    requires Valid(l) && |raw| == RawLen(l)
    ensures BlocksNear(l, raw, raw)
  {
    hide RawLen, ReadBlock;
    forall i: nat | i < l.blocks ensures Distance(ReadBlock(l, raw, i), ReadBlock(l, raw, i)) == 0 {
      ZeroDistance(ReadBlock(l, raw, i), ReadBlock(l, raw, i));
    }
  }

  /** ... and a damaged one from no others: level, mask and segments are determined. */
  lemma {:induction false} DamagedSymbol(g: Grid, version: nat, cs: seq<Content>, ecl: Ecc, mask: nat,
                      cs': seq<Content>, ecl': Ecc, mask': nat)
    requires ValidVersion(version) && Square(g, SizeOf(version)) && mask < 8 && mask' < 8
    requires Fits(cs, version, ecl) && (forall i :: 0 <= i < |cs| ==> WellFormed(cs[i]))
    requires Fits(cs', version, ecl') && (forall i :: 0 <= i < |cs'| ==> WellFormed(cs'[i]))
    requires ComesFrom(g, cs, version, ecl, mask) && ComesFrom(g, cs', version, ecl', mask')
    ensures ecl == ecl' && mask == mask' && cs == cs'
  {
    hide FormatBitList, FirstCopy, CodewordsUnder, BlocksNear, LayoutOf, DataCodewords, Interleaved, Fits, WellFormed, Parse,
         BitsOf, SizeOf, RawBytes, RawLen, DataLen, GetNumRawDataModules;
    RawBytesFormula(version);
    var copy := FirstCopy(g, SizeOf(version));
    DistanceSymmetric(FormatBitList(ecl', mask'), copy);
    FormatCorrects(ecl, mask, ecl', mask', copy);
    var l := LayoutOf(version, ecl);
    InterleavedCorrects(l, DataCodewords(cs, version, ecl), DataCodewords(cs', version, ecl), CodewordsUnder(g, version, mask));
    ParseData(cs, version, ecl);
    ParseData(cs', version, ecl);
  }
}
