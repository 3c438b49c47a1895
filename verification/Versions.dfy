/** Version parameters: capacities and the error correction tables of ISO/IEC 18004, table 9. */
module Versions {

  datatype Ecc = Low | Medium | Quartile | High

  predicate ValidVersion(version: int) {
    1 <= version <= 40
  }

  function EccCodewordsLow(version: nat): int
    requires ValidVersion(version)
  {
    match version
    case 1 => 7 case 2 => 10 case 3 => 15 case 4 => 20 case 5 => 26 case 6 => 18 case 7 => 20 case 8 => 24
    case 9 => 30 case 10 => 18 case 11 => 20 case 12 => 24 case 13 => 26 case 14 => 30 case 15 => 22
    case 16 => 24 case 17 => 28 case 18 => 30 case 19 => 28 case 20 => 28 case 21 => 28 case 22 => 28
    case 23 => 30 case 24 => 30 case 25 => 26 case 26 => 28 case _ => 30
  }

  function EccCodewordsMedium(version: nat): int
    requires ValidVersion(version)
  {
    match version
    case 1 => 10 case 2 => 16 case 3 => 26 case 4 => 18 case 5 => 24 case 6 => 16 case 7 => 18 case 8 => 22
    case 9 => 22 case 10 => 26 case 11 => 30 case 12 => 22 case 13 => 22 case 14 => 24 case 15 => 24
    case 16 => 28 case 17 => 28 case 18 => 26 case 19 => 26 case 20 => 26 case 21 => 26 case _ => 28
  }

  function EccCodewordsQuartile(version: nat): int
    requires ValidVersion(version)
  {
    match version
    case 1 => 13 case 2 => 22 case 3 => 18 case 4 => 26 case 5 => 18 case 6 => 24 case 7 => 18 case 8 => 22
    case 9 => 20 case 10 => 24 case 11 => 28 case 12 => 26 case 13 => 24 case 14 => 20 case 15 => 30
    case 16 => 24 case 17 => 28 case 18 => 28 case 19 => 26 case 20 => 30 case 21 => 28 case 22 => 30
    case 23 => 30 case 24 => 30 case 25 => 30 case 26 => 28 case _ => 30
  }

  function EccCodewordsHigh(version: nat): int
    requires ValidVersion(version)
  {
    match version
    case 1 => 17 case 2 => 28 case 3 => 22 case 4 => 16 case 5 => 22 case 6 => 28 case 7 => 26 case 8 => 26
    case 9 => 24 case 10 => 28 case 11 => 24 case 12 => 28 case 13 => 22 case 14 => 24 case 15 => 24
    case 16 => 30 case 17 => 28 case 18 => 28 case 19 => 26 case 20 => 28 case 21 => 30 case 22 => 24
    case _ => 30
  }

  function EccBlocksLow(version: nat): int
    requires ValidVersion(version)
  {
    match version
    case 1 => 1 case 2 => 1 case 3 => 1 case 4 => 1 case 5 => 1 case 6 => 2 case 7 => 2 case 8 => 2
    case 9 => 2 case 10 => 4 case 11 => 4 case 12 => 4 case 13 => 4 case 14 => 4 case 15 => 6 case 16 => 6
    case 17 => 6 case 18 => 6 case 19 => 7 case 20 => 8 case 21 => 8 case 22 => 9 case 23 => 9 case 24 => 10
    case 25 => 12 case 26 => 12 case 27 => 12 case 28 => 13 case 29 => 14 case 30 => 15 case 31 => 16
    case 32 => 17 case 33 => 18 case 34 => 19 case 35 => 19 case 36 => 20 case 37 => 21 case 38 => 22
    case 39 => 24 case _ => 25
  }

  function EccBlocksMedium(version: nat): int
    requires ValidVersion(version)
  {
    match version
    case 1 => 1 case 2 => 1 case 3 => 1 case 4 => 2 case 5 => 2 case 6 => 4 case 7 => 4 case 8 => 4
    case 9 => 5 case 10 => 5 case 11 => 5 case 12 => 8 case 13 => 9 case 14 => 9 case 15 => 10 case 16 => 10
    case 17 => 11 case 18 => 13 case 19 => 14 case 20 => 16 case 21 => 17 case 22 => 17 case 23 => 18
    case 24 => 20 case 25 => 21 case 26 => 23 case 27 => 25 case 28 => 26 case 29 => 28 case 30 => 29
    case 31 => 31 case 32 => 33 case 33 => 35 case 34 => 37 case 35 => 38 case 36 => 40 case 37 => 43
    case 38 => 45 case 39 => 47 case _ => 49
  }

  function EccBlocksQuartile(version: nat): int
    requires ValidVersion(version)
  {
    match version
    case 1 => 1 case 2 => 1 case 3 => 2 case 4 => 2 case 5 => 4 case 6 => 4 case 7 => 6 case 8 => 6
    case 9 => 8 case 10 => 8 case 11 => 8 case 12 => 10 case 13 => 12 case 14 => 16 case 15 => 12
    case 16 => 17 case 17 => 16 case 18 => 18 case 19 => 21 case 20 => 20 case 21 => 23 case 22 => 23
    case 23 => 25 case 24 => 27 case 25 => 29 case 26 => 34 case 27 => 34 case 28 => 35 case 29 => 38
    case 30 => 40 case 31 => 43 case 32 => 45 case 33 => 48 case 34 => 51 case 35 => 53 case 36 => 56
    case 37 => 59 case 38 => 62 case 39 => 65 case _ => 68
  }

  function EccBlocksHigh(version: nat): int
    requires ValidVersion(version)
  {
    match version
    case 1 => 1 case 2 => 1 case 3 => 2 case 4 => 4 case 5 => 4 case 6 => 4 case 7 => 5 case 8 => 6
    case 9 => 8 case 10 => 8 case 11 => 11 case 12 => 11 case 13 => 16 case 14 => 16 case 15 => 18
    case 16 => 16 case 17 => 19 case 18 => 21 case 19 => 25 case 20 => 25 case 21 => 25 case 22 => 34
    case 23 => 30 case 24 => 32 case 25 => 35 case 26 => 37 case 27 => 40 case 28 => 42 case 29 => 45
    case 30 => 48 case 31 => 51 case 32 => 54 case 33 => 57 case 34 => 60 case 35 => 63 case 36 => 66
    case 37 => 70 case 38 => 74 case 39 => 77 case _ => 81
  }

  /** The number of data bits of a symbol, remainder bits included. */
  function GetNumRawDataModules(version: nat): (n: int)
    requires ValidVersion(version)
  {
    var result := (16 * version + 128) * version + 64;
    if version >= 2 then
      var numAlign := version / 7 + 2;
      var reduced := result - ((25 * numAlign - 10) * numAlign - 55);
      if version >= 7 then reduced - 36 else reduced
    else result
  }

  function EccCodewordsPerBlock(version: nat, ecl: Ecc): int
    requires ValidVersion(version)
  {
    match ecl
    case Low => EccCodewordsLow(version)
    case Medium => EccCodewordsMedium(version)
    case Quartile => EccCodewordsQuartile(version)
    case High => EccCodewordsHigh(version)
  }

  function NumErrorCorrectionBlocks(version: nat, ecl: Ecc): int
    requires ValidVersion(version)
  {
    match ecl
    case Low => EccBlocksLow(version)
    case Medium => EccBlocksMedium(version)
    case Quartile => EccBlocksQuartile(version)
    case High => EccBlocksHigh(version)
  }

  /** The number of codewords that carry data rather than error correction. */
  function GetNumDataCodewords(version: nat, ecl: Ecc): int
    requires ValidVersion(version)
  {
    GetNumRawDataModules(version) / 8 - EccCodewordsPerBlock(version, ecl) * NumErrorCorrectionBlocks(version, ecl)
  }

  /** Every block has at least one data byte, at most 30 error correction bytes and at most 255 bytes in all. */
  predicate SoundBlocks(version: nat, ecl: Ecc)
    requires ValidVersion(version)
  {
    var raw := GetNumRawDataModules(version) / 8;
    var blocks, ecc := NumErrorCorrectionBlocks(version, ecl), EccCodewordsPerBlock(version, ecl);
    1 <= blocks && 1 <= ecc <= 30 && (ecc + 1) * blocks <= raw < 255 * blocks
  }

  predicate SoundVersion(version: nat)
    requires ValidVersion(version)
  {
    SoundBlocks(version, Low) && SoundBlocks(version, Medium) && SoundBlocks(version, Quartile) && SoundBlocks(version, High)
    && GetNumDataCodewords(version, Low) > GetNumDataCodewords(version, Medium)
    && GetNumDataCodewords(version, Medium) > GetNumDataCodewords(version, Quartile)
    && GetNumDataCodewords(version, Quartile) > GetNumDataCodewords(version, High)
  }

  /** All versions in a range are sound. */
  predicate SoundBetween(lo: nat, hi: nat)
    requires 1 <= lo <= hi + 1 <= 41
    decreases hi + 1 - lo
  {
    lo > hi || (SoundVersion(lo) && SoundBetween(lo + 1, hi))
  }

  lemma Sound1To5()
    ensures SoundBetween(1, 5)
  {
  }

  lemma Sound6To10()
    ensures SoundBetween(6, 10)
  {
  }

  lemma Sound11To15()
    ensures SoundBetween(11, 15)
  {
  }

  lemma Sound16To20()
    ensures SoundBetween(16, 20)
  {
  }

  lemma Sound21To25()
    ensures SoundBetween(21, 25)
  {
  }

  lemma Sound26To30()
    ensures SoundBetween(26, 30)
  {
  }

  lemma Sound31To35()
    ensures SoundBetween(31, 35)
  {
  }

  lemma Sound36To40()
    ensures SoundBetween(36, 40)
  {
  }

  lemma {:induction false} SoundInside(lo: nat, hi: nat, version: nat)
    requires 1 <= lo <= version <= hi <= 40 && SoundBetween(lo, hi)
    ensures SoundVersion(version)
    decreases hi - lo
  {
    hide SoundVersion;
    if lo < version {
      SoundInside(lo + 1, hi, version);
    }
  }

  lemma VersionIsSound(version: nat)
    requires ValidVersion(version)
    ensures SoundVersion(version)
  {
    hide SoundVersion, SoundBetween;
    var lo := (version - 1) / 5 * 5 + 1;
    match lo {
      case 1 => Sound1To5();
      case 6 => Sound6To10();
      case 11 => Sound11To15();
      case 16 => Sound16To20();
      case 21 => Sound21To25();
      case 26 => Sound26To30();
      case 31 => Sound31To35();
      case _ => Sound36To40();
    }
    SoundInside(lo, lo + 4, version);
  }

  lemma BlocksAreSound(version: nat, ecl: Ecc)
    requires ValidVersion(version)
    ensures SoundBlocks(version, ecl)
  {
    hide SoundBlocks;
    VersionIsSound(version);
  }

  /** In every version each level leaves less room for data than the one before. */
  lemma LevelsOrdered(version: nat)
    requires ValidVersion(version)
    ensures GetNumDataCodewords(version, Low) > GetNumDataCodewords(version, Medium)
    ensures GetNumDataCodewords(version, Medium) > GetNumDataCodewords(version, Quartile)
    ensures GetNumDataCodewords(version, Quartile) > GetNumDataCodewords(version, High)
  {
    hide SoundBlocks, GetNumDataCodewords;
    VersionIsSound(version);
  }
}
