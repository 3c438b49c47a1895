/** Numeric and alphanumeric packing: symbols in groups, each group a fixed-width number. */
module Packing {
  import opened BitBuffer

  const DIGITS := "0123456789"
  const CHARSET := DIGITS + "ABCDEFGHIJKLMNOPQRSTUVWXYZ $%*+-./:"

  /** A packing scheme: symbols below `base`, `group` of them in one bit field. */
  datatype Scheme = Scheme(base: nat, group: nat)

  const NUMERIC := Scheme(10, 3)
  const ALPHANUMERIC := Scheme(45, 2)

  ghost predicate Valid(s: Scheme) {
    s == NUMERIC || s == ALPHANUMERIC
  }

  ghost predicate AreSymbols(s: Scheme, vals: seq<nat>) {
    forall i :: 0 <= i < |vals| ==> vals[i] < s.base
  }

  /** The bits of a group of r symbols: 4, 7 or 10 for digits, 6 or 11 for alphanumeric characters. */
  function FieldWidth(s: Scheme, r: nat): nat
    requires Valid(s)
  {
    if s == NUMERIC then 3 * r + 1 else 5 * r + 1
  }

  // ---- A group as a number

  function BaseValue(base: nat, vals: seq<nat>): nat {
    if vals == [] then 0 else BaseValue(base, vals[..|vals| - 1]) * base + vals[|vals| - 1]
  }

  /** Division by the base, written with each constant so that it stays linear. */
  function Quotient(s: Scheme, v: nat): nat
    requires Valid(s)
  {
    if s == NUMERIC then v / 10 else v / 45
  }

  function BaseDigits(s: Scheme, v: nat, n: nat): (vals: seq<nat>)
    requires Valid(s)
    ensures |vals| == n
  {
    if n == 0 then [] else BaseDigits(s, Quotient(s, v), n - 1) + [v - s.base * Quotient(s, v)]
  }

  lemma {:induction false} DigitsOfValue(s: Scheme, vals: seq<nat>)
    requires Valid(s) && AreSymbols(s, vals)
    ensures BaseDigits(s, BaseValue(s.base, vals), |vals|) == vals
  {
    if vals != [] {
      var n := |vals| - 1;
      var v := BaseValue(s.base, vals[..n]);
      DigitsOfValue(s, vals[..n]);
      if s == NUMERIC {
        assert (v * 10 + vals[n]) / 10 == v;
      } else {
        assert (v * 45 + vals[n]) / 45 == v;
      }
      assert vals == vals[..n] + [vals[n]];
    }
  }

  /** The number of a group fits its bit field: val < 2^numBits at every append. */
  lemma GroupFits(s: Scheme, vals: seq<nat>)
    requires Valid(s) && AreSymbols(s, vals) && |vals| <= s.group
    ensures ShiftRight(BaseValue(s.base, vals), FieldWidth(s, |vals|)) == 0
  {
    FitsInBits(BaseValue(s.base, vals), FieldWidth(s, |vals|));
    Powers();
    if |vals| >= 1 {
      var u := vals[..|vals| - 1];
      if |vals| >= 2 {
        var w := u[..|u| - 1];
        assert |vals| >= 3 ==> BaseValue(s.base, w[..|w| - 1]) == 0;
      }
    }
  }

  lemma Powers()
    ensures Pow2(1) == 2 && Pow2(4) == 16 && Pow2(6) == 64 && Pow2(7) == 128
    ensures Pow2(10) == 1024 && Pow2(11) == 2048
  {
    assert Pow2(2) == 4 && Pow2(3) == 8 && Pow2(5) == 32 && Pow2(8) == 256 && Pow2(9) == 512;
  }

  // ---- Groups from the left, the last one possibly short

  function LastGroup(s: Scheme, n: nat): (r: nat)
    requires Valid(s) && n > 0
    ensures 1 <= r <= s.group && r <= n
  {
    if s == NUMERIC then (if n % 3 == 0 then 3 else n % 3) else (if n % 2 == 0 then 2 else 1)
  }

  function Pack(s: Scheme, vals: seq<nat>): seq<bool>
    requires Valid(s)
    decreases |vals|
  {
    if vals == [] then []
    else
      var r := LastGroup(s, |vals|);
      Pack(s, vals[..|vals| - r]) + ToBits(BaseValue(s.base, vals[|vals| - r..]), FieldWidth(s, r))
  }

  lemma LastOfLonger(s: Scheme, n: nat)
    requires Valid(s)
    ensures LastGroup(s, n + s.group) == if n == 0 then s.group else LastGroup(s, n)
  {
  }

  lemma PackEnds(s: Scheme, front: seq<nat>, last: seq<nat>)
    requires Valid(s) && last != [] && |last| == LastGroup(s, |front + last|)
    ensures Pack(s, front + last) == Pack(s, front) + ToBits(BaseValue(s.base, last), FieldWidth(s, |last|))
  {
    hide BaseValue, ToBits, LastGroup, FieldWidth;
    var all := front + last;
    assert all[..|all| - |last|] == front && all[|all| - |last|..] == last;
  }

  lemma {:induction false} FirstGroup(s: Scheme, first: seq<nat>, rest: seq<nat>)
    requires Valid(s) && |first| == s.group
    ensures Pack(s, first + rest) == ToBits(BaseValue(s.base, first), FieldWidth(s, s.group)) + Pack(s, rest)
    decreases |rest|
  {
    hide BaseValue, ToBits, LastGroup, FieldWidth, Pack;
    LastOfLonger(s, |rest|);
    PackNone(s);
    if rest == [] {
      assert first + rest == [] + first;
      PackEnds(s, [], first);
    } else {
      var r := LastGroup(s, |rest|);
      var front, last := rest[..|rest| - r], rest[|rest| - r..];
      assert rest == front + last && first + rest == (first + front) + last;
      FirstGroup(s, first, front);
      PackEnds(s, first + front, last);
      PackEnds(s, front, last);
    }
  }

  lemma PackNone(s: Scheme)
    requires Valid(s)
    ensures Pack(s, []) == []
  {
  }

  /** Three digits make 10 bits, two 7 and one 4; groups are made from the left. */
  lemma {:induction false} DigitGroups(a: nat, b: nat, c: nat, rest: seq<nat>)
    ensures Pack(NUMERIC, [a, b, c] + rest) == ToBits(100 * a + 10 * b + c, 10) + Pack(NUMERIC, rest)
    ensures Pack(NUMERIC, [a, b]) == ToBits(10 * a + b, 7) && Pack(NUMERIC, [a]) == ToBits(a, 4)
  {
    assert FieldWidth(NUMERIC, 3) == 10;
    hide ToBits, Pack, BaseValue, FieldWidth;
    ValuesOfGroups(10, a, b, c);
    FirstGroup(NUMERIC, [a, b, c], rest);
    ShortGroups(a, b);
  }

  /** Two characters make 11 bits and one 6. */
  lemma {:induction false} CharacterGroups(a: nat, b: nat, rest: seq<nat>)
    ensures Pack(ALPHANUMERIC, [a, b] + rest) == ToBits(45 * a + b, 11) + Pack(ALPHANUMERIC, rest)
    ensures Pack(ALPHANUMERIC, [a]) == ToBits(a, 6)
  {
    assert FieldWidth(ALPHANUMERIC, 2) == 11;
    hide ToBits, Pack, BaseValue, FieldWidth;
    ValuesOfGroups(45, a, b, 0);
    FirstGroup(ALPHANUMERIC, [a, b], rest);
    ShortGroups(a, b);
  }

  lemma ShortGroups(a: nat, b: nat)
    ensures Pack(NUMERIC, [a, b]) == ToBits(BaseValue(10, [a, b]), 7) && Pack(NUMERIC, [a]) == ToBits(BaseValue(10, [a]), 4)
    ensures Pack(ALPHANUMERIC, [a]) == ToBits(BaseValue(45, [a]), 6)
  {
    hide ToBits, BaseValue;
    assert [a, b][..0] == [] && [a, b][0..] == [a, b] && [a][..0] == [] && [a][0..] == [a];
    assert Pack(NUMERIC, []) == [] && Pack(ALPHANUMERIC, []) == [];
  }

  lemma ValuesOfGroups(base: nat, a: nat, b: nat, c: nat)
    ensures BaseValue(base, [a]) == a && BaseValue(base, [a, b]) == a * base + b
    ensures BaseValue(base, [a, b, c]) == (a * base + b) * base + c
  {
    assert [a, b, c][..2] == [a, b] && [a, b][..1] == [a] && [a][..0] == [];
    assert BaseValue(base, [a, b]) == BaseValue(base, [a]) * base + b;
  }

  function PackedLength(s: Scheme, n: nat): nat
    requires Valid(s)
  {
    if s == NUMERIC then (n * 10 + 2) / 3 else (n * 11 + 1) / 2
  }

  lemma PackedLengthStep(s: Scheme, n: nat)
    requires Valid(s) && n > 0
    ensures PackedLength(s, n) == PackedLength(s, n - LastGroup(s, n)) + FieldWidth(s, LastGroup(s, n))
  {
    var r := LastGroup(s, n);
    var q := (n - r) / s.group;
    if s == NUMERIC {
      assert n == 3 * q + r;
      assert (30 * q + 2) / 3 == 10 * q;
    } else {
      assert n == 2 * q + r;
      assert (22 * q + 1) / 2 == 11 * q;
    }
  }

  lemma {:induction false} PackLength(s: Scheme, vals: seq<nat>)
    requires Valid(s)
    ensures |Pack(s, vals)| == PackedLength(s, |vals|)
    decreases |vals|
  {
    if vals != [] {
      PackLength(s, vals[..|vals| - LastGroup(s, |vals|)]);
      PackedLengthStep(s, |vals|);
    }
  }

  function Unpack(s: Scheme, bits: seq<bool>, n: nat): (vals: seq<nat>)
    requires Valid(s) && |bits| == PackedLength(s, n)
    ensures |vals| == n
    decreases n
  {
    if n == 0 then []
    else
      PackedLengthStep(s, n);
      var r := LastGroup(s, n);
      var m := |bits| - FieldWidth(s, r);
      Unpack(s, bits[..m], n - r) + BaseDigits(s, FromBits(bits[m..]), r)
  }

  lemma {:induction false} UnpackLastGroup(s: Scheme, vals: seq<nat>)
    requires Valid(s) && AreSymbols(s, vals) && 1 <= |vals| <= s.group
    ensures BaseDigits(s, FromBits(ToBits(BaseValue(s.base, vals), FieldWidth(s, |vals|))), |vals|) == vals
  {
    hide BaseValue, BaseDigits, ToBits, FromBits;
    GroupFits(s, vals);
    FromToBits(BaseValue(s.base, vals), FieldWidth(s, |vals|));
    DigitsOfValue(s, vals);
  }

  lemma UnpackStep(s: Scheme, bits: seq<bool>, field: seq<bool>, n: nat)
    requires Valid(s) && n > 0
    requires |bits| == PackedLength(s, n - LastGroup(s, n)) && |field| == FieldWidth(s, LastGroup(s, n))
    ensures |bits + field| == PackedLength(s, n)
    ensures Unpack(s, bits + field, n) == Unpack(s, bits, n - LastGroup(s, n)) + BaseDigits(s, FromBits(field), LastGroup(s, n))
  {
    hide BaseDigits, FromBits, LastGroup, PackedLength, FieldWidth;
    PackedLengthStep(s, n);
    assert (bits + field)[..|bits|] == bits && (bits + field)[|bits|..] == field;
  }

  lemma UnpackAppend(s: Scheme, front: seq<nat>, last: seq<nat>)
    requires Valid(s) && AreSymbols(s, last) && last != [] && |last| == LastGroup(s, |front + last|)
    requires |Pack(s, front)| == PackedLength(s, |front|) && Unpack(s, Pack(s, front), |front|) == front
    requires |Pack(s, front + last)| == PackedLength(s, |front + last|)
    ensures Unpack(s, Pack(s, front + last), |front + last|) == front + last
  {
    hide BaseValue, BaseDigits, ToBits, FromBits, PackedLength, FieldWidth, LastGroup, Unpack;
    UnpackLastGroup(s, last);
    var n := |front + last|;
    assert (front + last)[..n - |last|] == front && (front + last)[n - |last|..] == last;
    UnpackStep(s, Pack(s, front), ToBits(BaseValue(s.base, last), FieldWidth(s, |last|)), n);
  }

  /** Unpacking the groups gives back the symbols. */
  lemma {:induction false} UnpackPack(s: Scheme, vals: seq<nat>)
    requires Valid(s) && AreSymbols(s, vals)
    ensures |Pack(s, vals)| == PackedLength(s, |vals|)
    ensures Unpack(s, Pack(s, vals), |vals|) == vals
    decreases |vals|
  {
    hide Pack, Unpack, PackedLength, LastGroup;
    PackLength(s, vals);
    if vals == [] {
    } else {
      var r := LastGroup(s, |vals|);
      var front, last := vals[..|vals| - r], vals[|vals| - r..];
      UnpackPack(s, front);
      assert vals == front + last;
      UnpackAppend(s, front, last);
    }
  }

  // ---- Characters

  predicate IsDigit(c: char) {
    '0' <= c <= '9'
  }

  predicate InCharset(c: char) {
    c in CHARSET
  }

  /** The offset that strchr finds. */
  function FirstIndex(s: string, c: char): (k: nat)
    requires c in s
    ensures k < |s| && s[k] == c
  {
    if s[0] == c then 0 else FirstIndex(s[1..], c) + 1
  }

  function DigitValue(c: char): (d: nat)
    requires IsDigit(c)
    ensures d < 10
  {
    c as int - '0' as int
  }

  function DigitValues(text: string): (vals: seq<nat>)
    requires forall i :: 0 <= i < |text| ==> IsDigit(text[i])
    ensures |vals| == |text| && AreSymbols(NUMERIC, vals)
  {
    seq(|text|, i requires 0 <= i < |text| => DigitValue(text[i]))
  }

  function AlphanumericValue(c: char): (v: nat)
    requires InCharset(c)
    ensures v < 45 && CHARSET[v] == c
  {
    FirstIndex(CHARSET, c)
  }

  function AlphanumericValues(text: string): (vals: seq<nat>)
    requires forall i :: 0 <= i < |text| ==> InCharset(text[i])
    ensures |vals| == |text| && AreSymbols(ALPHANUMERIC, vals)
  {
    seq(|text|, i requires 0 <= i < |text| => AlphanumericValue(text[i]))
  }

  /** The character of a symbol value: both schemes index the same table. */
  function Characters(vals: seq<nat>): (text: string)
    requires AreSymbols(ALPHANUMERIC, vals)
    ensures |text| == |vals|
  {
    seq(|vals|, i requires 0 <= i < |vals| => CHARSET[vals[i]])
  }

  lemma CharactersOfDigits(text: string)
    requires forall i :: 0 <= i < |text| ==> IsDigit(text[i])
    ensures AreSymbols(ALPHANUMERIC, DigitValues(text)) && Characters(DigitValues(text)) == text
  {
    forall i | 0 <= i < |text| ensures CHARSET[DigitValues(text)[i]] == text[i] {
      CharacterOfDigit(text[i]);
    }
  }

  lemma CharacterOfDigit(c: char)
    requires IsDigit(c)
    ensures CHARSET[DigitValue(c)] == c
  {
    var d := DigitValue(c);
    assert CHARSET[d] == DIGITS[d];
    assert DIGITS[0] == '0' && DIGITS[1] == '1' && DIGITS[2] == '2' && DIGITS[3] == '3' && DIGITS[4] == '4';
    assert DIGITS[5] == '5' && DIGITS[6] == '6' && DIGITS[7] == '7' && DIGITS[8] == '8' && DIGITS[9] == '9';
  }
}
