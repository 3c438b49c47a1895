/** The order of environment entries: by name, ignoring case. */
module EnvNames {
  import opened CStrings

  /** Upper-casing of one character, the same for every locale. */
  type Casing = char -> char

  /** The part of an entry before its '=', or all of it. */
  function Name(entry: string): string {
    if After(entry, '=') == 0 then entry else entry[..After(entry, '=') - 1]
  }

  function Folded(up: Casing, s: string): (t: string)
    ensures |t| == |s|
  {
    seq(|s|, i requires 0 <= i < |s| => up(s[i]))
  }

  /** The key of an entry: its name in upper case. */
  function Key(up: Casing, entry: string): string {
    Folded(up, Name(entry))
  }

  /** Negative, zero or positive for a before, equal to or after b, character by character. */
  function Compare(a: string, b: string): int {
    if a == [] && b == [] then 0
    else if a == [] then -1
    else if b == [] then 1
    else if a[0] < b[0] then -1
    else if a[0] > b[0] then 1
    else Compare(a[1..], b[1..])
  }

  predicate Less(a: string, b: string) {
    Compare(a, b) < 0
  }

  lemma {:induction false} CompareAntisymmetric(a: string, b: string)
    ensures Compare(a, b) == -Compare(b, a)
    ensures Compare(a, b) == 0 <==> a == b
  {
    if a != [] && b != [] && a[0] == b[0] {
      CompareAntisymmetric(a[1..], b[1..]);
      assert a == [a[0]] + a[1..] && b == [b[0]] + b[1..];
    }
  }

  lemma {:induction false} LessTransitive(a: string, b: string, c: string)
    requires Less(a, b) && Less(b, c)
    ensures Less(a, c)
  {
    if a != [] && b != [] && c != [] && a[0] == b[0] == c[0] {
      LessTransitive(a[1..], b[1..], c[1..]);
    }
  }

  /** The comparison of two entries by name. */
  function CompareNames(up: Casing, one: string, other: string): int {
    Compare(Key(up, one), Key(up, other))
  }

  /** The order is that of a dictionary, by the character codes. */
  lemma {:induction false} LessMeans(a: string, b: string, k: nat)
    requires k <= |a| && k <= |b| && a[..k] == b[..k]
    ensures k == |a| < |b| ==> Less(a, b)
    ensures k < |a| && k < |b| && a[k] < b[k] ==> Less(a, b)
    ensures (k == |b|) || (k < |a| && k < |b| && a[k] > b[k]) ==> !Less(a, b)
  {
    if k > 0 {
      assert a[0] == a[..k][0] == b[..k][0] == b[0];
      assert a[1..][..k - 1] == a[..k][1..] && b[1..][..k - 1] == b[..k][1..];
      LessMeans(a[1..], b[1..], k - 1);
    }
  }
}
