/** Searching NUL-terminated strings. */
module CStrings {
  /** One more than the position of the first c in s, or 0 if there is none. */
  function After(s: string, c: char): (n: nat)
    ensures n <= |s|
    ensures n == 0 <==> c !in s
    ensures n > 0 ==> s[n - 1] == c && c !in s[..n - 1]
  {
    if s == "" then 0
    else if s[0] == c then 1
    else
      var m := After(s[1..], c);
      assert s == [s[0]] + s[1..];
      if m == 0 then 0 else
        assert s[..m] == [s[0]] + s[1..][..m - 1];
        m + 1
  }

  lemma Absent(s: string, c: char, n: nat)
    requires n <= |s| && c !in s[..n]
    ensures forall i :: 0 <= i < n ==> s[i] != c
  {
    forall i | 0 <= i < n ensures s[i] != c {
      assert s[i] in s[..n];
    }
  }

  lemma AfterUnique(s: string, c: char, n: nat)
    requires 0 < n <= |s| && s[n - 1] == c && c !in s[..n - 1]
    ensures After(s, c) == n
  {
    Absent(s, c, n - 1);
    Absent(s, c, After(s, c) - 1);
  }

  /** The part of s before its first NUL. */
  function CString(s: string): string {
    if After(s, '\0') == 0 then s else s[..After(s, '\0') - 1]
  }

  lemma CStringEnds(s: string, n: nat)
    requires n < |s| && s[n] == '\0'
    ensures CString(s) == CString(s[..n])
  {
    var m := After(s, '\0');
    if m == n + 1 {
      assert '\0' !in s[..n];
    } else {
      Absent(s, '\0', m - 1);
      assert m - 1 < n && s[..n][m - 1] == '\0' && s[..n][..m - 1] == s[..m - 1];
      AfterUnique(s[..n], '\0', m);
    }
  }
}
