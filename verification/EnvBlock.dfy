/** The environment block for a new process: the entries of a connection merged into those of this process. */
module EnvBlock {
  import opened CStrings
  import opened EnvNames
  import opened EnvSet

  /** Like Sorted, but entries of one name may follow each other. */
  ghost predicate WeaklySorted(up: Casing, es: seq<string>) {
    forall i, j :: 0 <= i < j < |es| ==> !Less(Key(up, es[j]), Key(up, es[i]))
  }

  /** An entry of the set comes before the process entries after its name and takes the place of one of its name. */
  function Merge(up: Casing, es: seq<string>, ps: seq<string>): (r: seq<string>)
    decreases |es| + |ps|
  {
    if es == [] then ps
    else if ps == [] then es
    else
      var cmp := CompareNames(up, es[0], ps[0]);
      if cmp < 0 then [es[0]] + Merge(up, es[1..], ps)
      else if cmp == 0 then [es[0]] + Merge(up, es[1..], ps[1..])
      else [ps[0]] + Merge(up, es, ps[1..])
  }

  /** The entries with key k, in order. */
  function Named(up: Casing, es: seq<string>, k: string): seq<string> {
    if es == [] then []
    else if Key(up, es[0]) == k then [es[0]] + Named(up, es[1..], k)
    else Named(up, es[1..], k)
  }

  lemma {:induction false} NoneNamed(up: Casing, es: seq<string>, k: string)
    requires forall i :: 0 <= i < |es| ==> Key(up, es[i]) != k
    ensures Named(up, es, k) == []
  {
    if es != [] {
      NoneNamed(up, es[1..], k);
    }
  }

  lemma NamedFirst(up: Casing, e: string, es: seq<string>, k: string)
    ensures Named(up, [e] + es, k) == (if Key(up, e) == k then [e] else []) + Named(up, es, k)
  {
    assert ([e] + es)[1..] == es;
  }

  lemma LessIsNotEqual(a: string, b: string)
    requires Less(a, b)
    ensures a != b && !Less(b, a)
  {
    CompareAntisymmetric(a, b);
  }

  /** a comes before all of es, if it comes before the first. */
  lemma BeforeAll(up: Casing, a: string, es: seq<string>)
    requires WeaklySorted(up, es) && es != [] && Less(a, Key(up, es[0]))
    ensures forall i :: 0 <= i < |es| ==> Less(a, Key(up, es[i]))
  {
    hide Key, Compare;
    forall i | 0 <= i < |es| ensures Less(a, Key(up, es[i])) {
      var first, k := Key(up, es[0]), Key(up, es[i]);
      CompareAntisymmetric(first, k);
      if i > 0 && first != k {
        LessTransitive(a, first, k);
      }
    }
  }

  lemma SortedIsWeak(up: Casing, es: seq<string>)
    requires Sorted(up, es)
    ensures WeaklySorted(up, es)
  {
    hide Key, Less;
    forall i, j | 0 <= i < j < |es| ensures !Less(Key(up, es[j]), Key(up, es[i])) {
      LessIsNotEqual(Key(up, es[i]), Key(up, es[j]));
    }
  }

  /** What one name has after the merge: an entry of the set takes the place of the first process entry. */
  function NamedMerged(up: Casing, es: seq<string>, ps: seq<string>, k: string): seq<string> {
    var ours, theirs := Named(up, es, k), Named(up, ps, k);
    ours + (if ours != [] && theirs != [] then theirs[1..] else theirs)
  }

  lemma {:induction false} NamedOnly(up: Casing, e: string, es: seq<string>, k: string)
    requires Sorted(up, [e] + es)
    ensures Key(up, e) == k ==> Named(up, es, k) == []
  {
    hide Key, Compare;
    if Key(up, e) == k {
      forall i | 0 <= i < |es| ensures Key(up, es[i]) != k {
        assert Less(Key(up, ([e] + es)[0]), Key(up, ([e] + es)[i + 1]));
        LessIsNotEqual(k, Key(up, es[i]));
      }
      NoneNamed(up, es, k);
    }
  }

  lemma NamedNotBefore(up: Casing, e: string, ps: seq<string>, k: string)
    requires WeaklySorted(up, ps) && ps != [] && Less(Key(up, e), Key(up, ps[0]))
    ensures Key(up, e) == k ==> Named(up, ps, k) == []
  {
    hide Key, Compare;
    if Key(up, e) == k {
      BeforeAll(up, k, ps);
      forall i | 0 <= i < |ps| ensures Key(up, ps[i]) != k {
        LessIsNotEqual(k, Key(up, ps[i]));
      }
      NoneNamed(up, ps, k);
    }
  }

  lemma WeakRest(up: Casing, ps: seq<string>)
    requires WeaklySorted(up, ps) && ps != []
    ensures WeaklySorted(up, ps[1..])
  {
  }

  lemma StrictRest(up: Casing, es: seq<string>)
    requires Sorted(up, es) && es != []
    ensures Sorted(up, es[1..])
  {
  }

  /** No entry is lost or added, but for the one process entry that an entry of the set replaces. */
  lemma {:induction false} MergedNames(up: Casing, es: seq<string>, ps: seq<string>, k: string)
    requires Sorted(up, es) && WeaklySorted(up, ps)
    ensures Named(up, Merge(up, es, ps), k) == NamedMerged(up, es, ps, k)
    decreases |es| + |ps|
  {
    hide Sorted, WeaklySorted, Key, Compare;
    if es != [] && ps != [] {
      assert es == [es[0]] + es[1..] && ps == [ps[0]] + ps[1..];
      StrictRest(up, es);
      WeakRest(up, ps);
      NamedFirst(up, es[0], es[1..], k);
      NamedFirst(up, ps[0], ps[1..], k);
      NamedOnly(up, es[0], es[1..], k);
      CompareAntisymmetric(Key(up, es[0]), Key(up, ps[0]));
      if CompareNames(up, es[0], ps[0]) < 0 {
        NamedNotBefore(up, es[0], ps, k);
        MergedNames(up, es[1..], ps, k);
        NamedFirst(up, es[0], Merge(up, es[1..], ps), k);
      } else if CompareNames(up, es[0], ps[0]) == 0 {
        MergedNames(up, es[1..], ps[1..], k);
        NamedFirst(up, es[0], Merge(up, es[1..], ps[1..]), k);
      } else {
        SortedIsWeak(up, es);
        NamedNotBefore(up, ps[0], es, k);
        MergedNames(up, es, ps[1..], k);
        NamedFirst(up, ps[0], Merge(up, es, ps[1..]), k);
      }
    }
  }

  /** The set's entry of a name stands alone exactly if the process has no second entry of that name. */
  lemma ReplacesExactly(up: Casing, es: seq<string>, ps: seq<string>, k: string)
    requires Sorted(up, es) && WeaklySorted(up, ps) && Named(up, es, k) != []
    ensures Named(up, Merge(up, es, ps), k) == Named(up, es, k) <==> |Named(up, ps, k)| <= 1
  {
    hide Sorted, WeaklySorted, Merge, Named;
    MergedNames(up, es, ps, k);
  }

  lemma {:induction false} MergeElements(up: Casing, es: seq<string>, ps: seq<string>)
    ensures forall e :: e in Merge(up, es, ps) ==> e in es || e in ps
    decreases |es| + |ps|
  {
    hide CompareNames;
    if es != [] && ps != [] {
      MergeElements(up, es[1..], ps);
      MergeElements(up, es[1..], ps[1..]);
      MergeElements(up, es, ps[1..]);
    }
  }

  lemma WeakFirst(up: Casing, e: string, es: seq<string>)
    requires WeaklySorted(up, es) && forall x :: x in es ==> !Less(Key(up, x), Key(up, e))
    ensures WeaklySorted(up, [e] + es)
  {
    hide Key, Less;
    var l := [e] + es;
    forall i, j | 0 <= i < j < |l| ensures !Less(Key(up, l[j]), Key(up, l[i])) {
      assert l[j] == es[j - 1];
      if i > 0 { assert l[i] == es[i - 1]; }
    }
  }

  lemma NotBeforeFirst(up: Casing, k: string, ps: seq<string>)
    requires WeaklySorted(up, ps) && (ps == [] || !Less(Key(up, ps[0]), k))
    ensures forall x :: x in ps ==> !Less(Key(up, x), k)
  {
    hide Key, Compare;
    forall x | x in ps ensures !Less(Key(up, x), k) {
      var i :| 0 <= i < |ps| && ps[i] == x;
      var first := Key(up, ps[0]);
      CompareAntisymmetric(first, Key(up, x));
      CompareAntisymmetric(first, k);
      if Less(Key(up, x), k) && first != k && i > 0 {
        LessTransitive(Key(up, x), k, first);
      }
    }
  }

  /** The merged block is sorted by name. */
  lemma {:induction false} MergedSorted(up: Casing, es: seq<string>, ps: seq<string>)
    requires WeaklySorted(up, es) && WeaklySorted(up, ps)
    ensures WeaklySorted(up, Merge(up, es, ps))
    decreases |es| + |ps|
  {
    hide WeaklySorted, Key, Compare;
    if es != [] && ps != [] {
      WeakRest(up, es);
      WeakRest(up, ps);
      var ours, theirs := Key(up, es[0]), Key(up, ps[0]);
      CompareAntisymmetric(ours, theirs);
      NotLess(ours);
      NotLess(theirs);
      NotBeforeFirst(up, ours, es);
      NotBeforeFirst(up, theirs, ps);
      if CompareNames(up, es[0], ps[0]) <= 0 {
        NotBeforeFirst(up, ours, ps);
        MergedSorted(up, es[1..], ps);
        MergedSorted(up, es[1..], ps[1..]);
        MergeElements(up, es[1..], ps);
        MergeElements(up, es[1..], ps[1..]);
        WeakFirst(up, es[0], Merge(up, es[1..], if CompareNames(up, es[0], ps[0]) < 0 then ps else ps[1..]));
      } else {
        NotBeforeFirst(up, theirs, es);
        MergedSorted(up, es, ps[1..]);
        MergeElements(up, es, ps[1..]);
        WeakFirst(up, ps[0], Merge(up, es, ps[1..]));
      }
    }
  }

  lemma {:induction false} MergedAfter(up: Casing, k: string, es: seq<string>, ps: seq<string>)
    requires AllAfter(up, k, es) && AllAfter(up, k, ps)
    ensures AllAfter(up, k, Merge(up, es, ps))
  {
    hide Key, Less, Merge;
    MergeElements(up, es, ps);
    var r := Merge(up, es, ps);
    forall i | 0 <= i < |r| ensures Less(k, Key(up, r[i])) {
      assert r[i] in r;
    }
  }

  lemma MapFirst(up: Casing, e: string, es: seq<string>)
    ensures AsMap(up, [e] + es) == AsMap(up, es)[Key(up, e) := e]
  {
    assert ([e] + es)[1..] == es;
  }

  lemma AfterIsNotIn(up: Casing, k: string, es: seq<string>)
    requires AllAfter(up, k, es)
    ensures k !in AsMap(up, es)
  {
    hide Key, Less;
    MapKeys(up, es);
    NotLess(k);
  }

  /** If no name occurs twice on either side, the merge is the process environment overridden by the set. */
  lemma {:induction false} MergeOverrides(up: Casing, es: seq<string>, ps: seq<string>)
    requires Sorted(up, es) && Sorted(up, ps)
    ensures Sorted(up, Merge(up, es, ps))
    ensures AsMap(up, Merge(up, es, ps)) == AsMap(up, ps) + AsMap(up, es)
    decreases |es| + |ps|
  {
    hide Sorted, AllAfter, Key, Compare, AsMap;
    MapEmpty(up);
    if es != [] && ps != [] {
      var ours, theirs := Key(up, es[0]), Key(up, ps[0]);
      CompareAntisymmetric(ours, theirs);
      SortedSplit(up, es);
      SortedSplit(up, ps);
      assert es == [es[0]] + es[1..] && ps == [ps[0]] + ps[1..];
      MapFirst(up, es[0], es[1..]);
      MapFirst(up, ps[0], ps[1..]);
      if CompareNames(up, es[0], ps[0]) < 0 {
        AfterFirst(up, ours, ps);
        MergeOverrides(up, es[1..], ps);
        MergedAfter(up, ours, es[1..], ps);
        PutFirst(up, es[0], Merge(up, es[1..], ps));
      } else if CompareNames(up, es[0], ps[0]) == 0 {
        MergeOverrides(up, es[1..], ps[1..]);
        MergedAfter(up, ours, es[1..], ps[1..]);
        PutFirst(up, es[0], Merge(up, es[1..], ps[1..]));
      } else {
        AfterFirst(up, theirs, es);
        AfterIsNotIn(up, theirs, es);
        MergeOverrides(up, es, ps[1..]);
        MergedAfter(up, theirs, es, ps[1..]);
        PutFirst(up, ps[0], Merge(up, es, ps[1..]));
      }
    }
  }

  lemma MapEmpty(up: Casing)
    ensures AsMap(up, []) == map[]
  {
  }

  lemma PutFirst(up: Casing, e: string, es: seq<string>)
    requires Sorted(up, es) && AllAfter(up, Key(up, e), es)
    ensures Sorted(up, [e] + es) && AsMap(up, [e] + es) == AsMap(up, es)[Key(up, e) := e]
  {
    hide Sorted, AllAfter, Key, AsMap;
    SortedFirst(up, e, es);
    MapFirst(up, e, es);
  }

  // Blocks of NUL-terminated strings

  /** An entry is a string that is not empty and holds no NUL. */
  predicate Proper(es: seq<string>) {
    forall i :: 0 <= i < |es| ==> es[i] != "" && '\0' !in es[i]
  }

  function Chars(es: seq<string>): string {
    if es == [] then "" else es[0] + "\0" + Chars(es[1..])
  }

  function Block(es: seq<string>): string {
    Chars(es) + "\0"
  }

  /** The strings before the first empty one. */
  function Unblock(s: string): seq<string>
    decreases |s|
  {
    var n := After(s, '\0');
    if n <= 1 then [] else [s[..n - 1]] + Unblock(s[n..])
  }

  lemma UnblockFirst(entry: string, rest: string)
    requires entry != "" && '\0' !in entry
    ensures Unblock(entry + "\0" + rest) == [entry] + Unblock(rest)
  {
    hide After;
    var s, n := entry + "\0" + rest, |entry| + 1;
    assert s[..n - 1] == entry && s[n..] == rest && s[n - 1] == '\0';
    AfterUnique(s, '\0', n);
  }

  lemma UnblockNone(rest: string)
    ensures Unblock("\0" + rest) == []
  {
    AfterUnique("\0" + rest, '\0', 1);
  }

  /** A reader of the block finds the entries. */
  lemma {:induction false} UnblockBlock(es: seq<string>, rest: string)
    requires Proper(es)
    ensures Unblock(Block(es) + rest) == es
  {
    hide Unblock;
    if es == [] {
      assert Block(es) + rest == "\0" + rest;
      UnblockNone(rest);
    } else {
      var more := Block(es[1..]) + rest;
      assert Block(es) + rest == es[0] + "\0" + more;
      UnblockFirst(es[0], more);
      UnblockBlock(es[1..], rest);
    }
  }

  predicate EndsInTwoNuls(s: string) {
    |s| >= 2 && s[|s| - 2..] == "\0\0"
  }

  /** The block ends in two NULs exactly if it has an entry; an empty block is a single NUL. */
  lemma {:induction false} DoublyTerminated(es: seq<string>)
    ensures EndsInTwoNuls(Block(es)) <==> es != []
  {
    if es != [] {
      DoublyTerminated(es[1..]);
      var b, c := Block(es), Block(es[1..]);
      assert b == es[0] + "\0" + c;
      if es[1..] == [] {
        assert c == "\0";
        assert b[|b| - 2..] == "\0\0";
      } else {
        assert b[|b| - 2..] == c[|c| - 2..];
      }
    }
  }

  lemma {:induction false} CharsJoin(a: seq<string>, b: seq<string>)
    ensures Chars(a + b) == Chars(a) + Chars(b)
  {
    if a == [] {
      assert a + b == b;
    } else {
      assert (a + b)[1..] == a[1..] + b;
      CharsJoin(a[1..], b);
    }
  }

  lemma CharsOne(es: seq<string>, e: string)
    ensures Chars(es + [e]) == Chars(es) + e + "\0"
  {
    CharsJoin(es, [e]);
    assert Chars([e]) == e + "\0" + Chars([e][1..]);
  }

  lemma {:induction false} MergedLength(up: Casing, es: seq<string>, ps: seq<string>)
    ensures |Chars(Merge(up, es, ps))| <= |Chars(es)| + |Chars(ps)|
    decreases |es| + |ps|
  {
    hide CompareNames;
    if es != [] && ps != [] {
      MergedLength(up, es[1..], ps);
      MergedLength(up, es[1..], ps[1..]);
      MergedLength(up, es, ps[1..]);
      assert Merge(up, es, ps)[0] == es[0] || Merge(up, es, ps)[0] == ps[0];
    }
  }

  // Writing the merged block

  /** Copies a string and its NUL to position p. */
  method CopyEntry(env: array<char>, p: nat, entry: string, ghost done: seq<string>)
    requires p + |entry| < env.Length && p == |Chars(done)| && env[..p] == Chars(done)
    modifies env
    ensures p + |entry| + 1 == |Chars(done + [entry])| && env[..p + |entry| + 1] == Chars(done + [entry])
  {
    hide Chars;
    forall k | 0 <= k < |entry| {
      env[p + k] := entry[k];
    }
    env[p + |entry|] := '\0';
    CharsOne(done, entry);
    assert env[..p + |entry| + 1] == env[..p] + entry + "\0";
  }

  /** The read position in the process block: before entry j, or at the NUL that ends the block. */
  ghost predicate Reading(e: seq<char>, ps: seq<string>, j: nat, pe: nat) {
    Proper(ps) && Block(ps) <= e && j <= |ps| && pe == |Chars(ps[..j])|
  }

  lemma ReadingStarts(e: seq<char>, ps: seq<string>)
    requires Proper(ps) && Block(ps) <= e
    ensures Reading(e, ps, 0, 0)
  {
  }

  lemma ReadEntry(e: seq<char>, ps: seq<string>, j: nat, pe: nat)
    requires Reading(e, ps, j, pe)
    ensures pe < |e| && (e[pe] == '\0' <==> j == |ps|)
    ensures j < |ps| ==> CString(e[pe..]) == ps[j] && Reading(e, ps, j + 1, pe + |ps[j]| + 1)
  {
    CharsJoin(ps[..j], ps[j..]);
    assert ps[..j] + ps[j..] == ps;
    var rest := Chars(ps[j..]) + "\0";
    assert Block(ps) == Chars(ps[..j]) + rest;
    assert e[pe..][..|rest|] == rest;
    if j < |ps| {
      EntryHead(e[pe..], ps[j], ps[j..]);
      CharsOne(ps[..j], ps[j]);
      assert ps[..j + 1] == ps[..j] + [ps[j]];
    }
  }

  lemma EntryHead(buf: seq<char>, entry: string, es: seq<string>)
    requires es != [] && es[0] == entry && entry != "" && '\0' !in entry && Chars(es) <= buf
    ensures buf[0] != '\0' && CString(buf) == entry
  {
    assert Chars(es)[..|entry|] == entry && Chars(es)[|entry|] == '\0';
    assert buf[..|entry|] == entry && buf[|entry|] == '\0';
    CStringEnds(buf, |entry|);
  }

  /** The entries done, followed by the merge of what is left, make up the whole merge, which fits. */
  ghost predicate Merging(up: Casing, es: seq<string>, ps: seq<string>, i: nat, j: nat, done: seq<string>) {
    i <= |es| && j <= |ps| && done + Merge(up, es[i..], ps[j..]) == Merge(up, es, ps)
  }

  lemma MergingStarts(up: Casing, es: seq<string>, ps: seq<string>)
    ensures Merging(up, es, ps, 0, 0, [])
  {
    assert es[0..] == es && ps[0..] == ps;
  }

  lemma MergingNext(up: Casing, es: seq<string>, ps: seq<string>, i: nat, j: nat, done: seq<string>)
    requires Merging(up, es, ps, i, j, done)
    ensures i < |es| && (j == |ps| || CompareNames(up, es[i], ps[j]) < 0) ==> Merging(up, es, ps, i + 1, j, done + [es[i]])
    ensures i < |es| && j < |ps| && CompareNames(up, es[i], ps[j]) == 0 ==> Merging(up, es, ps, i + 1, j + 1, done + [es[i]])
    ensures j < |ps| && (i == |es| || CompareNames(up, es[i], ps[j]) > 0) ==> Merging(up, es, ps, i, j + 1, done + [ps[j]])
  {
    hide CompareNames;
    if i < |es| { assert es[i..] == [es[i]] + es[i + 1..]; }
    if j < |ps| { assert ps[j..] == [ps[j]] + ps[j + 1..]; }
    OneMore(done, Merge(up, es[i..], ps[j..]));
    if i == |es| && j < |ps| {
      assert Merge(up, es[i..], ps[j..]) == ps[j..] && Merge(up, es[i..], ps[j + 1..]) == ps[j + 1..];
    }
  }

  lemma OneMore(done: seq<string>, rest: seq<string>)
    ensures rest != [] ==> done + rest == done + [rest[0]] + rest[1..]
  {
  }

  lemma {:induction false} Fits(up: Casing, es: seq<string>, ps: seq<string>, i: nat, j: nat, done: seq<string>)
    requires Merging(up, es, ps, i, j, done)
    ensures |Chars(done)| <= |Chars(es)| + |Chars(ps)|
  {
    MergedLength(up, es, ps);
    CharsJoin(done, Merge(up, es[i..], ps[j..]));
  }

  /** Copies the next entry of the merge. */
  method AddEntry(env: array<char>, p: nat, entry: string, ghost done: seq<string>,
                  ghost up: Casing, ghost es: seq<string>, ghost ps: seq<string>, ghost i: nat, ghost j: nat)
    requires env.Length == |Chars(es)| + |Block(ps)| && p == |Chars(done)| && p <= env.Length && env[..p] == Chars(done)
    requires Merging(up, es, ps, i, j, done + [entry])
    modifies env
    ensures p + |entry| + 1 == |Chars(done + [entry])| <= env.Length && env[..p + |entry| + 1] == Chars(done + [entry])
  {
    hide Chars, Merging;
    Fits(up, es, ps, i, j, done + [entry]);
    CharsOne(done, entry);
    CopyEntry(env, p, entry, done);
  }

  lemma MergingEnds(up: Casing, es: seq<string>, ps: seq<string>, done: seq<string>)
    requires Merging(up, es, ps, |es|, |ps|, done)
    ensures done == Merge(up, es, ps)
  {
    assert es[|es|..] == [] && ps[|ps|..] == [] && done + [] == done;
  }

  /** The length of the process block, found by walking over its entries. */
  method BlockLength(e: array<char>, ghost ps: seq<string>) returns (len: nat)
    requires Block(ps) <= e[..] && Proper(ps)
    ensures len == |Block(ps)|
  {
    hide Block, Reading, CString;
    ghost var j := 0;
    var pe: nat := 0;
    ReadingStarts(e[..], ps);
    ReadEntry(e[..], ps, 0, 0);
    while e[pe] != '\0'
      invariant j <= |ps| && pe < e.Length && (e[pe] == '\0' <==> j == |ps|) && Reading(e[..], ps, j, pe)
      decreases |ps| - j
    {
      ReadEntry(e[..], ps, j, pe);
      assert e[pe..] == e[..][pe..];
      pe := pe + |CString(e[pe..])| + 1;
      j := j + 1;
      ReadEntry(e[..], ps, j, pe);
    }
    ReadAll(e[..], ps, pe);
    len := pe + 1;
  }

  /** The length of the list's entries, each with a NUL. */
  method ListLength(head: Item?, ghost items: seq<Item>) returns (len: nat)
    requires List(head, items)
    ensures len == |Chars(Entries(items))|
  {
    hide Chars, List;
    len := 0;
    var item := head;
    ghost var i := 0;
    ghost var es := Entries(items);
    assert es[..0] == [];
    NoChars();
    FirstItem(head, items);
    while item != null
      invariant At(items, i, item) && len == |Chars(es[..i])|
      decreases |items| - i
    {
      Follow(head, items, i);
      CharsOne(es[..i], es[i]);
      assert es[..i + 1] == es[..i] + [es[i]];
      len := len + |item.nameval| + 1;
      item := item.next;
      i := i + 1;
    }
    assert es[..i] == es;
  }

  lemma FirstItem(head: Item?, items: seq<Item>)
    requires List(head, items)
    ensures At(items, 0, head)
  {
  }

  lemma NoChars()
    ensures Chars([]) == ""
  {
  }

  lemma ReadAll(e: seq<char>, ps: seq<string>, pe: nat)
    requires Reading(e, ps, |ps|, pe)
    ensures pe + 1 == |Block(ps)|
  {
    assert ps[..|ps|] == ps;
  }

  /** The cursors of the merge: es[i] and ps[j] are next to be read, `done` is written up to p. */
  ghost predicate Cursors(up: Casing, es: seq<string>, ps: seq<string>, e: seq<char>, i: nat, j: nat, pe: nat,
                          done: seq<string>) {
    Merging(up, es, ps, i, j, done) && Reading(e, ps, j, pe) && i <= |es| && j <= |ps|
    && pe < |e| && (e[pe] == '\0' <==> j == |ps|)
  }

  lemma TakeOurs(up: Casing, es: seq<string>, ps: seq<string>, e: seq<char>, i: nat, j: nat, pe: nat, done: seq<string>)
    requires Cursors(up, es, ps, e, i, j, pe, done) && i < |es| && (j == |ps| || CompareNames(up, es[i], ps[j]) < 0)
    ensures Cursors(up, es, ps, e, i + 1, j, pe, done + [es[i]])
  {
    hide Merging, Reading, CompareNames;
    MergingNext(up, es, ps, i, j, done);
  }

  lemma TakeBoth(up: Casing, es: seq<string>, ps: seq<string>, e: seq<char>, i: nat, j: nat, pe: nat, done: seq<string>)
    requires Cursors(up, es, ps, e, i, j, pe, done) && i < |es| && j < |ps| && CompareNames(up, es[i], ps[j]) == 0
    ensures Cursors(up, es, ps, e, i + 1, j + 1, pe + |ps[j]| + 1, done + [es[i]])
  {
    hide Merging, Reading, CompareNames;
    MergingNext(up, es, ps, i, j, done);
    ReadEntry(e, ps, j, pe);
    ReadEntry(e, ps, j + 1, pe + |ps[j]| + 1);
  }

  lemma TakeTheirs(up: Casing, es: seq<string>, ps: seq<string>, e: seq<char>, i: nat, j: nat, pe: nat, done: seq<string>)
    requires Cursors(up, es, ps, e, i, j, pe, done) && j < |ps| && (i == |es| || CompareNames(up, es[i], ps[j]) > 0)
    ensures Cursors(up, es, ps, e, i, j + 1, pe + |ps[j]| + 1, done + [ps[j]])
  {
    hide Merging, Reading, CompareNames;
    MergingNext(up, es, ps, i, j, done);
    ReadEntry(e, ps, j, pe);
    ReadEntry(e, ps, j + 1, pe + |ps[j]| + 1);
  }

  lemma EntryAt(up: Casing, es: seq<string>, ps: seq<string>, e: seq<char>, i: nat, j: nat, pe: nat, done: seq<string>)
    requires Cursors(up, es, ps, e, i, j, pe, done)
    ensures pe < |e| && i <= |es| && j <= |ps| && (e[pe] == '\0' <==> j == |ps|) && Merging(up, es, ps, i, j, done)
    ensures j < |ps| ==> CString(e[pe..]) == ps[j]
  {
    hide Merging, Reading;
    ReadEntry(e, ps, j, pe);
  }

  lemma CursorsStart(up: Casing, es: seq<string>, ps: seq<string>, e: seq<char>)
    requires Proper(ps) && Block(ps) <= e
    ensures Cursors(up, es, ps, e, 0, 0, 0, [])
  {
    hide Merging, Reading;
    MergingStarts(up, es, ps);
    ReadingStarts(e, ps);
    ReadEntry(e, ps, 0, 0);
  }

  /** The position after the merge loops: what has been written is the whole merge. */
  ghost predicate Filled(env: seq<char>, p: nat, done: seq<string>) {
    p == |Chars(done)| && p <= |env| && env[..p] == Chars(done)
  }

  method AddFilled(env: array<char>, p: nat, entry: string, ghost done: seq<string>,
                   ghost up: Casing, ghost es: seq<string>, ghost ps: seq<string>, ghost i: nat, ghost j: nat)
    returns (q: nat)
    requires env.Length == |Chars(es)| + |Block(ps)| && Filled(env[..], p, done)
    requires Merging(up, es, ps, i, j, done + [entry])
    modifies env
    ensures q == p + |entry| + 1 && Filled(env[..], q, done + [entry])
  {
    hide Chars, Merging;
    assert env[..p] == env[..][..p];
    AddEntry(env, p, entry, done, up, es, ps, i, j);
    q := p + |entry| + 1;
    assert env[..q] == env[..][..q];
  }

  /** One step of the merge of two entries that are both there. */
  method MergeStep(up: Casing, env: array<char>, e: array<char>, item: Item, p: nat, pe: nat,
                   ghost es: seq<string>, ghost ps: seq<string>, ghost i: nat, ghost j: nat, ghost done: seq<string>)
    returns (cmp: int, q: nat, qe: nat, ghost more: seq<string>)
    requires env != e && env.Length == |Chars(es)| + |Block(ps)|
    requires Cursors(up, es, ps, e[..], i, j, pe, done) && Filled(env[..], p, done)
    requires i < |es| && es[i] == item.nameval && j < |ps|
    modifies env
    ensures Filled(env[..], q, more)
    ensures Cursors(up, es, ps, e[..], if cmp <= 0 then i + 1 else i, if cmp >= 0 then j + 1 else j, qe, more)
  {
    hide Cursors, CompareNames, Chars, Block;
    ghost var all := e[..];
    EntryAt(up, es, ps, all, i, j, pe, done);
    assert e[pe..] == all[pe..];
    var len := |CString(e[pe..])| + 1;
    cmp := CompareNames(up, item.nameval, CString(e[pe..]));
    qe := if cmp >= 0 then pe + len else pe;
    if cmp <= 0 {
      more := done + [es[i]];
      if cmp < 0 { TakeOurs(up, es, ps, all, i, j, pe, done); } else { TakeBoth(up, es, ps, all, i, j, pe, done); }
      EntryAt(up, es, ps, all, i + 1, if cmp == 0 then j + 1 else j, qe, more);
      q := AddFilled(env, p, item.nameval, done, up, es, ps, i + 1, if cmp == 0 then j + 1 else j);
    } else {
      more := done + [ps[j]];
      TakeTheirs(up, es, ps, all, i, j, pe, done);
      EntryAt(up, es, ps, all, i, j + 1, qe, more);
      q := AddFilled(env, p, CString(e[pe..]), done, up, es, ps, i, j + 1);
    }
    assert e[..] == all;
  }

  /** The entries that are left of the list, when the process block has been read to its end. */
  method AddOurs(up: Casing, env: array<char>, e: array<char>, head: Item?, item0: Item?, p0: nat, pe: nat,
                 ghost items: seq<Item>, ghost ps: seq<string>, ghost i0: nat, ghost done0: seq<string>)
    returns (p: nat, ghost done: seq<string>)
    requires List(head, items) && At(items, i0, item0) && env != e
    requires env.Length == |Chars(Entries(items))| + |Block(ps)|
    requires Cursors(up, Entries(items), ps, e[..], i0, |ps|, pe, done0) && Filled(env[..], p0, done0)
    modifies env
    ensures Filled(env[..], p, done) && Cursors(up, Entries(items), ps, e[..], |items|, |ps|, pe, done)
  {
    hide Cursors, CompareNames, Chars, Block, List;
    ghost var all, es, i := e[..], Entries(items), i0;
    var item := item0;
    p, done := p0, done0;
    while item != null
      invariant List(head, items) && At(items, i, item) && e[..] == all
      invariant Cursors(up, es, ps, all, i, |ps|, pe, done) && Filled(env[..], p, done)
      decreases |items| - i
    {
      Follow(head, items, i);
      TakeOurs(up, es, ps, all, i, |ps|, pe, done);
      EntryAt(up, es, ps, all, i + 1, |ps|, pe, done + [es[i]]);
      p := AddFilled(env, p, item.nameval, done, up, es, ps, i + 1, |ps|);
      done := done + [es[i]];
      item := item.next;
      i := i + 1;
    }
  }

  /** The entries that are left of the process block, when the list has been read to its end. */
  method AddTheirs(up: Casing, env: array<char>, e: array<char>, p0: nat, pe0: nat,
                   ghost es: seq<string>, ghost ps: seq<string>, ghost j0: nat, ghost done0: seq<string>)
    returns (p: nat, pe: nat, ghost done: seq<string>)
    requires env != e && env.Length == |Chars(es)| + |Block(ps)|
    requires Cursors(up, es, ps, e[..], |es|, j0, pe0, done0) && Filled(env[..], p0, done0)
    modifies env
    ensures Filled(env[..], p, done) && Cursors(up, es, ps, e[..], |es|, |ps|, pe, done)
  {
    hide Cursors, CompareNames, Chars, Block, CString, Filled;
    ghost var all, j := e[..], j0;
    p, pe, done := p0, pe0, done0;
    EntryAt(up, es, ps, all, |es|, j, pe, done);
    while e[pe] != '\0'
      invariant pe < e.Length && j <= |ps| && (e[pe] == '\0' <==> j == |ps|) && e[..] == all
      invariant Cursors(up, es, ps, all, |es|, j, pe, done) && Filled(env[..], p, done)
      decreases |ps| - j
    {
      EntryAt(up, es, ps, all, |es|, j, pe, done);
      assert e[pe..] == all[pe..];
      var entry := CString(e[pe..]);
      assert entry == ps[j];
      var len := |entry| + 1;
      TakeTheirs(up, es, ps, all, |es|, j, pe, done);
      EntryAt(up, es, ps, all, |es|, j + 1, pe + len, done + [entry]);
      p := AddFilled(env, p, entry, done, up, es, ps, |es|, j + 1);
      pe := pe + len;
      done := done + [ps[j]];
      j := j + 1;
      assert e[..] == all;
    }
  }

  /**
   * The block for the new process holds the merged entries; what it was allocated suffices. It ends in two NULs as the new
   * process needs it, since neither of the callers passes an empty list.
   */
  method MergeEnvBlock(up: Casing, head: Item?, ghost items: seq<Item>, e: array<char>, ghost ps: seq<string>)
    returns (env: array<char>)
    requires List(head, items) && Block(ps) <= e[..] && Proper(ps)
    ensures fresh(env) && env.Length == |Chars(Entries(items))| + |Block(ps)|
    ensures Block(Merge(up, Entries(items), ps)) <= env[..]
    ensures EndsInTwoNuls(Block(Merge(up, Entries(items), ps))) <==> items != [] || ps != []
  {
    hide Cursors, CompareNames, Chars, Block, List, Merge, EndsInTwoNuls;
    ghost var es, i, j, done: seq<string> := Entries(items), 0, 0, [];
    var size := BlockLength(e, ps);
    var len := ListLength(head, items);
    env := new char[size + len];
    ghost var all := e[..];
    var item, p: nat, pe: nat := head, 0, 0;
    CursorsStart(up, es, ps, all);
    EntryAt(up, es, ps, all, i, j, pe, done);
    NoChars();
    FirstItem(head, items);
    while item != null && e[pe] != '\0'
      invariant At(items, i, item) && pe < e.Length && j <= |ps| && (e[pe] == '\0' <==> j == |ps|) && e[..] == all
      invariant List(head, items) && Cursors(up, es, ps, all, i, j, pe, done) && Filled(env[..], p, done)
      decreases |items| - i + |ps| - j
    {
      Follow(head, items, i);
      var cmp;
      cmp, p, pe, done := MergeStep(up, env, e, item, p, pe, es, ps, i, j, done);
      if cmp <= 0 {
        item := item.next;
        i := i + 1;
      }
      if cmp >= 0 {
        j := j + 1;
      }
      assert e[..] == all;
      EntryAt(up, es, ps, all, i, j, pe, done);
    }
    if item != null {
      p, done := AddOurs(up, env, e, head, item, p, pe, items, ps, i, done);
    } else {
      p, pe, done := AddTheirs(up, env, e, p, pe, es, ps, j, done);
    }
    assert e[..] == all;
    EntryAt(up, es, ps, all, |es|, |ps|, pe, done);
    MergingEnds(up, es, ps, done);
    Fits(up, es, ps, |es|, |ps|, done);
    BlockSize(ps);
    env[p] := '\0';
    BlockOf(env[..], p, done);
    MergeEmpty(up, es, ps);
    DoublyTerminated(Merge(up, es, ps));
  }

  lemma MergeEmpty(up: Casing, es: seq<string>, ps: seq<string>)
    ensures Merge(up, es, ps) == [] <==> es == [] && ps == []
  {
    hide CompareNames;
  }

  lemma BlockSize(ps: seq<string>)
    ensures |Block(ps)| == |Chars(ps)| + 1
  {
  }

  lemma BlockOf(env: seq<char>, p: nat, done: seq<string>)
    requires p < |env| && p == |Chars(done)| && env[..p] == Chars(done) && env[p] == '\0'
    ensures Block(done) <= env
  {
    assert env[..p + 1] == env[..p] + "\0";
  }
}
