/** The set of environment entries of a connection: a linked list, sorted by name. */
module EnvSet {
  import opened CStrings
  import opened EnvNames

  ghost predicate Sorted(up: Casing, es: seq<string>) {
    forall i, j :: 0 <= i < j < |es| ==> Less(Key(up, es[i]), Key(up, es[j]))
  }

  /** es with e in the place of an entry of its name, or at its sorted position. */
  function Inserted(up: Casing, es: seq<string>, e: string): seq<string> {
    if es == [] || CompareNames(up, e, es[0]) < 0 then [e] + es
    else if CompareNames(up, e, es[0]) == 0 then [e] + es[1..]
    else [es[0]] + Inserted(up, es[1..], e)
  }

  /** es without its first entry of that name. */
  function Deleted(up: Casing, es: seq<string>, name: string): seq<string> {
    if es == [] then []
    else if CompareNames(up, name, es[0]) == 0 then es[1..]
    else [es[0]] + Deleted(up, es[1..], name)
  }

  function AsMap(up: Casing, es: seq<string>): map<string, string> {
    if es == [] then map[] else AsMap(up, es[1..])[Key(up, es[0]) := es[0]]
  }

  lemma {:induction false} MapKeys(up: Casing, es: seq<string>)
    ensures forall k :: k in AsMap(up, es) <==> exists i :: 0 <= i < |es| && Key(up, es[i]) == k
  {
    hide Key;
    if es != [] {
      MapKeys(up, es[1..]);
      forall k ensures k in AsMap(up, es) <==> exists i :: 0 <= i < |es| && Key(up, es[i]) == k {
        if k in AsMap(up, es[1..]) {
          var i :| 0 <= i < |es[1..]| && Key(up, es[1..][i]) == k;
          assert Key(up, es[i + 1]) == k;
        }
        if i :| 0 < i < |es| && Key(up, es[i]) == k {
          assert Key(up, es[1..][i - 1]) == k;
        }
      }
    }
  }

  lemma SortedRest(up: Casing, es: seq<string>)
    requires Sorted(up, es) && es != []
    ensures Sorted(up, es[1..]) && Key(up, es[0]) !in AsMap(up, es[1..])
  {
    hide Key, Less;
    MapKeys(up, es[1..]);
    forall i | 0 <= i < |es[1..]| ensures Key(up, es[1..][i]) != Key(up, es[0]) {
      assert Less(Key(up, es[0]), Key(up, es[i + 1]));
      NotLess(Key(up, es[0]));
    }
  }

  lemma NotLess(a: string)
    ensures !Less(a, a)
  {
    CompareAntisymmetric(a, a);
  }

  /** Everything in es comes after k. */
  ghost predicate AllAfter(up: Casing, k: string, es: seq<string>) {
    forall i :: 0 <= i < |es| ==> Less(k, Key(up, es[i]))
  }

  lemma SortedFirst(up: Casing, e: string, es: seq<string>)
    requires Sorted(up, es) && AllAfter(up, Key(up, e), es)
    ensures Sorted(up, [e] + es)
  {
    hide Key, Less;
  }

  lemma AfterFirst(up: Casing, k: string, es: seq<string>)
    requires Sorted(up, es) && (es == [] || Less(k, Key(up, es[0])))
    ensures AllAfter(up, k, es)
  {
    forall i | 0 <= i < |es| ensures Less(k, Key(up, es[i])) {
      if i > 0 { LessTransitive(k, Key(up, es[0]), Key(up, es[i])); }
    }
  }

  lemma SortedSplit(up: Casing, es: seq<string>)
    requires Sorted(up, es) && es != []
    ensures Sorted(up, es[1..]) && AllAfter(up, Key(up, es[0]), es[1..])
  {
    hide Key, Less;
  }

  /** Inserting keeps the order and updates the map. */
  lemma {:induction false} InsertedUpdates(up: Casing, es: seq<string>, e: string)
    requires Sorted(up, es)
    ensures Sorted(up, Inserted(up, es, e))
    ensures AsMap(up, Inserted(up, es, e)) == AsMap(up, es)[Key(up, e) := e]
    ensures forall k :: Less(k, Key(up, e)) && AllAfter(up, k, es) ==> AllAfter(up, k, Inserted(up, es, e))
  {
    hide Key, Compare;
    if es == [] || CompareNames(up, e, es[0]) < 0 {
      AfterFirst(up, Key(up, e), es);
      SortedFirst(up, e, es);
    } else {
      SortedSplit(up, es);
      CompareAntisymmetric(Key(up, e), Key(up, es[0]));
      assert es == [es[0]] + es[1..];
      if CompareNames(up, e, es[0]) == 0 {
        SortedFirst(up, e, es[1..]);
      } else {
        InsertedUpdates(up, es[1..], e);
        SortedFirst(up, es[0], Inserted(up, es[1..], e));
      }
    }
  }

  /** Deleting keeps the order and removes the name from the map. */
  lemma {:induction false} DeletedUpdates(up: Casing, es: seq<string>, name: string)
    requires Sorted(up, es)
    ensures Sorted(up, Deleted(up, es, name))
    ensures AsMap(up, Deleted(up, es, name)) == AsMap(up, es) - {Key(up, name)}
    ensures forall k :: AllAfter(up, k, es) ==> AllAfter(up, k, Deleted(up, es, name))
  {
    hide Key, Compare;
    if es != [] {
      SortedSplit(up, es);
      SortedRest(up, es);
      CompareAntisymmetric(Key(up, name), Key(up, es[0]));
      assert es == [es[0]] + es[1..];
      assert forall k :: AllAfter(up, k, es) ==> AllAfter(up, k, es[1..]);
      if CompareNames(up, name, es[0]) != 0 {
        DeletedUpdates(up, es[1..], name);
        SortedFirst(up, es[0], Deleted(up, es[1..], name));
      }
    }
  }

  class Item {
    const nameval: string
    var next: Item?

    constructor (nameval: string)
      ensures this.nameval == nameval && next == null
    {
      this.nameval, next := nameval, null;
    }
  }

  /** The list that starts at head consists of these items. */
  ghost predicate List(head: Item?, items: seq<Item>)
    reads items`next
  {
    (head == null <==> items == []) && (items != [] ==> head == items[0] && items[|items| - 1].next == null)
    && (forall i :: 0 < i < |items| ==> items[i - 1].next == items[i])
    && (forall i, j :: 0 <= i < j < |items| ==> items[i] != items[j])
  }

  function Entries(items: seq<Item>): (es: seq<string>)
    ensures |es| == |items|
  {
    seq(|items|, i requires 0 <= i < |items| => items[i].nameval)
  }

  /** The item at position i, or null at the end. */
  ghost predicate At(items: seq<Item>, i: nat, item: Item?) {
    i <= |items| && item == if i < |items| then items[i] else null
  }

  lemma Follow(head: Item?, items: seq<Item>, i: nat)
    requires List(head, items) && i < |items|
    ensures At(items, i + 1, items[i].next)
  {
  }

  lemma InsertedHere(up: Casing, es: seq<string>, e: string, j: nat)
    requires es != [] ==> CompareNames(up, e, es[0]) <= 0
    requires j == if es != [] && CompareNames(up, e, es[0]) == 0 then 1 else 0
    ensures Inserted(up, es, e) == [e] + es[j..]
  {
    assert es[0..] == es;
  }

  lemma {:induction false} InsertedAt(up: Casing, es: seq<string>, e: string, i: nat, j: nat)
    requires i <= |es| && forall k :: 0 <= k < i ==> CompareNames(up, e, es[k]) > 0
    requires i < |es| ==> CompareNames(up, e, es[i]) <= 0
    requires j == if i < |es| && CompareNames(up, e, es[i]) == 0 then i + 1 else i
    ensures Inserted(up, es, e) == es[..i] + [e] + es[j..]
  {
    hide CompareNames;
    if i == 0 {
      InsertedHere(up, es, e, j);
      assert es[..0] + [e] == [e];
    } else {
      InsertedAt(up, es[1..], e, i - 1, j - 1);
      assert es[1..][j - 1..] == es[j..];
      assert es[..i] == [es[0]] + es[1..][..i - 1];
      Regroup(es[0], es[1..][..i - 1], [e], es[j..]);
    }
  }

  lemma Regroup(x: string, a: seq<string>, b: seq<string>, c: seq<string>)
    ensures [x] + (a + b + c) == ([x] + a) + b + c
  {
  }

  lemma DeletedAt(up: Casing, es: seq<string>, name: string, i: nat)
    requires i <= |es| && forall j :: 0 <= j < i ==> CompareNames(up, name, es[j]) != 0
    requires i < |es| ==> CompareNames(up, name, es[i]) == 0
    ensures Deleted(up, es, name) == if i < |es| then es[..i] + es[i + 1..] else es
  {
    hide CompareNames;
    if es != [] && i > 0 {
      DeletedAt(up, es[1..], name, i - 1);
      assert es == [es[0]] + es[1..];
      assert i < |es| ==> es[..i] == [es[0]] + es[1..][..i - 1] && es[i + 1..] == es[1..][i..];
    } else if i < |es| {
      assert es[..0] + es[1..] == es[1..];
    }
  }

  /** Relinks the list around position i, where `item` replaces what stands between i and j. */
  lemma Relinked(items: seq<Item>, i: nat, j: nat, item: Item)
    requires i <= j <= |items|
    ensures Entries(items[..i] + [item] + items[j..]) == Entries(items)[..i] + [item.nameval] + Entries(items)[j..]
    ensures Entries(items[..i] + items[j..]) == Entries(items)[..i] + Entries(items)[j..]
  {
  }

  method ItemInsert(up: Casing, head: Item?, item: Item, ghost items: seq<Item>)
    returns (first: Item?, ghost now: seq<Item>)
    requires List(head, items) && item !in items
    modifies item, items
    ensures List(first, now) && forall x :: x in now ==> x in items || x == item
    ensures Entries(now) == Inserted(up, Entries(items), item.nameval)
  {
    hide CompareNames, Inserted;
    var tmp: Item?, prev: Item? := head, null;
    var cmp := -1;
    ghost var i := 0;
    ghost var es := Entries(items);
    while tmp != null
      invariant List(head, items) && At(items, i, tmp) && (if i == 0 then prev == null else prev == items[i - 1])
      invariant forall j :: 0 <= j < i ==> CompareNames(up, item.nameval, es[j]) > 0
      invariant cmp != 0
      decreases |items| - i
    {
      cmp := CompareNames(up, item.nameval, tmp.nameval);
      if cmp <= 0 {
        break;
      }
      Follow(head, items, i);
      prev := tmp;
      tmp := tmp.next;
      i := i + 1;
    }
    ghost var j := if cmp == 0 then i + 1 else i;
    InsertedAt(up, es, item.nameval, i, j);
    Relinked(items, i, j, item);
    if cmp == 0 {
      Follow(head, items, i);
      item.next := tmp.next;
    } else {
      item.next := tmp;
    }
    first := LinkBefore(head, item, prev, items, i, j);
    now := items[..i] + [item] + items[j..];
  }

  /** Links item, whose next item is set, in after prev, or at the start. */
  method LinkBefore(head: Item?, item: Item, prev: Item?, ghost items: seq<Item>, ghost i: nat, ghost j: nat)
    returns (first: Item?)
    requires List(head, items) && item !in items && i <= j <= |items|
    requires At(items, j, item.next) && (if i == 0 then prev == null else prev == items[i - 1])
    modifies items`next
    ensures List(first, items[..i] + [item] + items[j..])
  {
    ghost var now := items[..i] + [item] + items[j..];
    if prev != null {
      prev.next := item;
      first := head;
    } else {
      first := item;
    }
    forall k | 0 < k < |now| ensures now[k - 1].next == now[k] {
      if k == i + 1 { assert now[k] == items[j]; }
    }
    assert now[|now| - 1].next == null && now[0] == first;
  }

  /** Links what follows item, at position i, in after prev, or at the start. */
  method Unlink(head: Item?, item: Item, prev: Item?, ghost items: seq<Item>, ghost i: nat) returns (first: Item?)
    requires List(head, items) && i < |items| && item == items[i]
    requires if i == 0 then prev == null else prev == items[i - 1]
    modifies items`next
    ensures List(first, items[..i] + items[i + 1..])
  {
    ghost var now := items[..i] + items[i + 1..];
    Follow(head, items, i);
    if prev != null {
      prev.next := item.next;
      first := head;
    } else {
      first := item.next;
    }
    forall k | 0 < k < |now| ensures now[k - 1].next == now[k] {
      if k >= i { assert now[k] == items[k + 1]; }
    }
  }

  method ItemDelete(up: Casing, head: Item?, name: string, ghost items: seq<Item>)
    returns (first: Item?, ghost now: seq<Item>)
    requires List(head, items)
    modifies items
    ensures List(first, now) && forall x :: x in now ==> x in items
    ensures Entries(now) == Deleted(up, Entries(items), name)
  {
    hide CompareNames, Deleted;
    first, now := head, items;
    var item: Item?, prev: Item? := head, null;
    ghost var i := 0;
    ghost var es := Entries(items);
    while item != null
      invariant List(head, items) && At(items, i, item) && (if i == 0 then prev == null else prev == items[i - 1])
      invariant forall j :: 0 <= j < i ==> CompareNames(up, name, es[j]) != 0
      decreases |items| - i
    {
      Follow(head, items, i);
      if CompareNames(up, name, item.nameval) == 0 {
        DeletedAt(up, es, name, i);
        Relinked(items, i, i + 1, item);
        now := items[..i] + items[i + 1..];
        first := Unlink(head, item, prev, items, i);
        return;
      }
      prev := item;
      item := item.next;
      i := i + 1;
    }
    DeletedAt(up, es, name, i);
  }

  // The setenv messages of the server

  predicate IsNameChar(c: char) {
    'a' <= c <= 'z' || 'A' <= c <= 'Z' || '0' <= c <= '9' || c == '_'
  }

  predicate IsValidName(name: string) {
    name != "" && forall i :: 0 <= i < |name| ==> IsNameChar(name[i])
  }

  function WithoutBlanks(s: string): string {
    if s != "" && (s[0] == ' ' || s[0] == '\t') then WithoutBlanks(s[1..]) else s
  }

  datatype Update = Ignored | Rejected | Set(entry: string) | Unset(name: string)

  function SetenvWord(): string {
    "setenv "
  }

  function Prefix(): string {
    "OPENVPN_"
  }

  /** What a message asks for: the first blank ends the name. */
  function UpdateOf(msg: string): Update {
    if !(SetenvWord() <= msg) then Ignored
    else
      var rest := WithoutBlanks(msg[|SetenvWord()|..]);
      var nameval := Prefix() + rest;
      var n := After(nameval, ' ');
      if rest == "" then Rejected
      else if n > 0 then (if IsValidName(nameval[..n - 1]) then Set(nameval[n - 1 := '=']) else Rejected)
      else if IsValidName(nameval) then Unset(nameval)
      else Rejected
  }

  function Applied(up: Casing, es: seq<string>, msg: string): seq<string> {
    match UpdateOf(msg)
    case Set(entry) => Inserted(up, es, entry)
    case Unset(name) => Deleted(up, es, name)
    case _ => es
  }

  function AppliedAll(up: Casing, es: seq<string>, msgs: seq<string>): seq<string>
    decreases |msgs|
  {
    if msgs == [] then es else AppliedAll(up, Applied(up, es, msgs[0]), msgs[1..])
  }

  /** The same messages on a map from upper-cased names to entries. */
  function MapApplied(up: Casing, m: map<string, string>, msg: string): map<string, string> {
    match UpdateOf(msg)
    case Set(entry) => m[Key(up, entry) := entry]
    case Unset(name) => m - {Key(up, name)}
    case _ => m
  }

  function MapAppliedAll(up: Casing, m: map<string, string>, msgs: seq<string>): map<string, string>
    decreases |msgs|
  {
    if msgs == [] then m else MapAppliedAll(up, MapApplied(up, m, msgs[0]), msgs[1..])
  }

  lemma {:induction false} AppliedUpdates(up: Casing, es: seq<string>, msg: string)
    requires Sorted(up, es)
    ensures Sorted(up, Applied(up, es, msg)) && AsMap(up, Applied(up, es, msg)) == MapApplied(up, AsMap(up, es), msg)
  {
    hide Sorted, UpdateOf, AsMap, Inserted, Deleted, Key;
    match UpdateOf(msg)
    case Set(entry) => InsertedUpdates(up, es, entry);
    case Unset(name) => DeletedUpdates(up, es, name);
    case _ =>
  }

  /** After any messages the list is strictly sorted by name and is the map that the messages build. */
  lemma {:induction false} ListRefinesMap(up: Casing, es: seq<string>, msgs: seq<string>)
    requires Sorted(up, es)
    ensures Sorted(up, AppliedAll(up, es, msgs))
    ensures AsMap(up, AppliedAll(up, es, msgs)) == MapAppliedAll(up, AsMap(up, es), msgs)
    decreases |msgs|
  {
    hide Sorted, AsMap, Applied, MapApplied;
    if msgs != [] {
      AppliedUpdates(up, es, msgs[0]);
      ListRefinesMap(up, Applied(up, es, msgs[0]), msgs[1..]);
    }
  }

  lemma CutAt(name: string, value: string, c: char)
    requires c !in name
    ensures var s := name + [c] + value;
            After(s, c) == |name| + 1 && s[..|name|] == name && s[|name| := '='] == name + "=" + value
  {
    var s := name + [c] + value;
    assert s[..|name|] == name && s[|name|] == c;
    AfterUnique(s, c, |name| + 1);
    assert s[|name| := '='] == name + "=" + value;
  }

  /** A message without blanks before its name. */
  lemma UpdateOfMessage(rest: string)
    requires rest != "" && rest[0] != ' ' && rest[0] != '\t'
    ensures var nameval := Prefix() + rest;
            var n := After(nameval, ' ');
            UpdateOf(SetenvWord() + rest) == (
              if n > 0 then (if IsValidName(nameval[..n - 1]) then Set(nameval[n - 1 := '=']) else Rejected)
              else if IsValidName(nameval) then Unset(nameval)
              else Rejected)
  {
    hide After, IsValidName, SetenvWord, Prefix;
    assert WithoutBlanks(rest) == rest;
  }

  lemma SetEntry(full: string, value: string)
    requires IsValidName(full) && ' ' !in full && '=' !in full
    ensures var nameval := full + " " + value;
            var n := After(nameval, ' ');
            n > 0 && IsValidName(nameval[..n - 1]) && nameval[n - 1 := '='] == full + "=" + value
    ensures Name(full + "=" + value) == full
  {
    hide After, IsValidName;
    CutAt(full, value, ' ');
    CutAt(full, value, '=');
  }

  lemma Associate(a: string, b: string, c: string, d: string)
    ensures a + (b + c + d) == a + b + c + d
  {
  }

  /** A name with a value is set under the prefixed name. */
  lemma SetMeaning(name: string, value: string)
    requires IsValidName(name)
    ensures UpdateOf(SetenvWord() + (name + " " + value)) == Set(Prefix() + name + "=" + value)
    ensures Name(Prefix() + name + "=" + value) == Prefix() + name
  {
    assert IsNameChar(name[0]) && (name + " " + value)[0] == name[0];
    PrefixValid(name);
    hide After, UpdateOf, IsValidName, SetenvWord, Prefix, Name;
    SetEntry(Prefix() + name, value);
    UpdateOfMessage(name + " " + value);
    Associate(Prefix(), name, " ", value);
  }

  /** A name alone is unset. */
  lemma UnsetMeaning(name: string)
    requires IsValidName(name)
    ensures UpdateOf(SetenvWord() + name) == Unset(Prefix() + name)
  {
    assert IsNameChar(name[0]);
    PrefixValid(name);
    hide UpdateOf, IsValidName, SetenvWord, Prefix;
    UpdateOfMessage(name);
  }

  lemma PrefixValid(name: string)
    requires IsValidName(name)
    ensures IsValidName(Prefix() + name) && ' ' !in Prefix() + name && '=' !in Prefix() + name
  {
    assert |Prefix()| == 8;
    assert forall i :: 0 <= i < |Prefix()| ==> IsNameChar(Prefix()[i]);
    assert forall i :: |Prefix()| <= i < |Prefix() + name| ==> (Prefix() + name)[i] == name[i - |Prefix()|];
  }

  /** The environment entries of one connection; the list in memory is sorted. */
  class Environment {
    const up: Casing
    var head: Item?
    ghost var items: seq<Item>

    ghost predicate Valid()
      reads this, items
    {
      List(head, items) && Sorted(up, Contents())
    }

    ghost function Contents(): seq<string>
      reads this
    {
      Entries(items)
    }

    constructor (up: Casing)
      ensures Valid() && Contents() == [] && this.up == up
    {
      this.up, head, items := up, null, [];
    }

    method ProcessSetenv(msg: string)
      requires Valid()
      modifies this, items
      ensures Valid() && Contents() == Applied(up, old(Contents()), msg)
      ensures AsMap(up, Contents()) == MapApplied(up, AsMap(up, old(Contents())), msg)
      ensures forall x :: x in items ==> x in old(items) || fresh(x)
    {
      hide Inserted, Deleted, List, Sorted, AsMap, MapApplied, UpdateOf;
      AppliedUpdates(up, Contents(), msg);
      match UpdateOf(msg)
      case Set(entry) =>
        var item := new Item(entry);
        head, items := ItemInsert(up, head, item, items);
      case Unset(name) =>
        head, items := ItemDelete(up, head, name, items);
      case _ =>
    }
  }
}
