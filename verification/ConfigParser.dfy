/** Tokenizing a configuration line in place: one cursor reads `line`, one writes the tokens to `sline`. */
module ConfigParser {
  import opened CStrings
  import opened ConfigTokens

  const MAX_LINE_LENGTH: nat := 256
  const MAX_TOKENS: nat := 16

  function WithText(text: string, used: nat, r: Copy): Copy {
    match r
    case IllegalBackslash => r
    case RunsOn(rest, more) => RunsOn(text + rest, used + more)
    case Copy(rest, more) => Copy(text + rest, used + more)
  }

  lemma WithTextNext(text: string, used: nat, c: char, step: nat, r: Copy)
    ensures WithText(text, used, Prepended(c, step, r)) == WithText(text + [c], used + step, r)
  {
    if !r.IllegalBackslash? {
      assert text + ([c] + r.text) == text + [c] + r.text;
    }
  }

  lemma WithTokensNext(found: seq<string>, text: string, after: string, room: nat)
    ensures WithTokens(found, Followed(text, after, room))
         == if after == "" then Parsed(found + [text], NoComment) else WithTokens(found + [text], Tokens(after[1..], room))
  {
    if after != "" {
      var r := Tokens(after[1..], room);
      if !r.ParseError? {
        assert found + ([text] + r.tokens) == found + [text] + r.tokens;
      }
    }
  }

  /** text stands in buf at `start`, ended by a NUL before position `end`. */
  predicate TokenAt(buf: seq<char>, start: nat, text: string, end: nat) {
    '\0' !in text && start + |text| < end <= |buf| && buf[start..start + |text|] == text && buf[start + |text|] == '\0'
  }

  lemma TokenRead(buf: seq<char>, start: nat, text: string, end: nat)
    requires TokenAt(buf, start, text, end)
    ensures CString(buf[start..]) == text
  {
    var rest := buf[start..];
    assert rest[|text|] == '\0' && rest[..|text|] == text;
    CStringEnds(rest, |text|);
  }

  lemma TokenKept(buf: seq<char>, later: seq<char>, start: nat, text: string, end: nat, more: nat)
    requires TokenAt(buf, start, text, end) && end <= more <= |later| && |later| == |buf|
    requires forall k :: 0 <= k < end ==> later[k] == buf[k]
    ensures TokenAt(later, start, text, more)
  {
    assert later[start..start + |text|] == buf[start..start + |text|];
  }

  /** buf holds a line that ends at n, with a NUL. */
  predicate LineEndsAt(buf: seq<char>, n: nat) {
    n < |buf| && buf[n] == '\0' && '\0' !in buf[..n]
  }

  /** A second NUL follows the one that ends the line. */
  predicate NulFollows(buf: seq<char>, n: nat) {
    n + 1 < |buf| && buf[n + 1] == '\0'
  }

  lemma LineHasNoNul(buf: seq<char>, n: nat, k: nat)
    requires LineEndsAt(buf, n) && k <= n
    ensures buf[k] == '\0' <==> k == n
  {
    Absent(buf, '\0', n);
  }

  lemma {:induction false} CopyHasNoNul(s: string, delims: string)
    requires '\0' !in s
    ensures !CopyOf(s, delims).IllegalBackslash? ==> '\0' !in CopyOf(s, delims).text
  {
    if s == "" || s[0] in delims {
    } else if s[0] == '\\' {
      if |s| > 1 { CopyHasNoNul(s[2..], delims); }
    } else {
      CopyHasNoNul(s[1..], delims);
    }
  }

  lemma NoNulBetween(buf: seq<char>, n: nat, p: nat)
    requires LineEndsAt(buf, n) && p <= n
    ensures '\0' !in buf[p..n]
  {
    Absent(buf, '\0', n);
  }

  lemma CopyDone(s: string, delims: string)
    requires s == "" || s[0] in delims
    ensures CopyOf(s, delims) == Copy("", 0)
  {
  }

  lemma CopyPlain(s: string, delims: string)
    requires s != "" && s[0] !in delims && s[0] != '\\'
    ensures CopyOf(s, delims) == Prepended(s[0], 1, CopyOf(s[1..], delims))
  {
  }

  lemma CopyEscape(s: string, delims: string)
    requires s != "" && s[0] !in delims && s[0] == '\\'
    ensures CopyOf(s, delims)
         == if |s| == 1 then RunsOn("", 1) else if LegalEscape(s[1]) then Prepended(s[1], 2, CopyOf(s[2..], delims)) else IllegalBackslash
  {
  }

  /** What copy_token has written so far. */
  ghost predicate Copying(line: seq<char>, n: nat, out: seq<char>, p0: nat, s0: nat, p: nat, s: nat, delims: string) {
    LineEndsAt(line, n) && p0 <= p <= n && s0 <= s <= |out| && s - s0 <= p - p0
    && CopyOf(line[p0..n], delims) == WithText(out[s0..s], p - p0, CopyOf(line[p..n], delims))
  }

  lemma CopyingStarts(line: seq<char>, n: nat, out: seq<char>, p: nat, s: nat, delims: string)
    requires LineEndsAt(line, n) && p <= n && s <= |out|
    ensures Copying(line, n, out, p, s, p, s, delims)
  {
    var r := CopyOf(line[p..n], delims);
    if !r.IllegalBackslash? { assert "" + r.text == r.text; }
  }

  lemma CopyingNext(line: seq<char>, n: nat, out: seq<char>, p0: nat, s0: nat, p: nat, s: nat, delims: string,
                    step: nat, c: char)
    requires Copying(line, n, out, p0, s0, p, s, delims) && p < n && line[p] !in delims && s < |out|
    requires if line[p] == '\\' then p + 1 < n && LegalEscape(line[p + 1]) && c == line[p + 1] && step == 2
             else c == line[p] && step == 1
    ensures Copying(line, n, out[s := c], p0, s0, p + step, s + 1, delims)
  {
    hide CopyOf;
    var rest := line[p..n];
    if line[p] == '\\' {
      CopyEscape(rest, delims);
    } else {
      CopyPlain(rest, delims);
    }
    assert rest[step..] == line[p + step..n];
    WithTextNext(out[s0..s], p - p0, c, step, CopyOf(line[p + step..n], delims));
    assert out[s := c][s0..s + 1] == out[s0..s] + [c];
  }

  /** The cursors p and s after a copy r that began at p0 and s0. */
  ghost predicate Copied(line: seq<char>, n: nat, out: seq<char>, p0: nat, s0: nat, p: nat, s: nat, r: Copy) {
    p0 <= p < |line| && s0 <= s < |out| && s - s0 <= p - p0 && out[s] == '\0'
    && match r
       case IllegalBackslash => false
       case Copy(text, used) => p <= n && text == out[s0..s] && used == p - p0
       case RunsOn(text, _) => Overrun(line, n, out, s0, p, s, text)
  }

  /** The NUL at the end of the line has been copied after the text, and the one behind it is next. */
  ghost predicate Overrun(line: seq<char>, n: nat, out: seq<char>, s0: nat, p: nat, s: nat, text: string) {
    p == n + 1 < |line| && line[p] == '\0' && s0 < s <= |out| && out[s - 1] == '\0' && text == out[s0..s - 1]
  }

  method CopyToken(line: array<char>, sline: array<char>, ghost n: nat, p0: nat, s0: nat, delims: string)
    returns (ok: bool, p: nat, s: nat)
    requires line != sline && line.Length == sline.Length && LineEndsAt(line[..], n) && s0 <= p0 <= n
    requires CopyOf(line[p0..n], delims).RunsOn? ==> NulFollows(line[..], n)
    modifies sline
    ensures forall k :: 0 <= k < sline.Length && (k < s0 || (ok && k > s)) ==> sline[k] == old(sline[k])
    ensures ok <==> !CopyOf(line[p0..n], delims).IllegalBackslash?
    ensures ok ==> Copied(line[..], n, sline[..], p0, s0, p, s, CopyOf(line[p0..n], delims))
  {
    hide Copying, CopyOf, LineEndsAt, Overrun;
    ghost var before, all := sline[..], line[..];
    p, s := p0, s0;
    ghost var over := false;
    EndsInside(all, n);
    CopyingStarts(all, n, sline[..], p, s, delims);
    LineHasNoNul(all, n, p);
    while line[p] != '\0' && line[p] !in delims
      invariant p0 <= p <= n + 1 && p < line.Length && s0 <= s && s - s0 <= p - p0
      invariant line[p] == '\0' <==> p >= n
      invariant p > n <==> over
      invariant !over ==> Copying(all, n, sline[..], p0, s0, p, s, delims)
      invariant over ==> CopyOf(all[p0..n], delims).RunsOn?
      invariant over ==> Overrun(all, n, sline[..], s0, p, s, CopyOf(all[p0..n], delims).text)
      invariant forall k :: 0 <= k < sline.Length && (k < s0 || k >= s) ==> sline[k] == before[k]
      decreases n + 1 - p
    {
      LineHasNoNul(all, n, p + 1);
      if line[p] == '\\' && (LegalEscape(line[p + 1]) || line[p + 1] == '\0') {
        over := p + 1 == n;
        if over {
          RunsOver(all, n, sline[..], p0, s0, p, s, delims);
        } else {
          CopyingNext(all, n, sline[..], p0, s0, p, s, delims, 2, line[p + 1]);
          LineHasNoNul(all, n, p + 2);
        }
        p := p + 1;
        sline[s] := line[p];
      } else if line[p] == '\\' {
        StopsCopying(all, n, sline[..], p0, s0, p, s, delims);
        return false, p, s;
      } else {
        CopyingNext(all, n, sline[..], p0, s0, p, s, delims, 1, line[p]);
        sline[s] := line[p];
      }
      p, s := p + 1, s + 1;
    }
    if over {
      OverrunStays(all, n, sline[..], s0, p, s, CopyOf(all[p0..n], delims).text);
    } else {
      CopyingEnds(all, n, sline[..], p0, s0, p, s, delims);
    }
    sline[s] := '\0';
    ok := true;
  }

  lemma RunsOver(line: seq<char>, n: nat, out: seq<char>, p0: nat, s0: nat, p: nat, s: nat, delims: string)
    requires Copying(line, n, out, p0, s0, p, s, delims) && p + 1 == n && line[p] == '\\' && line[p] !in delims
    requires s < |out|
    ensures CopyOf(line[p0..n], delims) == RunsOn(out[s0..s], n - p0)
    ensures NulFollows(line, n) ==> Overrun(line, n, out[s := '\0'], s0, n + 1, s + 1, out[s0..s])
  {
    hide CopyOf;
    CopyEscape(line[p..n], delims);
    assert out[s0..s] + "" == out[s0..s] == out[s := '\0'][s0..s];
  }

  lemma OverrunStays(line: seq<char>, n: nat, out: seq<char>, s0: nat, p: nat, s: nat, text: string)
    requires s < |out| && Overrun(line, n, out, s0, p, s, text)
    ensures Overrun(line, n, out[s := '\0'], s0, p, s, text)
  {
    assert out[s := '\0'][s0..s - 1] == out[s0..s - 1];
  }

  lemma EndsInside(line: seq<char>, n: nat)
    requires LineEndsAt(line, n)
    ensures n < |line|
  {
  }

  lemma StopsCopying(line: seq<char>, n: nat, out: seq<char>, p0: nat, s0: nat, p: nat, s: nat, delims: string)
    requires Copying(line, n, out, p0, s0, p, s, delims) && p < n && line[p] !in delims
    requires line[p] == '\\' && p + 1 < n && !LegalEscape(line[p + 1])
    ensures CopyOf(line[p0..n], delims) == IllegalBackslash
  {
    CopyEscape(line[p..n], delims);
  }

  lemma CopyingEnds(line: seq<char>, n: nat, out: seq<char>, p0: nat, s0: nat, p: nat, s: nat, delims: string)
    requires Copying(line, n, out, p0, s0, p, s, delims) && (p == n || line[p] in delims)
    ensures CopyOf(line[p0..n], delims) == Copy(out[s0..s], p - p0)
  {
    hide CopyOf;
    CopyDone(line[p..n], delims);
    assert out[s0..s] + "" == out[s0..s];
  }

  /** The cursors p and s are after a token; from s on nothing but NULs has been written. */
  ghost predicate TokenTaken(line: seq<char>, n: nat, p0: nat, p: nat, text: string, room: nat) {
    p0 <= p <= n <= |line| && '\0' !in text
    && Tokens(line[p0..n], room + 1) == Followed(text, line[p..n], room)
  }

  /** The token that begins at p0 is the last, with a backslash at its end. */
  ghost predicate LastTaken(line: seq<char>, n: nat, p0: nat, text: string, room: nat) {
    p0 <= n <= |line| && '\0' !in text && Tokens(line[p0..n], room + 1) == ReadsOn([text])
  }

  /** A token in single quotes is copied as it is; sline keeps the NUL that it had after it. */
  method CopyQuote(line: array<char>, sline: array<char>, ghost n: nat, p0: nat, s0: nat, ghost room: nat)
    returns (p: nat, s: nat)
    requires line != sline && line.Length == sline.Length && LineEndsAt(line[..], n) && s0 <= p0 < n
    requires line[p0] == '\''
    modifies sline
    ensures s0 <= s <= p <= n && p0 <= p
    ensures forall k :: 0 <= k < sline.Length && (k < s0 || k >= s) ==> sline[k] == old(sline[k])
    ensures TokenTaken(line[..], n, p0, p, sline[s0..s], room)
  {
    hide LineEndsAt, UpToQuote, CString, TokenTaken;
    ghost var all := line[..];
    EndsInside(all, n);
    TakenQuote(all, n, p0, room);
    LineRest(all, n, p0 + 1);
    p := p0 + 1;
    assert line[p..] == all[p..];
    var len := UpToQuote(CString(line[p..]));
    ghost var rest := all[p..n];
    forall k | 0 <= k < len {
      sline[s0 + k] := line[p + k];
    }
    s := s0 + len;
    assert sline[s0..s] == rest[..len];
    assert line[..] == all;
    p := p + len;
  }

  lemma TakenQuote(line: seq<char>, n: nat, p0: nat, room: nat)
    requires LineEndsAt(line, n) && p0 < n && line[p0] == '\''
    ensures var rest := line[p0 + 1..n];
            var len := UpToQuote(rest);
            p0 + 1 + len <= n && TokenTaken(line, n, p0, p0 + 1 + len, rest[..len], room)
  {
    hide Followed, UpToQuote;
    var rest := line[p0 + 1..n];
    var len := UpToQuote(rest);
    NoNulBetween(line, n, p0 + 1);
    assert line[p0..n][0] == line[p0] && line[p0..n][1..] == rest;
    assert rest[len..] == line[p0 + 1 + len..n];
  }

  lemma LineRest(line: seq<char>, n: nat, p: nat)
    requires LineEndsAt(line, n) && p <= n
    ensures CString(line[p..]) == line[p..n]
  {
    NoNulBetween(line, n, p);
    assert line[p..][n - p] == '\0' && line[p..][..n - p] == line[p..n];
    CStringEnds(line[p..], n - p);
  }

  lemma TakenCopy(line: seq<char>, n: nat, p0: nat, quoted: bool, room: nat)
    requires LineEndsAt(line, n) && p0 < n && !IsBlank(line[p0]) && line[p0] != '\''
    requires if quoted then line[p0] == '\"' else line[p0] != '\"' && !IsComment(line[p0])
    ensures var from := if quoted then p0 + 1 else p0;
            var r := CopyOf(line[from..n], if quoted then "\"" else " \t");
            if r.Copy? then from + r.used <= n && TokenTaken(line, n, p0, from + r.used, r.text, room)
            else if r.RunsOn? then LastTaken(line, n, p0, r.text, room)
            else Tokens(line[p0..n], room + 1) == ParseError
  {
    hide CopyOf, Followed;
    var from := if quoted then p0 + 1 else p0;
    var delims := if quoted then "\"" else " \t";
    var r := CopyOf(line[from..n], delims);
    assert line[p0..n][0] == line[p0] && line[p0..n][1..] == line[p0 + 1..n];
    NoNulBetween(line, n, from);
    CopyHasNoNul(line[from..n], delims);
    if r.Copy? {
      assert line[from..n][r.used..] == line[from + r.used..n];
    }
  }

  /** The cursors p and s after a token that began at p0 and s0. */
  ghost predicate Taken(line: seq<char>, out: seq<char>, n: nat, p0: nat, s0: nat, p: nat, s: nat, room: nat) {
    s0 <= s <= p < |line| == |out| && p0 <= p <= n + 1
    && if p <= n then TokenTaken(line, n, p0, p, out[s0..s], room)
       else s0 < s && line[p] == out[s - 1] == '\0' && LastTaken(line, n, p0, out[s0..s - 1], room)
  }

  /** One token, in single quotes, in double quotes or plain, starting at p0. */
  method ReadToken(line: array<char>, sline: array<char>, ghost n: nat, p0: nat, s0: nat, ghost room: nat)
    returns (ok: bool, p: nat, s: nat)
    requires line != sline && line.Length == sline.Length && LineEndsAt(line[..], n) && s0 <= p0 < n
    requires !IsBlank(line[p0]) && !IsComment(line[p0])
    requires forall k :: s0 <= k < sline.Length ==> sline[k] == '\0'
    requires Tokens(line[p0..n], room + 1).ReadsOn? ==> NulFollows(line[..], n)
    modifies sline
    ensures forall k :: 0 <= k < s0 ==> sline[k] == old(sline[k])
    ensures !ok ==> Tokens(line[p0..n], room + 1) == ParseError
    ensures ok ==> Taken(line[..], sline[..], n, p0, s0, p, s, room)
    ensures ok ==> forall k :: s <= k < sline.Length ==> sline[k] == '\0'
  {
    hide Tokens, Followed, LineEndsAt, CopyOf, TokenTaken, NulFollows;
    EndsInside(line[..], n);
    if line[p0] == '\'' {
      p, s := CopyQuote(line, sline, n, p0, s0, room);
      ok := true;
    } else if line[p0] == '\"' {
      TakenCopy(line[..], n, p0, true, room);
      ok, p, s := CopyToken(line, sline, n, p0 + 1, s0, "\"");
    } else {
      TakenCopy(line[..], n, p0, false, room);
      ok, p, s := CopyToken(line, sline, n, p0, s0, " \t");
    }
  }

  /** found are the tokens before position p of the line; s is the end of what has been written. */
  ghost predicate Progress(line: seq<char>, out: seq<char>, toks: seq<int>, n: nat, found: seq<string>, p: nat, s: nat) {
    LineEndsAt(line, n) && s <= p <= n < |out| && |toks| == MAX_TOKENS && |found| <= MAX_TOKENS
    && (forall j :: 0 <= j < |found| ==> toks[j] >= 0 && TokenAt(out, toks[j], found[j], s))
    && (forall k :: s <= k < |out| ==> out[k] == '\0')
    && Tokens(line[..n], MAX_TOKENS) == WithTokens(found, Tokens(line[p..n], MAX_TOKENS - |found|))
  }

  /** The C string at position pos of buf is text. */
  predicate StringAt(buf: seq<char>, pos: int, text: string) {
    0 <= pos <= |buf| && CString(buf[pos..]) == text
  }

  ghost predicate Result(out: seq<char>, toks: seq<int>, comment: int, ntokens: nat, r: Parsed) {
    !r.ParseError? && ntokens == |r.tokens| <= |toks|
    && (forall j :: 0 <= j < ntokens ==> StringAt(out, toks[j], r.tokens[j]))
    && (if r.Parsed? && r.comment.Comment? then StringAt(out, comment, r.comment.text) else comment == -1)
  }

  lemma Start(line: seq<char>, out: seq<char>, toks: seq<int>, n: nat)
    requires LineEndsAt(line, n) && |out| == |line| && |toks| == MAX_TOKENS
    requires forall k :: 0 <= k < |out| ==> out[k] == '\0'
    ensures Progress(line, out, toks, n, [], 0, 0)
  {
    assert line[0..n] == line[..n];
    var r := Tokens(line[..n], MAX_TOKENS);
    assert !r.ParseError? ==> [] + r.tokens == r.tokens;
  }

  lemma BlankStep(line: seq<char>, out: seq<char>, toks: seq<int>, n: nat, found: seq<string>, p: nat, s: nat)
    requires Progress(line, out, toks, n, found, p, s) && p < n && IsBlank(line[p])
    ensures Progress(line, out, toks, n, found, p + 1, s + 1)
  {
    hide LineEndsAt;
    EndsInside(line, n);
    var room := MAX_TOKENS - |found|;
    assert line[p..n][1..] == line[p + 1..n];
    assert Tokens(line[p..n], room) == Tokens(line[p + 1..n], room);
  }

  lemma NoRoom(line: seq<char>, out: seq<char>, toks: seq<int>, n: nat, found: seq<string>, p: nat, s: nat)
    requires Progress(line, out, toks, n, found, p, s) && p < n && !IsBlank(line[p]) && |found| == MAX_TOKENS
    ensures Tokens(line[..n], MAX_TOKENS) == ParseError
  {
  }

  lemma FoundStay(out: seq<char>, later: seq<char>, toks: seq<int>, pos: int, found: seq<string>, s: nat, more: nat)
    requires |later| == |out| && s <= more <= |out| && |found| < |toks|
    requires forall j :: 0 <= j < |found| ==> toks[j] >= 0 && TokenAt(out, toks[j], found[j], s)
    requires forall k :: 0 <= k < s ==> later[k] == out[k]
    ensures forall j :: 0 <= j < |found| ==> toks[|found| := pos][j] >= 0 && TokenAt(later, toks[|found| := pos][j], found[j], more)
  {
    hide TokenAt;
    forall j | 0 <= j < |found| ensures TokenAt(later, toks[j], found[j], more) {
      TokenKept(out, later, toks[j], found[j], s, more);
    }
  }

  lemma StringsAt(out: seq<char>, toks: seq<int>, found: seq<string>, s: nat)
    requires |found| <= |toks| && forall j :: 0 <= j < |found| ==> toks[j] >= 0 && TokenAt(out, toks[j], found[j], s)
    ensures forall j :: 0 <= j < |found| ==> StringAt(out, toks[j], found[j])
  {
    forall j | 0 <= j < |found| ensures StringAt(out, toks[j], found[j]) {
      TokenRead(out, toks[j], found[j], s);
    }
  }

  lemma TokenStep(line: seq<char>, out: seq<char>, later: seq<char>, toks: seq<int>, n: nat, found: seq<string>,
                  p: nat, s: nat, q: nat, e: nat)
    requires Progress(line, out, toks, n, found, p, s) && p < n && |found| < MAX_TOKENS
    requires s <= e <= q <= n < |later| == |out|
    requires forall k :: 0 <= k < s ==> later[k] == out[k]
    requires forall k :: e <= k < |later| ==> later[k] == '\0'
    requires TokenTaken(line, n, p, q, later[s..e], MAX_TOKENS - |found| - 1)
    ensures q < n ==> Progress(line, later, toks[|found| := s], n, found + [later[s..e]], q + 1, e + 1)
    ensures q == n ==> Result(later, toks[|found| := s], -1, |found| + 1, Tokens(line[..n], MAX_TOKENS))
  {
    hide LineEndsAt, Tokens, Followed, StringAt;
    var text := later[s..e];
    var room := MAX_TOKENS - |found| - 1;
    assert TokenAt(later, s, text, e + 1);
    FoundStay(out, later, toks, s, found, s, e + 1);
    WithTokensNext(found, text, line[q..n], room);
    if q < n {
      assert line[q..n][1..] == line[q + 1..n];
    } else {
      StringsAt(later, toks[|found| := s], found + [text], e + 1);
    }
  }

  lemma LastStep(line: seq<char>, out: seq<char>, later: seq<char>, toks: seq<int>, n: nat, found: seq<string>,
                 p: nat, s: nat, e: nat)
    requires Progress(line, out, toks, n, found, p, s) && p < n && |found| < MAX_TOKENS
    requires s < e <= |later| == |out| && later[e - 1] == '\0'
    requires forall k :: 0 <= k < s ==> later[k] == out[k]
    requires LastTaken(line, n, p, later[s..e - 1], MAX_TOKENS - |found| - 1)
    ensures Result(later, toks[|found| := s], -1, |found| + 1, Tokens(line[..n], MAX_TOKENS))
  {
    hide LineEndsAt, Tokens, StringAt;
    var text := later[s..e - 1];
    assert TokenAt(later, s, text, e);
    FoundStay(out, later, toks, s, found, s, e);
    StringsAt(later, toks[|found| := s], found + [text], e);
  }

  lemma TakenStep(line: seq<char>, out: seq<char>, later: seq<char>, toks: seq<int>, n: nat, found: seq<string>,
                  p: nat, s: nat, q: nat, e: nat)
    requires Progress(line, out, toks, n, found, p, s) && p < n && |found| < MAX_TOKENS && |later| == |out|
    requires Taken(line, later, n, p, s, q, e, MAX_TOKENS - |found| - 1)
    requires forall k :: 0 <= k < s ==> later[k] == out[k]
    requires forall k :: e <= k < |later| ==> later[k] == '\0'
    ensures q < n ==> Progress(line, later, toks[|found| := s], n, found + [later[s..e]], q + 1, e + 1)
    ensures q >= n ==> Result(later, toks[|found| := s], -1, |found| + 1, Tokens(line[..n], MAX_TOKENS))
    ensures q < |line| && e < |out| && (line[q] == '\0' <==> q >= n)
  {
    hide Progress, Result, TokenTaken, LastTaken;
    Cursors(line, out, toks, n, found, p, s);
    if q <= n {
      LineHasNoNul(line, n, q);
      TokenStep(line, out, later, toks, n, found, p, s, q, e);
    } else {
      LastStep(line, out, later, toks, n, found, p, s, e);
    }
  }

  lemma ParseFails(line: seq<char>, out: seq<char>, toks: seq<int>, n: nat, found: seq<string>, p: nat, s: nat)
    requires Progress(line, out, toks, n, found, p, s) && |found| < MAX_TOKENS
    requires Tokens(line[p..n], MAX_TOKENS - |found|) == ParseError
    ensures Tokens(line[..n], MAX_TOKENS) == ParseError
  {
  }

  lemma ReadingOn(line: seq<char>, out: seq<char>, toks: seq<int>, n: nat, found: seq<string>, p: nat, s: nat)
    requires Progress(line, out, toks, n, found, p, s) && Tokens(line[p..n], MAX_TOKENS - |found|).ReadsOn?
    ensures Tokens(line[..n], MAX_TOKENS).ReadsOn?
  {
  }

  lemma Cursors(line: seq<char>, out: seq<char>, toks: seq<int>, n: nat, found: seq<string>, p: nat, s: nat)
    requires Progress(line, out, toks, n, found, p, s)
    ensures LineEndsAt(line, n) && s <= p <= n < |out| && forall k :: s <= k < |out| ==> out[k] == '\0'
  {
  }

  lemma ResultIsParsed(out: seq<char>, toks: seq<int>, comment: int, ntokens: nat, r: Parsed)
    requires Result(out, toks, comment, ntokens, r)
    ensures !r.ParseError?
  {
  }

  lemma EndOfLine(line: seq<char>, out: seq<char>, toks: seq<int>, n: nat, found: seq<string>, s: nat)
    requires Progress(line, out, toks, n, found, n, s)
    ensures Result(out, toks, -1, |found|, Tokens(line[..n], MAX_TOKENS))
  {
    hide StringAt, TokenAt;
    assert line[n..n] == "";
    assert found + [] == found;
    StringsAt(out, toks, found, s);
  }

  lemma CommentStep(line: seq<char>, out: seq<char>, later: seq<char>, toks: seq<int>, n: nat, found: seq<string>,
                    p: nat, s: nat)
    requires Progress(line, out, toks, n, found, p, s) && p < n && |found| < MAX_TOKENS && IsComment(line[p])
    requires |later| == |out| && forall k :: 0 <= k < s ==> later[k] == out[k]
    requires later[s..s + n - p] == line[p..n] && later[s + n - p] == '\0'
    ensures Result(later, toks[|found| := -1], s, |found|, Tokens(line[..n], MAX_TOKENS))
  {
    hide StringAt, TokenAt;
    FoundStay(out, later, toks, -1, found, s, s);
    StringsAt(later, toks[|found| := -1], found, s);
    NoNulBetween(line, n, p);
    StringHere(later, s, line[p..n]);
    assert found + [] == found;
  }

  lemma StringHere(buf: seq<char>, pos: nat, text: string)
    requires pos + |text| < |buf| && buf[pos..pos + |text|] == text && buf[pos + |text|] == '\0' && '\0' !in text
    ensures StringAt(buf, pos, text)
  {
    TokenRead(buf, pos, text, pos + |text| + 1);
  }

  /**
   * A line of a configuration file. The tokens and the comment are positions in sline, or -1.
   */
  class ConfigEntry {
    const line: array<char>
    const sline: array<char>
    const tokens: array<int>
    var comment: int
    var ntokens: nat

    ghost predicate Valid()
      reads this
    {
      line.Length == sline.Length == MAX_LINE_LENGTH && tokens.Length == MAX_TOKENS && line != sline
    }

    /** The buffers are filled with NULs, then the text is copied. */
    constructor (text: string)
      requires |text| < MAX_LINE_LENGTH
      ensures Valid() && fresh(line) && fresh(sline) && fresh(tokens)
      ensures line[..|text|] == text && forall k :: |text| <= k < MAX_LINE_LENGTH ==> line[k] == '\0'
      ensures forall k :: 0 <= k < MAX_LINE_LENGTH ==> sline[k] == '\0'
      ensures forall k :: 0 <= k < MAX_TOKENS ==> tokens[k] == -1
      ensures comment == -1
    {
      line := new char[MAX_LINE_LENGTH](i requires 0 <= i => if i < |text| then text[i] else '\0');
      sline := new char[MAX_LINE_LENGTH](i => '\0');
      tokens := new int[MAX_TOKENS](i => -1);
      comment, ntokens := -1, 0;
    }

    /** The rest of the line is a comment; the token entry is taken back. */
    method StoreComment(ghost n: nat, ghost found: seq<string>, p: nat, s: nat, i: nat)
      requires Valid() && p < n && i == |found| < MAX_TOKENS && p < line.Length && IsComment(line[p])
      requires Progress(line[..], sline[..], tokens[..], n, found, p, s)
      modifies `comment, sline, tokens
      ensures Result(sline[..], tokens[..], comment, |found|, Tokens(line[..n], MAX_TOKENS))
      ensures !Tokens(line[..n], MAX_TOKENS).ParseError?
    {
      hide Tokens, LineEndsAt, Progress, Result, StringAt, CString;
      ghost var all, before, toks := line[..], sline[..], tokens[..];
      Cursors(all, before, toks, n, found, p, s);
      tokens[i] := s;
      comment := s;
      LineRest(all, n, p);
      assert line[p..] == all[p..];
      var rest := CString(line[p..]);
      forall k | 0 <= k < |rest| {
        sline[s + k] := rest[k];
      }
      tokens[i] := -1;
      assert all == line[..] && tokens[..] == toks[|found| := -1];
      assert sline[..][s..s + n - p] == all[p..n];
      CommentStep(all, before, sline[..], toks, n, found, p, s);
      ResultIsParsed(sline[..], tokens[..], comment, |found|, Tokens(line[..n], MAX_TOKENS));
    }

    method StoreToken(ghost n: nat, ghost found: seq<string>, p: nat, s: nat, i: nat)
      returns (ok: bool, q: nat, e: nat)
      requires Valid() && p < n && i == |found| < MAX_TOKENS && p < line.Length && !IsComment(line[p]) && !IsBlank(line[p])
      requires Progress(line[..], sline[..], tokens[..], n, found, p, s)
      requires Tokens(line[..n], MAX_TOKENS).ReadsOn? ==> NulFollows(line[..], n)
      modifies sline, tokens
      ensures !ok ==> Tokens(line[..n], MAX_TOKENS) == ParseError
      ensures ok ==> p <= q < line.Length && s <= e < sline.Length && (line[q] == '\0' <==> q >= n)
      ensures ok && q < n ==> Progress(line[..], sline[..], tokens[..], n, found + [sline[s..e]], q + 1, e + 1)
      ensures ok && q >= n ==> Result(sline[..], tokens[..], -1, i + 1, Tokens(line[..n], MAX_TOKENS))
    {
      hide Tokens, LineEndsAt, Progress, Result, TokenTaken, LastTaken, NulFollows;
      ghost var all, before, toks := line[..], sline[..], tokens[..];
      Cursors(all, before, toks, n, found, p, s);
      if Tokens(all[p..n], MAX_TOKENS - i).ReadsOn? { ReadingOn(all, before, toks, n, found, p, s); }
      tokens[i] := s;
      ok, q, e := ReadToken(line, sline, n, p, s, MAX_TOKENS - i - 1);
      assert all == line[..];
      if ok {
        TakenStep(all, before, sline[..], toks, n, found, p, s, q, e);
      } else {
        ParseFails(all, before, toks, n, found, p, s);
      }
    }

    /**
     * The line, which ends at n, is cut into tokens, or refused. If a backslash dangles at its end a second NUL must follow,
     * as it does in the cleared buffer of a line without carriage returns; the backslash is dropped then.
     */
    method Tokenize(ghost n: nat) returns (status: int)
      requires Valid() && LineEndsAt(line[..], n) && comment == -1
      requires forall k :: 0 <= k < sline.Length ==> sline[k] == '\0'
      requires Dangles(line[..n], MAX_TOKENS) ==> NulFollows(line[..], n)
      modifies this, sline, tokens
      ensures Valid()
      ensures status == 0 <==> !Tokens(line[..n], MAX_TOKENS).ParseError?
      ensures status == 0 ==> Result(sline[..], tokens[..], comment, ntokens, Tokens(line[..n], MAX_TOKENS))
    {
      hide Tokens, LineEndsAt, Progress, StringAt, Dangles;
      ghost var found: seq<string> := [];
      ghost var all := line[..];
      EndsInside(all, n);
      ReadsOnIfDangling(all[..n], MAX_TOKENS);
      Start(all, sline[..], tokens[..], n);
      var p, s, i := 0, 0, 0;
      LineHasNoNul(all, n, p);
      while line[p] != '\0'
        invariant Valid() && p <= n && i == |found| <= MAX_TOKENS && (line[p] == '\0' <==> p == n) && comment == -1
        invariant Progress(all, sline[..], tokens[..], n, found, p, s)
        decreases n - p
      {
        if IsBlank(line[p]) {
          BlankStep(all, sline[..], tokens[..], n, found, p, s);
          p, s := p + 1, s + 1;
          LineHasNoNul(all, n, p);
          continue;
        }
        if MAX_TOKENS <= i {
          NoRoom(all, sline[..], tokens[..], n, found, p, s);
          return -1;
        }
        if IsComment(line[p]) {
          StoreComment(n, found, p, s, i);
          ntokens := i;
          return 0;
        }
        var ok, q, e := StoreToken(n, found, p, s, i);
        if !ok { return -1; }
        i := i + 1;
        found := found + [sline[s..e]];
        p, s := q, e;
        if line[p] == '\0' {
          ntokens := i;
          return 0;
        }
        p, s := p + 1, s + 1;
        LineHasNoNul(all, n, p);
      }
      EndOfLine(all, sline[..], tokens[..], n, found, s);
      ntokens := i;
      status := 0;
    }
  }

  /** A line put together from buffers that EscapeString has filled. */
  function LineOfBuffers(bufs: seq<seq<char>>): string {
    if bufs == [] then ""
    else "\"" + CString(bufs[0]) + "\"" + (if |bufs| == 1 then "" else " " + LineOfBuffers(bufs[1..]))
  }

  lemma {:induction false} EscapeHasNoNul(w: string)
    requires '\0' !in w
    ensures '\0' !in Escape(w)
  {
    if w != "" { EscapeHasNoNul(w[1..]); }
  }

  lemma {:induction false} LineOfEscaped(ws: seq<string>, bufs: seq<seq<char>>)
    requires |bufs| == |ws|
    requires forall j :: 0 <= j < |ws| ==> '\0' !in ws[j] && bufs[j] == Escape(ws[j]) + "\0"
    ensures LineOfBuffers(bufs) == Line(ws)
  {
    hide Escape, CString;
    if ws != [] {
      var e := Escape(ws[0]);
      EscapeHasNoNul(ws[0]);
      assert bufs[0][..|e|] == e && bufs[0][|e|] == '\0';
      TextEnds(bufs[0], e);
      LineOfEscaped(ws[1..], bufs[1..]);
    }
  }

  lemma TextEnds(buf: seq<char>, text: string)
    requires |text| < |buf| && buf[..|text|] == text && buf[|text|] == '\0' && '\0' !in text
    ensures CString(buf) == text
  {
    CStringEnds(buf, |text|);
  }

  /**
   * Escaping, quoting and tokenizing buffers: whatever up to 16 strings EscapeString has been given, they are what can be
   * read from sline after the line put together from its results has been tokenized.
   */
  lemma {:induction false} TokenizeUndoesEscape(ws: seq<string>, bufs: seq<seq<char>>, line: seq<char>, n: nat, out: seq<char>,
                             toks: seq<int>, comment: int, ntokens: nat)
    requires |bufs| == |ws| <= MAX_TOKENS
    requires forall j :: 0 <= j < |ws| ==> '\0' !in ws[j] && bufs[j] == Escape(ws[j]) + "\0"
    requires LineEndsAt(line, n) && line[..n] == LineOfBuffers(bufs)
    requires !Tokens(line[..n], MAX_TOKENS).ParseError? ==> Result(out, toks, comment, ntokens, Tokens(line[..n], MAX_TOKENS))
    ensures !Dangles(line[..n], MAX_TOKENS) && ntokens == |ws| <= |toks| && comment == -1
    ensures forall j :: 0 <= j < |ws| ==> StringAt(out, toks[j], ws[j])
  {
    hide Tokens, Escape, Line, LineOfBuffers, StringAt, Dangles;
    LineOfEscaped(ws, bufs);
    TokensOfLine(ws, MAX_TOKENS);
    ReadsOnIfDangling(line[..n], MAX_TOKENS);
  }
}
