/** Escaping of strings, and the tokens of a configuration line, on values. */
module ConfigTokens {
  import opened CStrings

  predicate MustEscape(c: char) {
    c == '\"' || c == '\\' || c == ' '
  }

  function EscapedChar(c: char): string {
    if MustEscape(c) then ['\\', c] else [c]
  }

  /** s with a backslash before every double quote, backslash and space. */
  function Escape(s: string): string {
    if s == "" then "" else EscapedChar(s[0]) + Escape(s[1..])
  }

  lemma {:induction false} EscapeAppend(s: string, c: char)
    ensures Escape(s + [c]) == Escape(s) + EscapedChar(c)
  {
    if s != "" {
      assert (s + [c])[1..] == s[1..] + [c];
      EscapeAppend(s[1..], c);
    }
  }

  method Buffer(s: string, size: nat) returns (a: array<char>)
    requires |s| <= size
    ensures fresh(a) && a.Length == size && a[..|s|] == s
  {
    a := new char[size](i requires 0 <= i => if i < |s| then s[i] else '\0');
  }

  /** The buffer is enlarged by one, and its part from pos on moves up to make room for c. */
  method Grow(buf: array<char>, pos: nat, len: nat, c: char) returns (a: array<char>)
    requires pos < len == buf.Length
    ensures fresh(a) && a[..] == buf[..pos] + [c] + buf[pos..]
  {
    a := Buffer(buf[..], len + 1);
    assert forall k :: 0 <= k < len ==> a[k] == a[..len][k] == buf[k];
    forall k | pos < k <= len {
      a[k] := a[k - 1];
    }
    a[pos] := c;
  }

  /** The first i characters are escaped; they end at pos. */
  ghost predicate Escaping(buf: string, input: string, i: nat, pos: nat, len: nat) {
    i <= |input| && pos == |Escape(input[..i])| && len == pos + |input| - i
    && buf == Escape(input[..i]) + input[i..] + "\0"
  }

  lemma EscapingStarts(input: string)
    ensures Escaping(input + "\0", input, 0, 0, |input|)
  {
    assert input[..0] == "" && input[0..] == input;
    assert "" + input + "\0" == input + "\0";
  }

  lemma EscapingNext(buf: string, input: string, i: nat, pos: nat, len: nat)
    requires Escaping(buf, input, i, pos, len) && pos < len
    ensures pos < |buf| == len + 1
    ensures !MustEscape(buf[pos]) ==> Escaping(buf, input, i + 1, pos + 1, len)
    ensures MustEscape(buf[pos]) ==> Escaping(buf[..pos] + "\\" + buf[pos..], input, i + 1, pos + 2, len + 1)
  {
    hide Escape;
    var done, c, rest := Escape(input[..i]), input[i], input[i + 1..];
    assert input[..i + 1] == input[..i] + [c] && input[i..] == [c] + rest;
    EscapeAppend(input[..i], c);
    assert buf == done + ([c] + rest + "\0");
    if MustEscape(c) {
      assert buf[..pos] == done && buf[pos..] == [c] + rest + "\0";
      assert done + "\\" + ([c] + rest + "\0") == done + ['\\', c] + rest + "\0";
    } else {
      assert done + ([c] + rest + "\0") == done + [c] + rest + "\0";
    }
  }

  lemma EscapingEnds(buf: string, input: string, i: nat, len: nat)
    requires Escaping(buf, input, i, len, len)
    ensures buf == Escape(input) + "\0"
  {
    assert input[..i] == input && input[i..] == "";
    assert Escape(input) + "" + "\0" == Escape(input) + "\0";
  }

  method EscapeString(input: string) returns (out: array<char>)
    requires '\0' !in input
    ensures fresh(out) && out[..] == Escape(input) + "\0"
  {
    hide Escape, Escaping, MustEscape;
    out := Buffer(input + "\0", |input| + 1);
    EscapingStarts(input);
    assert out[..] == input + "\0";
    var len, pos := |input|, 0;
    ghost var i := 0;
    while pos < len
      invariant pos <= len && fresh(out) && Escaping(out[..], input, i, pos, len)
      decreases |input| - i
    {
      EscapingNext(out[..], input, i, pos, len);
      EscapingBound(out[..], input, i, pos, len);
      if MustEscape(out[pos]) {
        len := len + 1;
        out := Grow(out, pos, len, '\\');
        pos := pos + 1;
      }
      pos := pos + 1;
      i := i + 1;
      EscapingBound(out[..], input, i, pos, len);
    }
    EscapingEnds(out[..], input, i, len);
  }

  lemma EscapingBound(buf: string, input: string, i: nat, pos: nat, len: nat)
    requires Escaping(buf, input, i, pos, len)
    ensures pos <= len && i <= |input|
  {
  }

  /**
   * The characters up to the first delimiter, without the backslashes, and how many were read. A backslash at the very end
   * makes the C code read on behind the NUL that ends the string.
   */
  datatype Copy = IllegalBackslash | RunsOn(text: string, used: nat) | Copy(text: string, used: nat)

  predicate LegalEscape(c: char) {
    c == '\"' || c == ' ' || c == '\\'
  }

  function CopyOf(s: string, delims: string): (r: Copy)
    ensures !r.IllegalBackslash? ==> |r.text| <= r.used <= |s|
    ensures r.RunsOn? ==> |r.text| < r.used == |s|
  {
    if s == "" || s[0] in delims then Copy("", 0)
    else if s[0] == '\\' then
      if |s| == 1 then RunsOn("", 1)
      else if LegalEscape(s[1]) then Prepended(s[1], 2, CopyOf(s[2..], delims))
      else IllegalBackslash
    else Prepended(s[0], 1, CopyOf(s[1..], delims))
  }

  function Prepended(c: char, used: nat, r: Copy): Copy {
    match r
    case IllegalBackslash => r
    case RunsOn(text, more) => RunsOn([c] + text, used + more)
    case Copy(text, more) => Copy([c] + text, used + more)
  }

  predicate IsBlank(c: char) {
    c == ' ' || c == '\t'
  }

  predicate IsComment(c: char) {
    c == ';' || c == '#'
  }

  /** What is between s and the next single quote, or all of s. */
  function UpToQuote(s: string): (n: nat)
    ensures n <= |s|
  {
    if After(s, '\'') == 0 then |s| else After(s, '\'') - 1
  }

  /** ReadsOn has the tokens that are found if a second NUL follows the line. */
  datatype Parsed = ParseError | ReadsOn(tokens: seq<string>) | Parsed(tokens: seq<string>, comment: Comment)
  datatype Comment = NoComment | Comment(text: string)

  function WithTokens(found: seq<string>, r: Parsed): Parsed {
    match r
    case ParseError => r
    case ReadsOn(tokens) => ReadsOn(found + tokens)
    case Parsed(tokens, comment) => Parsed(found + tokens, comment)
  }

  /** A first token and what follows it; the character after a token is skipped. */
  function Followed(text: string, after: string, room: nat): Parsed
    decreases |after|, 1
  {
    if after == "" then Parsed([text], NoComment) else WithTokens([text], Tokens(after[1..], room))
  }

  /** The tokens of s, of which there may be `room` at most, and its comment. */
  function Tokens(s: string, room: nat): Parsed
    decreases |s|, 0
  {
    if s == "" then Parsed([], NoComment)
    else if IsBlank(s[0]) then Tokens(s[1..], room)
    else if room == 0 then ParseError
    else if s[0] == '\'' then
      var n := UpToQuote(s[1..]);
      Followed(s[1..][..n], s[1..][n..], room - 1)
    else if s[0] == '\"' then
      match CopyOf(s[1..], "\"")
      case IllegalBackslash => ParseError
      case RunsOn(text, _) => ReadsOn([text])
      case Copy(text, used) => Followed(text, s[1..][used..], room - 1)
    else if IsComment(s[0]) then Parsed([], Comment(s))
    else
      match CopyOf(s, " \t")
      case IllegalBackslash => ParseError
      case RunsOn(text, _) => ReadsOn([text])
      case Copy(text, used) => Followed(text, s[used..], room - 1)
  }

  // Which lines are read beyond their end: a scanner that takes one character at a time

  datatype Mode = Between | Plain | DoubleQuoted | SingleQuoted | InComment | Refused

  /** Where in the line we are, whether a backslash waits for the character it escapes, and how many tokens may follow. */
  datatype Scanner = Scanner(mode: Mode, pending: bool, room: nat)

  /** A character that begins a token, of which one more is allowed. */
  function Opened(c: char, room: nat): Scanner {
    if c == '\'' then Scanner(SingleQuoted, false, room)
    else if c == '\"' then Scanner(DoubleQuoted, false, room)
    else Scanner(Plain, c == '\\', room)
  }

  function Scanned(sc: Scanner, c: char): Scanner {
    if sc.pending then sc.(pending := false, mode := if LegalEscape(c) then sc.mode else Refused)
    else
      match sc.mode
      case Between =>
        if IsBlank(c) then sc
        else if sc.room == 0 then sc.(mode := Refused)
        else if IsComment(c) then sc.(mode := InComment)
        else Opened(c, sc.room - 1)
      case Plain => if IsBlank(c) then sc.(mode := Between) else sc.(pending := c == '\\')
      case DoubleQuoted => if c == '\"' then sc.(mode := Between) else sc.(pending := c == '\\')
      case SingleQuoted => if c == '\'' then sc.(mode := Between) else sc
      case _ => sc
  }

  function Scan(sc: Scanner, s: string): Scanner
    decreases |s|
  {
    if s == "" then sc else Scan(Scanned(sc, s[0]), s[1..])
  }

  /** At the end of the line a backslash is still waiting for the character it escapes. */
  predicate Dangles(s: string, room: nat) {
    Scan(Scanner(Between, false, room), s).pending
  }

  lemma {:induction false} ScanStays(sc: Scanner, s: string)
    requires sc.mode == InComment || sc.mode == Refused
    requires !sc.pending
    ensures Scan(sc, s) == sc
  {
    if s != "" { ScanStays(sc, s[1..]); }
  }

  lemma {:induction false} ScanQuote(sc: Scanner, s: string, n: nat)
    requires sc.mode == SingleQuoted && !sc.pending && n <= |s| && '\'' !in s[..n]
    ensures Scan(sc, s) == Scan(sc, s[n..])
  {
    if n == 0 {
      assert s[0..] == s;
    } else {
      assert s[0] in s[..n] && s[1..][..n - 1] == s[..n][1..] && s[1..][n - 1..] == s[n..];
      ScanQuote(sc, s[1..], n - 1);
    }
  }

  predicate Copies(sc: Scanner, delims: string) {
    !sc.pending && ((sc.mode == Plain && delims == " \t") || (sc.mode == DoubleQuoted && delims == "\""))
  }

  /** While a token is copied the scanner keeps pace with it. */
  ghost predicate KeepsPace(sc: Scanner, s: string, r: Copy) {
    match r
    case IllegalBackslash => !Scan(sc, s).pending
    case RunsOn(_, _) => Scan(sc, s).pending
    case Copy(_, used) => used <= |s| && Scan(sc, s) == Scan(sc, s[used..])
  }

  lemma {:induction false} ScanCopy(sc: Scanner, s: string, delims: string)
    requires Copies(sc, delims)
    ensures KeepsPace(sc, s, CopyOf(s, delims))
  {
    if s == "" || s[0] in delims {
      assert s[0..] == s;
    } else if s[0] == '\\' {
      var rest := s[1..];
      assert Scanned(sc, s[0]) == sc.(pending := true);
      if |s| > 1 {
        assert rest[1..] == s[2..];
        if LegalEscape(s[1]) {
          ScanCopy(sc, s[2..], delims);
          PaceKept(sc, s, 2, CopyOf(s[2..], delims), s[1]);
        } else {
          ScanStays(sc.(mode := Refused), s[2..]);
        }
      }
    } else {
      ScanCopy(sc, s[1..], delims);
      PaceKept(sc, s, 1, CopyOf(s[1..], delims), s[0]);
    }
  }

  lemma PaceKept(sc: Scanner, s: string, step: nat, r: Copy, c: char)
    requires step <= |s| && Scan(sc, s) == Scan(sc, s[step..]) && KeepsPace(sc, s[step..], r)
    ensures KeepsPace(sc, s, Prepended(c, step, r))
  {
    if r.Copy? {
      assert s[step..][r.used..] == s[step + r.used..];
    }
  }

  lemma {:induction false} CopyStops(s: string, delims: string)
    requires CopyOf(s, delims).Copy? && CopyOf(s, delims).used < |s|
    ensures s[CopyOf(s, delims).used] in delims
  {
    if s[0] in delims {
    } else if s[0] == '\\' {
      CopyStops(s[2..], delims);
    } else {
      CopyStops(s[1..], delims);
    }
  }

  /** The scanner sc is inside a token, of which `after` is what follows. */
  lemma ScanAfter(sc: Scanner, text: string, after: string, room: nat)
    requires !sc.pending && (after != "" ==> Scanned(sc, after[0]) == Scanner(Between, false, room))
    requires after != "" ==> (Tokens(after[1..], room).ReadsOn? <==> Dangles(after[1..], room))
    ensures Followed(text, after, room).ReadsOn? <==> Scan(sc, after).pending
  {
    hide Tokens, Scanned;
  }

  lemma ScanToken(s: string, c: char, room: nat)
    requires s != "" && s[0] == c && !IsBlank(c) && !IsComment(c) && room > 0
    ensures Dangles(s, room) <==> Scan(Opened(c, room - 1), s[1..]).pending
  {
    assert Scanned(Scanner(Between, false, room), c) == Opened(c, room - 1);
  }

  /** A plain token begins with its first character, which the scanner has taken already. */
  lemma ScanPlain(s: string, room: nat)
    requires s != "" && !IsBlank(s[0]) && !IsComment(s[0]) && s[0] != '\'' && s[0] != '\"' && room > 0
    ensures Dangles(s, room) <==> Scan(Scanner(Plain, false, room - 1), s).pending
  {
    ScanToken(s, s[0], room);
    assert Scanned(Scanner(Plain, false, room - 1), s[0]) == Opened(s[0], room - 1);
  }

  /** The code reads beyond the end of a line exactly if a backslash dangles there. */
  lemma {:induction false} ReadsOnIfDangling(s: string, room: nat)
    ensures Tokens(s, room).ReadsOn? <==> Dangles(s, room)
    decreases |s|
  {
    hide Followed, CopyOf, Scan, Scanned, UpToQuote;
    if s == "" || IsBlank(s[0]) || room == 0 || IsComment(s[0]) {
      NoTokenNext(s, room);
      if s != "" && IsBlank(s[0]) { ReadsOnIfDangling(s[1..], room); }
    } else if s[0] == '\'' {
      var rest, n := s[1..], UpToQuote(s[1..]);
      ScanToken(s, s[0], room);
      QuoteEnds(rest, room - 1);
      if n < |rest| { ReadsOnIfDangling(rest[n..][1..], room - 1); }
      ScanAfter(Scanner(SingleQuoted, false, room - 1), rest[..n], rest[n..], room - 1);
    } else {
      var quoted := s[0] == '\"';
      var rest, delims := if quoted then s[1..] else s, if quoted then "\"" else " \t";
      var sc := Scanner(if quoted then DoubleQuoted else Plain, false, room - 1);
      if quoted { ScanToken(s, s[0], room); } else { ScanPlain(s, room); }
      CopyEnds(sc, rest, delims);
      var r := CopyOf(rest, delims);
      if r.Copy? {
        if r.used < |rest| { ReadsOnIfDangling(rest[r.used..][1..], room - 1); }
        ScanAfter(sc, r.text, rest[r.used..], room - 1);
      }
    }
  }

  lemma NoTokenNext(s: string, room: nat)
    requires s == "" || IsBlank(s[0]) || room == 0 || IsComment(s[0])
    ensures s != "" && IsBlank(s[0]) ==> Tokens(s, room) == Tokens(s[1..], room) && (Dangles(s, room) <==> Dangles(s[1..], room))
    ensures s == "" || !IsBlank(s[0]) ==> !Tokens(s, room).ReadsOn? && !Dangles(s, room)
  {
    if s != "" && !IsBlank(s[0]) {
      ScanStays(Scanned(Scanner(Between, false, room), s[0]), s[1..]);
    }
  }

  lemma QuoteEnds(s: string, room: nat)
    ensures var sc, n := Scanner(SingleQuoted, false, room), UpToQuote(s);
            Scan(sc, s) == Scan(sc, s[n..]) && (n < |s| ==> Scanned(sc, s[n..][0]) == Scanner(Between, false, room))
  {
    var n := UpToQuote(s);
    if n == |s| { assert s[..n] == s; }
    ScanQuote(Scanner(SingleQuoted, false, room), s, n);
  }

  lemma CopyEnds(sc: Scanner, s: string, delims: string)
    requires Copies(sc, delims)
    ensures KeepsPace(sc, s, CopyOf(s, delims))
    ensures var r := CopyOf(s, delims);
            r.Copy? && r.used < |s| ==> Scanned(sc, s[r.used..][0]) == sc.(mode := Between)
  {
    ScanCopy(sc, s, delims);
    if CopyOf(s, delims).Copy? && CopyOf(s, delims).used < |s| {
      CopyStops(s, delims);
    }
  }

  /** A backslash alone is not refused, although it escapes nothing; two make a token. */
  lemma BackslashReadsOn()
    ensures Tokens("\\", 16) == ReadsOn([""]) && Tokens("\\\\", 16) == Parsed(["\\"], NoComment)
  {
    var two := "\\\\";
    assert two[2..] == "";
    assert CopyOf(two, " \t") == Prepended('\\', 2, CopyOf("", " \t")) == Copy("\\", 2);
    assert Tokens(two, 16) == Followed("\\", two[2..], 15);
  }

  /** Reading a quoted string undoes its escaping. */
  lemma {:induction false} CopyUndoesEscape(w: string, rest: string)
    ensures CopyOf(Escape(w) + "\"" + rest, "\"") == Copy(w, |Escape(w)|)
  {
    if w == "" {
      assert Escape(w) + "\"" + rest == "\"" + rest;
    } else {
      var c, more := w[0], Escape(w[1..]) + "\"" + rest;
      CopyUndoesEscape(w[1..], rest);
      assert Escape(w) + "\"" + rest == EscapedChar(c) + more;
      CopyEscapedChar(c, more);
      assert w == [c] + w[1..];
    }
  }

  lemma CopyEscapedChar(c: char, more: string)
    ensures CopyOf(EscapedChar(c) + more, "\"") == Prepended(c, |EscapedChar(c)|, CopyOf(more, "\""))
  {
    var s := EscapedChar(c) + more;
    assert s[|EscapedChar(c)|..] == more;
    if MustEscape(c) {
      assert s[0] == '\\' && s[1] == c;
    } else {
      assert s[0] == c;
    }
  }

  function Quoted(w: string): string {
    "\"" + Escape(w) + "\""
  }

  /** The strings quoted, escaped and separated by single blanks. */
  function Line(ws: seq<string>): string {
    if ws == [] then "" else if |ws| == 1 then Quoted(ws[0]) else Quoted(ws[0]) + " " + Line(ws[1..])
  }

  lemma TokensQuoted(w: string, rest: string, room: nat)
    requires room > 0
    ensures Tokens(Quoted(w) + rest, room) == Followed(w, "\"" + rest, room - 1)
  {
    hide CopyOf, Followed, Escape;
    var s := Quoted(w) + rest;
    CopyUndoesEscape(w, rest);
    assert s[1..] == Escape(w) + "\"" + rest;
    assert s[1..][|Escape(w)|..] == "\"" + rest;
  }

  lemma FirstOfLine(ws: seq<string>, room: nat)
    requires ws != [] && room > 0
    ensures Tokens(Line(ws), room) == Followed(ws[0], if |ws| == 1 then "\"" else "\" " + Line(ws[1..]), room - 1)
  {
    hide Tokens, Followed, Quoted, Escape;
    if |ws| == 1 {
      TokensQuoted(ws[0], "", room);
      assert Line(ws) == Quoted(ws[0]) + "" && "\"" + "" == "\"";
    } else {
      TokensQuoted(ws[0], " " + Line(ws[1..]), room);
      assert Line(ws) == Quoted(ws[0]) + (" " + Line(ws[1..]));
      assert "\"" + (" " + Line(ws[1..])) == "\" " + Line(ws[1..]);
    }
  }

  /** After the closing quote comes nothing, or a blank and the next strings. */
  lemma AfterQuote(w: string, more: string, room: nat)
    ensures Followed(w, "\"", room) == Parsed([w], NoComment)
    ensures Followed(w, "\" " + more, room) == WithTokens([w], Tokens(more, room))
  {
    assert "\""[1..] == "" && ("\" " + more)[1..] == " " + more && (" " + more)[1..] == more;
    assert Tokens(" " + more, room) == Tokens(more, room);
  }

  lemma LineStartsQuoted(ws: seq<string>)
    requires ws != []
    ensures Line(ws) != "" && Line(ws)[0] == '\"'
  {
  }

  /** A blank and a comment after the strings. */
  lemma CommentAfter(text: string, room: nat)
    requires text != "" && IsComment(text[0])
    ensures Tokens(text, room) == if room == 0 then ParseError else Parsed([], Comment(text))
  {
  }

  /**
   * A comment after the strings is found if there is room for another token; after the last token there could be, it makes
   * the line a parse error.
   */
  lemma {:induction false} TokensOfCommentedLine(ws: seq<string>, comment: string, room: nat)
    requires comment != "" && IsComment(comment[0])
    ensures Tokens(Line(ws) + " " + comment, room) == if |ws| < room then Parsed(ws, Comment(comment)) else ParseError
  {
    hide Quoted, Tokens, Followed, Escape;
    var s := Line(ws) + " " + comment;
    CommentAfter(comment, room);
    if ws == [] {
      assert s == " " + comment;
      BlankFirst(comment, room);
    } else {
      LineStartsQuoted(ws);
      NoTokens(s, room);
      if room > 0 {
        var more := if |ws| == 1 then comment else Line(ws[1..]) + " " + comment;
        assert s == Quoted(ws[0]) + (" " + more) by { CommentedLine(ws, comment); }
        TokensQuoted(ws[0], " " + more, room);
        assert "\"" + (" " + more) == "\" " + more;
        AfterQuote(ws[0], more, room - 1);
        if |ws| == 1 {
          CommentAfter(comment, room - 1);
        } else {
          TokensOfCommentedLine(ws[1..], comment, room - 1);
        }
        assert ws == [ws[0]] + ws[1..];
      }
    }
  }

  lemma BlankFirst(s: string, room: nat)
    ensures Tokens(" " + s, room) == Tokens(s, room)
  {
    assert (" " + s)[1..] == s;
  }

  lemma {:induction false} CommentedLine(ws: seq<string>, comment: string)
    requires ws != []
    ensures Line(ws) + " " + comment
         == Quoted(ws[0]) + (" " + (if |ws| == 1 then comment else Line(ws[1..]) + " " + comment))
  {
    hide Quoted;
    if |ws| == 1 {
      Grouped(Quoted(ws[0]), comment);
    } else {
      GroupedTwice(Quoted(ws[0]), Line(ws[1..]), comment);
    }
  }

  lemma Grouped(a: string, b: string)
    ensures a + " " + b == a + (" " + b)
  {
  }

  lemma GroupedTwice(a: string, b: string, c: string)
    ensures a + " " + b + " " + c == a + (" " + (b + " " + c))
  {
    assert a + " " + b + " " + c == a + (" " + b + " " + c);
    assert " " + b + " " + c == " " + (b + " " + c);
  }

  lemma NoTokens(s: string, room: nat)
    ensures s == "" ==> Tokens(s, room) == Parsed([], NoComment)
    ensures s != "" && s[0] == '\"' ==> Tokens(s, 0) == ParseError
  {
  }

  /** Up to `room` strings of any content come back; more are refused. */
  lemma {:induction false} TokensOfLine(ws: seq<string>, room: nat)
    ensures Tokens(Line(ws), room) == if |ws| <= room then Parsed(ws, NoComment) else ParseError
  {
    hide Quoted, Tokens, Followed;
    NoTokens(Line(ws), room);
    if ws != [] {
      LineStartsQuoted(ws);
      if room > 0 {
        FirstOfLine(ws, room);
        AfterQuote(ws[0], Line(ws[1..]), room - 1);
        TokensOfLine(ws[1..], room - 1);
        assert ws == [ws[0]] + ws[1..];
      }
    }
  }

  // ---- The three ways to write a string

  datatype Form = Bare(text: string) | Single(text: string) | Double(text: string)

  function WrittenForm(f: Form): string {
    match f
    case Bare(text) => Escape(text)
    case Single(text) => "'" + text + "'"
    case Double(text) => Quoted(text)
  }

  /** Single quotes hold anything but a single quote; without quotes a string must not look like something else. */
  predicate Writable(f: Form) {
    match f
    case Bare(text) => text != "" && text[0] != '\'' && !IsComment(text[0]) && '\t' !in text
    case Single(text) => '\'' !in text
    case Double(_) => true
  }

  lemma {:induction false} BareUndoesEscape(w: string, rest: string)
    requires '\t' !in w && (rest == "" || IsBlank(rest[0]))
    ensures CopyOf(Escape(w) + rest, " \t") == Copy(w, |Escape(w)|)
  {
    if w == "" {
      assert Escape(w) + rest == rest;
    } else {
      var c, more := w[0], Escape(w[1..]) + rest;
      BareUndoesEscape(w[1..], rest);
      assert Escape(w) + rest == EscapedChar(c) + more;
      BareEscapedChar(c, more);
      assert w == [c] + w[1..];
    }
  }

  lemma BareEscapedChar(c: char, more: string)
    requires c != '\t'
    ensures CopyOf(EscapedChar(c) + more, " \t") == Prepended(c, |EscapedChar(c)|, CopyOf(more, " \t"))
  {
    var s := EscapedChar(c) + more;
    assert s[|EscapedChar(c)|..] == more;
    if MustEscape(c) {
      assert s[0] == '\\' && s[1] == c;
    } else {
      assert s[0] == c;
    }
  }

  lemma TokensBare(w: string, rest: string, room: nat)
    requires room > 0 && Writable(Bare(w)) && (rest == "" || IsBlank(rest[0]))
    ensures Tokens(Escape(w) + rest, room) == Followed(w, rest, room - 1)
  {
    BareUndoesEscape(w, rest);
    var s := Escape(w) + rest;
    assert s[0] == if MustEscape(w[0]) then '\\' else w[0];
    hide CopyOf, Followed, Escape;
    assert s[|Escape(w)|..] == rest;
  }

  lemma TokensSingle(w: string, rest: string, room: nat)
    requires room > 0 && '\'' !in w
    ensures Tokens("'" + w + "'" + rest, room) == Followed(w, "'" + rest, room - 1)
  {
    var s := "'" + w + "'" + rest;
    var inner := s[1..];
    assert inner == w + "'" + rest;
    assert inner[..|w|] == w && inner[|w|] == '\'' && inner[|w|..] == "'" + rest;
    AfterUnique(inner, '\'', |w| + 1);
    hide Followed;
  }

  /** After the string the closing quote, if there is one, and then a blank and what follows. */
  lemma NextAfterForm(f: Form, more: string, room: nat)
    requires Writable(f) && room > 0
    ensures Tokens(WrittenForm(f), room) == Parsed([f.text], NoComment)
    ensures Tokens(WrittenForm(f) + " " + more, room) == WithTokens([f.text], Tokens(more, room - 1))
  {
    var w, rest := WrittenForm(f), " " + more;
    assert w + " " + more == w + rest && w + "" == w;
    assert rest[1..] == more;
    hide Escape, Quoted;
    match f
    case Bare(text) =>
      TokensBare(text, "", room);
      TokensBare(text, rest, room);
      hide Tokens;
      assert Followed(text, rest, room - 1) == WithTokens([text], Tokens(rest[1..], room - 1));
    case Single(text) =>
      TokensSingle(text, "", room);
      TokensSingle(text, rest, room);
      BlankFirst(more, room - 1);
      hide Tokens;
      assert ("'" + rest)[1..] == rest && ("'" + "")[1..] == "";
      NoTokensLeft(room - 1);
    case Double(text) =>
      TokensQuoted(text, "", room);
      TokensQuoted(text, rest, room);
      BlankFirst(more, room - 1);
      hide Tokens;
      assert ("\"" + rest)[1..] == rest && ("\"" + "")[1..] == "";
      NoTokensLeft(room - 1);
  }

  lemma NoTokensLeft(room: nat)
    ensures Tokens("", room) == Parsed([], NoComment)
  {
  }

  function FormLine(fs: seq<Form>): string {
    if fs == [] then "" else if |fs| == 1 then WrittenForm(fs[0]) else WrittenForm(fs[0]) + " " + FormLine(fs[1..])
  }

  function TextsOf(fs: seq<Form>): (texts: seq<string>)
    ensures |texts| == |fs|
  {
    seq(|fs|, i requires 0 <= i < |fs| => fs[i].text)
  }

  lemma FormStarts(f: Form)
    requires Writable(f)
    ensures WrittenForm(f) != "" && !IsBlank(WrittenForm(f)[0]) && !IsComment(WrittenForm(f)[0])
  {
  }

  lemma NoRoomForToken(s: string)
    requires s != "" && !IsBlank(s[0])
    ensures Tokens(s, 0) == ParseError
  {
  }

  /** Whichever way each of the strings is written, they come back if there is room for them, and are refused otherwise. */
  lemma {:induction false} TokensOfForms(fs: seq<Form>, room: nat)
    requires forall i :: 0 <= i < |fs| ==> Writable(fs[i])
    ensures Tokens(FormLine(fs), room) == if |fs| <= room then Parsed(TextsOf(fs), NoComment) else ParseError
  {
    hide Tokens, WrittenForm, Writable;
    if fs == [] {
      NoTokensLeft(room);
    } else {
      FormStarts(fs[0]);
      if room == 0 {
        NoRoomForToken(FormLine(fs));
      } else {
        NextAfterForm(fs[0], FormLine(fs[1..]), room);
        if |fs| == 1 {
          assert TextsOf(fs) == [fs[0].text];
        } else {
          TokensOfForms(fs[1..], room - 1);
          assert TextsOf(fs) == [fs[0].text] + TextsOf(fs[1..]);
        }
      }
    }
  }
}
