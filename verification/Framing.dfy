/** Framing of the management byte stream: how FD_READ cuts what arrives into lines and password prompts. */
module Framing {
  import opened CStrings

  const PROMPT: string := "ENTER PASSWORD:"

  predicate IsPrompt(s: string) {
    PROMPT <= s
  }

  /** The prompt holds neither end-of-line byte, so its presence shows in any part that does. */
  lemma NotPrompt(s: string, n: nat)
    requires n < |s| && (s[n] == '\n' || s[n] == '\r')
    ensures IsPrompt(s) <==> n >= |PROMPT| && IsPrompt(s[..n])
  {
    assert |PROMPT| == 15;
    assert forall i :: 0 <= i < |PROMPT| ==> PROMPT[i] != '\n' && PROMPT[i] != '\r';
    if IsPrompt(s) {
      assert n >= |PROMPT|;
      assert s[..n][..|PROMPT|] == s[..|PROMPT|];
    }
    if n >= |PROMPT| && IsPrompt(s[..n]) {
      assert s[..|PROMPT|] == s[..n][..|PROMPT|];
    }
  }

  datatype Event = Prompt | Line(text: string)

  /** Length of the first prompt or line of s, or 0 if it is still unfinished. */
  function EventEnd(s: string): (n: nat)
    ensures n <= |s|
  {
    if IsPrompt(s) then |PROMPT| else After(s, '\n')
  }

  /** The first colon of a prompt is its last byte. */
  lemma ColonEndsPrompt(s: string)
    requires IsPrompt(s)
    ensures After(s, ':') == |PROMPT|
  {
    assert |PROMPT| == 15 && PROMPT[14] == ':' && ':' !in PROMPT[..14];
    assert s[..14] == PROMPT[..14] && s[14] == PROMPT[14];
    AfterUnique(s, ':', 15);
  }

  /** The byte before the newline is overwritten by a NUL, whatever it is. */
  function FirstEvent(s: string): Event
    requires EventEnd(s) > 0
  {
    if IsPrompt(s) then Prompt else Line(CString(s[..if EventEnd(s) < 2 then 0 else EventEnd(s) - 2]))
  }

  function Events(s: string): seq<Event>
    decreases |s|
  {
    if EventEnd(s) == 0 then [] else [FirstEvent(s)] + Events(s[EventEnd(s)..])
  }

  /** The unfinished part of s, which is saved for the next read. */
  function Tail(s: string): string
    decreases |s|
  {
    if EventEnd(s) == 0 then s else Tail(s[EventEnd(s)..])
  }

  /** No line of s starts with its newline, so there is a byte to overwrite. */
  predicate Tidy(s: string)
    decreases |s|
  {
    EventEnd(s) == 0 || (EventEnd(s) > 1 && Tidy(s[EventEnd(s)..]))
  }

  predicate NewlinesFollowReturns(s: string) {
    forall i :: 0 <= i < |s| && s[i] == '\n' ==> 0 < i && s[i - 1] == '\r'
  }

  lemma {:induction false} ReturnsMakeTidy(s: string)
    requires NewlinesFollowReturns(s)
    ensures Tidy(s)
    decreases |s|
  {
    var n := EventEnd(s);
    if n != 0 {
      assert n > 1;
      var rest := s[n..];
      forall i | 0 <= i < |rest| && rest[i] == '\n' ensures 0 < i && rest[i - 1] == '\r' {
        assert s[n + i] == '\n';
        assert s[n + i - 1] == '\r';
        assert s[n - 1] != '\r';
      }
      ReturnsMakeTidy(rest);
    }
  }

  lemma PromptStays(a: string, b: string)
    requires IsPrompt(a)
    ensures IsPrompt(a + b)
  {
  }

  /** A finished event stays the same however the stream goes on. */
  lemma FirstEventStable(a: string, b: string)
    requires EventEnd(a) > 0
    ensures EventEnd(a + b) == EventEnd(a) && FirstEvent(a + b) == FirstEvent(a)
  {
    hide IsPrompt;
    var n := EventEnd(a);
    if IsPrompt(a) {
      PromptStays(a, b);
    } else {
      assert (a + b)[n - 1] == '\n' && (a + b)[..n - 1] == a[..n - 1];
      AfterUnique(a + b, '\n', n);
      NotPrompt(a, n - 1);
      NotPrompt(a + b, n - 1);
      assert (a + b)[..if n < 2 then 0 else n - 2] == a[..if n < 2 then 0 else n - 2];
    }
  }

  /** Reading a and then b is the same as reading a + b. */
  lemma {:induction false} ReadInTwoParts(a: string, b: string)
    ensures Events(a + b) == Events(a) + Events(Tail(a) + b)
    ensures Tail(a + b) == Tail(Tail(a) + b)
    decreases |a|
  {
    var n := EventEnd(a);
    if n != 0 {
      FirstEventStable(a, b);
      assert (a + b)[n..] == a[n..] + b;
      ReadInTwoParts(a[n..], b);
    }
  }

  lemma {:induction false} TailIsUnfinished(s: string)
    ensures EventEnd(Tail(s)) == 0 && |Tail(s)| <= |s|
    decreases |s|
  {
    if EventEnd(s) != 0 { TailIsUnfinished(s[EventEnd(s)..]); }
  }

  lemma NothingFinished(s: string)
    requires EventEnd(s) == 0
    ensures Events(s) == [] && Tail(s) == s
  {
  }

  function Joined(chunks: seq<string>): string {
    if chunks == [] then "" else chunks[0] + Joined(chunks[1..])
  }

  /** What a series of reads dispatches, starting from the saved bytes. */
  function EventsOfReads(saved: string, chunks: seq<string>): seq<Event>
    decreases |chunks|
  {
    if chunks == [] then [] else Events(saved + chunks[0]) + EventsOfReads(Tail(saved + chunks[0]), chunks[1..])
  }

  function TailOfReads(saved: string, chunks: seq<string>): string
    decreases |chunks|
  {
    if chunks == [] then saved else TailOfReads(Tail(saved + chunks[0]), chunks[1..])
  }

  lemma {:induction false} ReadsAreOneRead(saved: string, chunks: seq<string>)
    requires EventEnd(saved) == 0
    ensures EventsOfReads(saved, chunks) == Events(saved + Joined(chunks))
    ensures TailOfReads(saved, chunks) == Tail(saved + Joined(chunks))
    decreases |chunks|
  {
    hide Events, Tail, EventEnd;
    if chunks == [] {
      assert saved + Joined(chunks) == saved;
      NothingFinished(saved);
    } else {
      var first := saved + chunks[0];
      TailIsUnfinished(first);
      ReadsAreOneRead(Tail(first), chunks[1..]);
      ReadInTwoParts(first, Joined(chunks[1..]));
      assert first + Joined(chunks[1..]) == saved + Joined(chunks);
    }
  }

  /** Any two ways of cutting the same bytes give the same lines, prompts and saved rest. */
  lemma {:induction false} ChunkIndependence(saved: string, one: seq<string>, other: seq<string>)
    requires EventEnd(saved) == 0 && Joined(one) == Joined(other)
    ensures EventsOfReads(saved, one) == EventsOfReads(saved, other)
    ensures TailOfReads(saved, one) == TailOfReads(saved, other)
  {
    ReadsAreOneRead(saved, one);
    ReadsAreOneRead(saved, other);
  }

  /** What the daemon may write as one line. */
  predicate IsLine(text: string) {
    '\n' !in text && '\0' !in text && !IsPrompt(text)
  }

  predicate Writable(e: Event) {
    e.Prompt? || IsLine(e.text)
  }

  /** The bytes the daemon writes for e. */
  function Written(e: Event): string {
    match e
    case Prompt => PROMPT
    case Line(text) => text + "\r\n"
  }

  function AllWritten(es: seq<Event>): string {
    if es == [] then "" else Written(es[0]) + AllWritten(es[1..])
  }

  lemma {:induction false} AllWrittenAppend(es: seq<Event>, more: seq<Event>)
    ensures AllWritten(es + more) == AllWritten(es) + AllWritten(more)
  {
    if es == [] {
      assert es + more == more;
    } else {
      assert (es + more)[1..] == es[1..] + more;
      AllWrittenAppend(es[1..], more);
    }
  }

  lemma FirstWritten(e: Event, rest: string)
    requires Writable(e)
    ensures EventEnd(Written(e) + rest) == |Written(e)|
    ensures FirstEvent(Written(e) + rest) == e
  {
    hide IsPrompt;
    var s := Written(e) + rest;
    match e
    case Line(text) =>
      var n := |text| + 2;
      assert s[..n - 1] == text + "\r" && s[n - 1] == '\n' && s[n - 2] == '\r';
      AfterUnique(s, '\n', n);
      assert s[..n - 2] == text;
      NotPrompt(s, n - 2);
    case Prompt =>
      PromptStays(PROMPT, rest);
  }

  /** Framing undoes writing. */
  lemma {:induction false} FramingUndoesWriting(es: seq<Event>)
    requires forall e :: e in es ==> Writable(e)
    ensures Events(AllWritten(es)) == es && Tail(AllWritten(es)) == "" && Tidy(AllWritten(es))
  {
    if es != [] {
      var rest := AllWritten(es[1..]);
      FirstWritten(es[0], rest);
      assert (Written(es[0]) + rest)[|Written(es[0])|..] == rest;
      FramingUndoesWriting(es[1..]);
    }
  }

  lemma FirstArrived(e: Event, rest: string)
    requires Writable(e)
    ensures Events(Written(e) + rest) == [e] + Events(rest) && Tail(Written(e) + rest) == Tail(rest)
  {
    hide EventEnd, FirstEvent, Written;
    FirstWritten(e, rest);
    WrittenLength(e);
    assert (Written(e) + rest)[|Written(e)|..] == rest;
  }

  lemma WrittenLength(e: Event)
    ensures |Written(e)| > 0
  {
  }

  /** Whatever part of the bytes has arrived, the events so far and the events of the rest make up all of them. */
  lemma {:induction false} PartialArrival(es: seq<Event>, a: string, b: string) returns (k: nat)
    requires forall e :: e in es ==> Writable(e)
    requires a + b == AllWritten(es)
    ensures k <= |es| && Events(a) == es[..k] && Tail(a) + b == AllWritten(es[k..])
    decreases |es|
  {
    hide IsPrompt, EventEnd, FirstEvent, Written, Writable;
    if es == [] || |a| < |Written(es[0])| {
      k := 0;
      Unfinished(es, a, b);
      assert es[0..] == es;
    } else {
      var e, rest := es[0], a[|Written(es[0])|..];
      FirstPart(e, AllWritten(es[1..]), a, b);
      var j := PartialArrival(es[1..], rest, b);
      k := j + 1;
      FirstArrived(e, rest);
      assert es == [e] + es[1..];
    }
  }

  lemma FirstPart(e: Event, more: string, a: string, b: string)
    requires a + b == Written(e) + more && |Written(e)| <= |a|
    ensures a == Written(e) + a[|Written(e)|..]
    ensures a[|Written(e)|..] + b == more
  {
    var n := |Written(e)|;
    assert a[..n] == (a + b)[..n] == Written(e);
    assert a[n..] + b == (a + b)[n..] == (Written(e) + more)[n..];
  }

  lemma Unfinished(es: seq<Event>, a: string, b: string)
    requires forall e :: e in es ==> Writable(e)
    requires a + b == AllWritten(es) && (es == [] || |a| < |Written(es[0])|)
    ensures EventEnd(a) == 0
  {
    hide IsPrompt;
    if es != [] {
      FirstWritten(es[0], AllWritten(es[1..]));
      if EventEnd(a) != 0 {
        FirstEventStable(a, b);
      }
    } else {
      assert a == "";
    }
  }
}
