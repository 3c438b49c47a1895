/**
 * The management client and the daemon together, joined by two byte channels: replies are matched to commands by their
 * order alone.
 */
module ReplyMatching {
  import opened CStrings
  import opened Framing
  import opened ManagementClient

  /**
   * What the daemon writes: notifications of the topics that the client knows and others, a password prompt, and answers to
   * its commands, numbered from 0.
   */
  datatype Item =
    | Note(topic: Topic, text: string)
    | Other(line: string)
    | Ask
    | Answer(command: nat, kind: Kind, line: string)

  /** How many commands are fully answered, and how many parts of the answer to the next one are. */
  datatype Position = Position(served: nat, parts: nat)

  datatype World = World(client: Client, saved: string, inbox: seq<Event>, down: string, read: nat,
                         daemon: Position, written: seq<Item>, handled: nat)

  datatype Move =
    | Command(req: Request)
    | SocketReady
    | Fetch(n: nat)
    | Say(item: Item)
    | Arrive(n: nat)
    | HandleNext

  function EventOf(item: Item): Event {
    match item
    case Note(topic, text) => Line(NoteLine(topic, text))
    case Other(line) => Line(line)
    case Ask => Prompt
    case Answer(_, _, line) => Line(line)
  }

  function EventsOf(items: seq<Item>): (es: seq<Event>)
    ensures |es| == |items|
  {
    seq(|items|, i requires 0 <= i < |items| => EventOf(items[i]))
  }

  /** The lines that complete an answer, or its first part. */
  predicate Finishes(line: string) {
    IsKeyAnswer(line) || IsSuccess(line) || IsError(line) || IsEnd(line)
  }

  /** What the daemon may write: a combined command is never answered by an error. */
  ghost predicate Allowed(item: Item) {
    match item
    case Note(topic, text) => topic != Stop && IsLine(NoteLine(topic, text))
    case Other(line) => IsLine(line) && IsNotification(line) && !IsKeyAnswer(line) && Untagged(line)
    case Ask => true
    case Answer(_, kind, line) =>
      IsLine(line) && (IsNotification(line) ==> IsKeyAnswer(line))
      && (IsSuccess(line) ==> |line| >= 9) && (kind.Combined? ==> !IsError(line))
  }

  /** How the daemon counts: an error ends the answer to any command. */
  function Advance(pos: Position, item: Item): Position {
    if !item.Answer? || !Finishes(item.line) then pos
    else if item.kind.Combined? && pos.parts == 0 && !IsError(item.line) then Position(pos.served, 1)
    else Position(pos.served + 1, 0)
  }

  function PositionAfter(items: seq<Item>): Position {
    if items == [] then Position(0, 0) else Advance(PositionAfter(items[..|items| - 1]), items[|items| - 1])
  }

  /** A command is one line, and its caller knows whether the daemon answers it in two parts. */
  predicate Proper(style: string -> Kind, req: Request) {
    '\n' !in req.text && req.kind == style(req.text)
  }

  ghost predicate WellBehaved(style: string -> Kind, env: Environment) {
    forall calls, i :: 0 <= i < |env.react(calls)| ==> Proper(style, env.react(calls)[i])
  }

  /** The complete lines of s. */
  function Lines(s: string): seq<string>
    decreases |s|
  {
    if After(s, '\n') == 0 then [] else [s[..After(s, '\n') - 1]] + Lines(s[After(s, '\n')..])
  }

  ghost predicate Enabled(style: string -> Kind, w: World, m: Move) {
    match m
    case Command(req) => Proper(style, req)
    case SocketReady => true
    case Fetch(n) => w.read + n <= |w.client.wire|
    case Arrive(n) => w.inbox == [] && n <= |w.down|
    case HandleNext => w.inbox != []
    case Say(item) =>
      Allowed(item)
      && match item {
           case Note(_, _) => true
           case Other(_) => true
           case Ask => Ask !in w.written && w.client.password != ""
           case Answer(command, kind, _) =>
             w.read <= |w.client.wire| && command == w.daemon.served
             && command < |Lines(w.client.wire[..w.read])|
             && kind == style(Lines(w.client.wire[..w.read])[command])
         }
  }

  function Next(style: string -> Kind, env: Environment, w: World, m: Move): World
    requires Enabled(style, w, m)
  {
    match m
    case Command(req) => w.(client := Enqueue(env, w.client, req))
    case SocketReady => w.(client := SendHead(env, w.client))
    case Fetch(n) => w.(read := w.read + n)
    case Say(item) =>
      w.(daemon := Advance(w.daemon, item), written := w.written + [item], down := w.down + Written(EventOf(item)))
    case Arrive(n) =>
      var data := w.saved + w.down[..n];
      w.(inbox := Events(data), saved := Tail(data), down := w.down[n..])
    case HandleNext =>
      w.(client := Handle(env, w.client, w.inbox[0]), inbox := w.inbox[1..], handled := w.handled + 1)
  }

  ghost predicate Run(style: string -> Kind, env: Environment, w: World, moves: seq<Move>)
    decreases |moves|
  {
    moves == [] || (Enabled(style, w, moves[0]) && Run(style, env, Next(style, env, w, moves[0]), moves[1..]))
  }

  function End(style: string -> Kind, env: Environment, w: World, moves: seq<Move>): World
    requires Run(style, env, w, moves)
    decreases |moves|
  {
    if moves == [] then w else End(style, env, Next(style, env, w, moves[0]), moves[1..])
  }

  function Start(password: string): World {
    World(Client(true, 0, password, [], [], "", 0, []), "", [], "", 0, Position(0, 0), [], 0)
  }

  function Handles(n: nat): seq<Move> {
    if n == 0 then [] else [HandleNext] + Handles(n - 1)
  }

  lemma {:induction false} HandlesAll(style: string -> Kind, env: Environment, w: World)
    ensures Run(style, env, w, Handles(|w.inbox|))
    ensures End(style, env, w, Handles(|w.inbox|))
         == w.(client := HandleAll(env, w.client, w.inbox), inbox := [], handled := w.handled + |w.inbox|)
    decreases |w.inbox|
  {
    hide Handle;
    if w.inbox != [] {
      var v := Next(style, env, w, HandleNext);
      HandlesAll(style, env, v);
      assert Handles(|w.inbox|)[1..] == Handles(|v.inbox|);
    }
  }

  /** One FD_READ event is an arrival followed by the handling of all it brought. */
  lemma ReadIsArrivalAndHandling(style: string -> Kind, env: Environment, w: World, n: nat)
    requires w.inbox == [] && n <= |w.down|
    ensures var data := w.saved + w.down[..n];
            var moves := [Arrive(n)] + Handles(|Events(data)|);
            Run(style, env, w, moves)
            && End(style, env, w, moves).client == HandleAll(env, w.client, Events(data))
            && End(style, env, w, moves).saved == Tail(data) && End(style, env, w, moves).inbox == []
  {
    hide HandleAll, Handle, Tail, Events;
    var moves := [Arrive(n)] + Handles(|Events(w.saved + w.down[..n])|);
    var v := Next(style, env, w, Arrive(n));
    HandlesAll(style, env, v);
    assert moves[1..] == Handles(|v.inbox|);
  }

  // What the client knows of its commands

  function Bytes(reqs: seq<Request>): string {
    if reqs == [] then "" else reqs[0].text + "\n" + Bytes(reqs[1..])
  }

  function Texts(reqs: seq<Request>): (texts: seq<string>)
    ensures |texts| == |reqs|
  {
    seq(|reqs|, i requires 0 <= i < |reqs| => reqs[i].text)
  }

  /** How many commands have left the queue. */
  function Done(c: Client): int {
    |c.issued| - |c.queue|
  }

  /** How many commands the socket has taken completely. */
  function Complete(c: Client): int {
    if c.queue != [] && c.queue[0].rest == "" then Done(c) + 1 else Done(c)
  }

  /** v is the queued form of req, partly sent and perhaps half answered. */
  predicate Underway(v: Cmd, req: Request) {
    |v.rest| <= |req.text| + 1 && v.rest == (req.text + "\n")[|req.text| + 1 - |v.rest|..]
    && v.handler == req.handler && (v.kind == req.kind || v.kind.Regular?)
  }

  /** The bytes of req that have been sent. */
  function Sent(v: Cmd, req: Request): string
    requires Underway(v, req)
  {
    (req.text + "\n")[..|req.text| + 1 - |v.rest|]
  }

  /** The queue holds the last commands issued; the wire holds the earlier ones and the sent part of the head. */
  predicate Sound(style: string -> Kind, c: Client) {
    c.open && Done(c) >= 0
    && (forall i :: 0 <= i < |c.issued| ==> Proper(style, c.issued[i]))
    && (forall i :: 0 < i < |c.queue| ==> c.queue[i] == Fresh(c.issued[Done(c) + i]))
    && (if c.queue == [] then c.wire == Bytes(c.issued)
        else Underway(c.queue[0], c.issued[Done(c)])
             && c.wire == Bytes(c.issued[..Done(c)]) + Sent(c.queue[0], c.issued[Done(c)]))
  }

  function PositionOf(c: Client): Position
    requires Done(c) >= 0
  {
    Position(Done(c), if c.queue != [] && c.issued[Done(c)].kind.Combined? && c.queue[0].kind.Regular? then 1 else 0)
  }

  lemma {:induction false} BytesAppend(reqs: seq<Request>, req: Request)
    ensures Bytes(reqs + [req]) == Bytes(reqs) + req.text + "\n"
  {
    if reqs != [] {
      assert (reqs + [req])[1..] == reqs[1..] + [req];
      BytesAppend(reqs[1..], req);
    }
  }

  lemma {:induction false} FirstLine(text: string, rest: string)
    requires '\n' !in text
    ensures Lines(text + "\n" + rest) == [text] + Lines(rest)
  {
    var s := text + "\n" + rest;
    assert s[..|text|] == text;
    AfterUnique(s, '\n', |text| + 1);
    assert s[|text| + 1..] == rest;
  }

  lemma NoLines(s: string)
    requires '\n' !in s
    ensures Lines(s) == []
  {
  }

  lemma {:induction false} LinesOfBytes(reqs: seq<Request>, rest: string)
    requires forall i :: 0 <= i < |reqs| ==> '\n' !in reqs[i].text
    requires '\n' !in rest
    ensures Lines(Bytes(reqs) + rest) == Texts(reqs)
  {
    hide Lines;
    if reqs == [] {
      assert Bytes(reqs) + rest == rest;
      NoLines(rest);
    } else {
      var more := Bytes(reqs[1..]) + rest;
      assert Bytes(reqs) + rest == reqs[0].text + "\n" + more;
      FirstLine(reqs[0].text, more);
      LinesOfBytes(reqs[1..], rest);
      assert Texts(reqs) == [reqs[0].text] + Texts(reqs[1..]);
    }
  }

  lemma LinesOfAll(reqs: seq<Request>)
    requires forall i :: 0 <= i < |reqs| ==> '\n' !in reqs[i].text
    ensures Lines(Bytes(reqs)) == Texts(reqs)
  {
    LinesOfBytes(reqs, "");
    assert Bytes(reqs) + "" == Bytes(reqs);
  }

  lemma {:induction false} LinesOfPart(a: string, b: string)
    ensures Lines(a) <= Lines(a + b)
    decreases |a|
  {
    var n := After(a, '\n');
    if n > 0 {
      assert (a + b)[..n - 1] == a[..n - 1] && (a + b)[n - 1] == '\n' && (a + b)[n..] == a[n..] + b;
      AfterUnique(a + b, '\n', n);
      LinesOfPart(a[n..], b);
    }
  }

  /** The daemon finds exactly the completely sent commands, in order. */
  lemma WireLines(style: string -> Kind, c: Client)
    requires Sound(style, c)
    ensures 0 <= Complete(c) <= |c.issued| && Lines(c.wire) == Texts(c.issued[..Complete(c)])
  {
    hide Bytes, Lines, Texts;
    var d := Done(c);
    if c.queue == [] {
      assert c.issued[..d] == c.issued;
      LinesOfAll(c.issued);
    } else {
      var req := c.issued[d];
      var sent := Sent(c.queue[0], req);
      if c.queue[0].rest == "" {
        assert sent == req.text + "\n";
        BytesAppend(c.issued[..d], req);
        assert Bytes(c.issued[..d]) + (req.text + "\n") == Bytes(c.issued[..d]) + req.text + "\n";
        assert c.issued[..d + 1] == c.issued[..d] + [req];
        LinesOfAll(c.issued[..d + 1]);
      } else {
        assert sent == req.text[..|sent|];
        LinesOfBytes(c.issued[..d], sent);
      }
    }
  }

  // What one step of the client keeps

  /** d has followed c without a command being answered: commands are only added at the end, bytes only sent. */
  predicate Grows(c: Client, d: Client) {
    c.issued <= d.issued && c.wire <= d.wire && Done(d) == Done(c) && d.password == c.password
    && Complete(c) <= Complete(d)
    && (c.queue != [] ==> d.queue != [] && d.queue[0].handler == c.queue[0].handler && d.queue[0].kind == c.queue[0].kind)
    && (d.queue != [] && c.queue == [] && Done(d) >= 0 ==> d.queue[0].kind == d.issued[Done(d)].kind)
  }

  lemma GrowsOn(c: Client, d: Client, e: Client)
    requires Grows(c, d) && Grows(d, e)
    ensures Grows(c, e)
  {
  }

  lemma GrowsKeepsPosition(c: Client, d: Client)
    requires Grows(c, d) && Done(c) >= 0
    ensures PositionOf(d) == PositionOf(c)
  {
  }

  lemma SendHeadSound(style: string -> Kind, env: Environment, c: Client)
    requires Sound(style, c)
    ensures Sound(style, SendHead(env, c)) && Grows(c, SendHead(env, c))
    ensures SendHead(env, c).issued == c.issued && SendHead(env, c).calls == c.calls
  {
    hide Bytes, Proper, Underway, Sent, Fresh;
    if c.queue != [] && c.queue[0].rest != "" {
      SendPart(c.queue[0], c.issued[Done(c)], Taken(env.accept(c.sends), |c.queue[0].rest|));
    }
  }

  lemma SendPart(v: Cmd, req: Request, n: nat)
    requires Underway(v, req) && n <= |v.rest|
    ensures Underway(v.(rest := v.rest[n..]), req)
    ensures Sent(v.(rest := v.rest[n..]), req) == Sent(v, req) + v.rest[..n]
  {
  }

  lemma EnqueueSound(style: string -> Kind, env: Environment, c: Client, req: Request)
    requires Sound(style, c) && Proper(style, req)
    ensures Sound(style, Enqueue(env, c, req)) && Grows(c, Enqueue(env, c, req))
    ensures Enqueue(env, c, req).calls == c.calls
  {
    var d := c.(queue := c.queue + [Fresh(req)], issued := c.issued + [req]);
    assert d.issued[..Done(c)] == c.issued[..Done(c)];
    if c.queue == [] {
      assert d.issued[..Done(c)] == c.issued;
      assert Sent(d.queue[0], req) == "";
      SendHeadSound(style, env, d);
      GrowsOn(c, d, SendHead(env, d));
    }
  }

  lemma {:induction false} EnqueueAllSound(style: string -> Kind, env: Environment, c: Client, reqs: seq<Request>)
    requires Sound(style, c) && forall i :: 0 <= i < |reqs| ==> Proper(style, reqs[i])
    ensures Sound(style, EnqueueAll(env, c, reqs)) && Grows(c, EnqueueAll(env, c, reqs))
    ensures EnqueueAll(env, c, reqs).calls == c.calls
    decreases |reqs|
  {
    hide Sound, Enqueue, Grows, Proper;
    if reqs == [] {
      GrowsNot(c);
    } else {
      EnqueueSound(style, env, c, reqs[0]);
      var d := Enqueue(env, c, reqs[0]);
      EnqueueAllSound(style, env, d, reqs[1..]);
      GrowsOn(c, d, EnqueueAll(env, d, reqs[1..]));
    }
  }

  lemma GrowsNot(c: Client)
    ensures Grows(c, c)
  {
  }

  lemma InvokeSound(style: string -> Kind, env: Environment, c: Client, call: Call)
    requires Sound(style, c) && WellBehaved(style, env)
    ensures Sound(style, Invoke(env, c, call)) && Grows(c, Invoke(env, c, call))
    ensures Invoke(env, c, call).calls == c.calls + [call]
  {
    hide Proper, EnqueueAll;
    var d := c.(calls := c.calls + [call]);
    EnqueueAllSound(style, env, d, env.react(d.calls));
  }

  /** The first part of an answer to the head has come. */
  lemma DemoteSound(style: string -> Kind, c: Client, d: Client)
    requires Sound(style, c) && c.queue != [] && c.queue[0].rest == "" && c.queue[0].kind.Combined?
    requires d == c.(queue := [Cmd("", c.queue[0].handler, Regular)] + c.queue[1..])
    ensures Sound(style, d) && PositionOf(d) == Position(Done(c), 1) && Complete(d) == Complete(c)
  {
    hide Bytes, Proper;
  }

  /** The head is answered and leaves the queue. */
  lemma DropSound(style: string -> Kind, c: Client, d: Client)
    requires Sound(style, c) && c.queue != [] && c.queue[0].rest == ""
    requires d == c.(queue := c.queue[1..])
    ensures Sound(style, d) && PositionOf(d) == Position(Done(c) + 1, 0) && Complete(d) >= Complete(c)
  {
    hide Bytes, Proper, Sent, Underway, Fresh;
    WireBeforeNext(style, c);
    forall i | 0 <= i < |d.queue| ensures d.queue[i] == Fresh(c.issued[Done(d) + i]) {
      assert d.queue[i] == c.queue[i + 1];
    }
    if d.queue != [] {
      FreshIsUnsent(c.issued[Done(d)]);
    } else {
      assert c.issued[..Done(d)] == c.issued;
    }
  }

  lemma FreshIsUnsent(req: Request)
    ensures Underway(Fresh(req), req) && Sent(Fresh(req), req) == "" && Fresh(req).rest != "" && Fresh(req).kind == req.kind
  {
  }

  lemma WireBeforeNext(style: string -> Kind, c: Client)
    requires Sound(style, c) && c.queue != [] && c.queue[0].rest == ""
    ensures c.wire == Bytes(c.issued[..Done(c) + 1])
  {
    hide Bytes, Proper;
    var req := c.issued[Done(c)];
    assert Sent(c.queue[0], req) == req.text + "\n";
    BytesAppend(c.issued[..Done(c)], req);
    assert c.issued[..Done(c) + 1] == c.issued[..Done(c)] + [req];
  }

  lemma UnqueueSound(style: string -> Kind, env: Environment, c: Client)
    requires Sound(style, c) && c.queue != [] && c.queue[0].rest == ""
    ensures Sound(style, Unqueue(env, c)) && c.wire <= Unqueue(env, c).wire
    ensures Unqueue(env, c).issued == c.issued && Unqueue(env, c).calls == c.calls
    ensures Unqueue(env, c).password == c.password && Complete(c) <= Complete(Unqueue(env, c))
    ensures PositionOf(Unqueue(env, c))
         == if c.queue[0].kind.Combined? then Position(Done(c), 1) else Position(Done(c) + 1, 0)
  {
    hide SendHead, Sound;
    if c.queue[0].kind.Combined? {
      assert Wiped("") == "";
      DemoteSound(style, c, Unqueue(env, c));
    } else {
      var d := c.(queue := c.queue[1..]);
      DropSound(style, c, d);
      SendHeadSound(style, env, d);
      GrowsKeepsPosition(d, SendHead(env, d));
    }
  }

  // Which calls the daemon's output must lead to

  function ReplyTo(handler: Option<nat>, answer: Option<string>): seq<Call> {
    if handler.None? then [] else [Reply(handler.value, answer)]
  }

  /** The calls for one item: a notification goes to the handler of its topic, an answer to that of its own command. */
  function Expected(issued: seq<Request>, item: Item): seq<Call> {
    match item
    case Ask => []
    case Note(topic, text) => [Notify(topic, text)]
    case Other(_) => []
    case Answer(command, _, line) =>
      if command >= |issued| then []
      else
        var handler := issued[command].handler;
        if IsKeyAnswer(line) then ReplyTo(handler, Some(line))
        else if IsSuccess(line) then ReplyTo(handler, Some(SuccessText(line, "")))
        else if IsError(line) then [Failure(line)] + ReplyTo(handler, None)
        else if IsEnd(line) then []
        else ReplyTo(handler, Some(line))
  }

  function ExpectedCalls(issued: seq<Request>, items: seq<Item>): seq<Call> {
    if items == [] then []
    else ExpectedCalls(issued, items[..|items| - 1]) + Expected(issued, items[|items| - 1])
  }

  lemma {:induction false} ExpectedStable(issued: seq<Request>, more: seq<Request>, items: seq<Item>)
    requires issued <= more
    requires forall i :: 0 <= i < |items| && items[i].Answer? ==> items[i].command < |issued|
    ensures ExpectedCalls(more, items) == ExpectedCalls(issued, items)
  {
    hide Expected;
    if items != [] {
      ExpectedSame(issued, more, items[|items| - 1]);
      ExpectedStable(issued, more, items[..|items| - 1]);
    }
  }

  lemma ExpectedSame(issued: seq<Request>, more: seq<Request>, item: Item)
    requires issued <= more && (item.Answer? ==> item.command < |issued|)
    ensures Expected(more, item) == Expected(issued, item)
  {
    hide RouteOf, IsNotification, IsKeyAnswer, IsSuccess, IsError, IsEnd, SuccessText;
  }

  /** The client's step on the next item of a sound run. */
  ghost predicate HandledWell(style: string -> Kind, c: Client, d: Client, item: Item) {
    Sound(style, c) && Sound(style, d) && c.issued <= d.issued && c.wire <= d.wire && Complete(c) <= Complete(d)
    && d.calls == c.calls + Expected(c.issued, item) && PositionOf(d) == Advance(PositionOf(c), item)
    && (if item.Ask? then d.password == "" else d.password == c.password)
  }

  /** Handler calls by a sound client whose head is completely sent. */
  lemma InvokeHandlerSound(style: string -> Kind, env: Environment, c: Client, handler: Option<nat>, answer: Option<string>)
    requires Sound(style, c) && WellBehaved(style, env)
    ensures Sound(style, InvokeHandler(env, c, handler, answer)) && Grows(c, InvokeHandler(env, c, handler, answer))
    ensures InvokeHandler(env, c, handler, answer).calls == c.calls + ReplyTo(handler, answer)
  {
    hide Sound, Grows, WellBehaved;
    if handler.Some? { InvokeSound(style, env, c, Reply(handler.value, answer)); } else { GrowsNot(c); }
  }

  /** A head that is completely sent stays so while commands are added. */
  lemma HeadStaysSent(style: string -> Kind, c: Client, d: Client)
    requires Sound(style, c) && Grows(c, d) && c.queue != [] && c.queue[0].rest == ""
    ensures d.queue != [] && d.queue[0].rest == ""
  {
  }

  /** The end of an answer, or of its first part: d has called the handlers and the head is taken from the queue. */
  lemma {:induction false} AnswerFinished(style: string -> Kind, env: Environment, c: Client, d: Client, item: Item)
    requires Sound(style, c) && c.queue != [] && c.queue[0].rest == "" && Sound(style, d) && Grows(c, d)
    requires item.Answer? && Finishes(item.line) && item.kind == c.issued[Done(c)].kind
    requires item.kind.Combined? ==> !IsError(item.line)
    requires d.calls == c.calls + Expected(c.issued, item)
    ensures HandledWell(style, c, Unqueue(env, d), item)
  {
    hide Unqueue, Finishes, Expected, IsError;
    HeadStaysSent(style, c, d);
    UnqueueSound(style, env, d);
    GrowsKeepsPosition(c, d);
  }

  lemma HandleAnswer(style: string -> Kind, env: Environment, c: Client, item: Item)
    requires Sound(style, c) && WellBehaved(style, env)
    requires Allowed(item) && item.Answer? && item.command == Done(c) < Complete(c)
    requires item.kind == c.issued[Done(c)].kind
    ensures HandledWell(style, c, Handle(env, c, EventOf(item)), item)
  {
    hide WellBehaved, InvokeHandler, Invoke, Unqueue, Grows, RouteOf, SuccessText, IsSuccess, IsError, IsEnd;
    var line, handler := item.line, c.queue[0].handler;
    assert handler == c.issued[item.command].handler;
    if IsNotification(line) {
      InvokeHandlerSound(style, env, c, handler, Some(line));
      AnswerFinished(style, env, c, InvokeHandler(env, c, handler, Some(line)), item);
    } else if IsSuccess(line) {
      var text := SuccessText(line, env.stray(|c.calls|));
      TextIsInLine(line);
      InvokeHandlerSound(style, env, c, handler, Some(text));
      AnswerFinished(style, env, c, InvokeHandler(env, c, handler, Some(text)), item);
    } else if IsError(line) {
      var d := Invoke(env, c, Failure(line));
      InvokeSound(style, env, c, Failure(line));
      InvokeHandlerSound(style, env, d, handler, None);
      GrowsOn(c, d, InvokeHandler(env, d, handler, None));
      AnswerFinished(style, env, c, InvokeHandler(env, d, handler, None), item);
    } else if IsEnd(line) {
      GrowsNot(c);
      AnswerFinished(style, env, c, c, item);
    } else {
      InvokeHandlerSound(style, env, c, handler, Some(line));
      GrewOnly(style, c, InvokeHandler(env, c, handler, Some(line)), item);
    }
  }

  lemma GrewOnly(style: string -> Kind, c: Client, d: Client, item: Item)
    requires Sound(style, c) && Sound(style, d) && Grows(c, d) && !item.Ask?
    requires Advance(PositionOf(c), item) == PositionOf(c) && d.calls == c.calls + Expected(c.issued, item)
    ensures HandledWell(style, c, d, item)
  {
    hide Expected, Advance;
    GrowsKeepsPosition(c, d);
  }

  lemma HandleNote(style: string -> Kind, env: Environment, c: Client, item: Item)
    requires Sound(style, c) && WellBehaved(style, env) && Allowed(item) && item.Note?
    ensures HandledWell(style, c, Handle(env, c, EventOf(item)), item)
  {
    hide WellBehaved, Invoke, Grows, NoteLine, HandleNotification;
    var call := Notify(item.topic, item.text);
    NotificationHandled(env, c, item.topic, item.text);
    var d := if item.topic == Ready then c.(connected := 2) else c;
    InvokeSound(style, env, d, call);
    GrewLikewise(c, d, Invoke(env, d, call));
    GrewOnly(style, c, Invoke(env, d, call), item);
  }

  lemma HandleOther(style: string -> Kind, env: Environment, c: Client, item: Item)
    requires Sound(style, c) && WellBehaved(style, env) && Allowed(item) && item.Other?
    ensures HandledWell(style, c, Handle(env, c, EventOf(item)), item)
  {
    hide WellBehaved, Grows, RouteOf, Untagged;
    UntaggedIsUnrouted(item.line);
    GrowsNot(c);
    GrewOnly(style, c, c, item);
  }

  lemma GrewLikewise(c: Client, d: Client, e: Client)
    requires d == c.(connected := d.connected) && Grows(d, e)
    ensures Grows(c, e)
  {
  }

  lemma HandleAsk(style: string -> Kind, env: Environment, c: Client)
    requires Sound(style, c) && c.password != "" && Proper(style, Request(c.password, None, Regular))
    ensures HandledWell(style, c, Handle(env, c, Prompt), Ask)
  {
    hide Enqueue, Proper;
    var req := Request(c.password, None, Regular);
    EnqueueSound(style, env, c, req);
    GrowsKeepsPosition(c, Enqueue(env, c, req));
  }

  // The invariant of client, daemon and channels

  /** Every answer in the daemon's output is the next one due, to a command the socket had taken completely. */
  ghost predicate Answers(c: Client, written: seq<Item>) {
    forall k :: 0 <= k < |written| && written[k].Answer? ==>
      written[k].command == PositionAfter(written[..k]).served && written[k].command < Complete(c)
      && written[k].kind == c.issued[written[k].command].kind
  }

  /** The daemon asks for the password once, and only a client that has one. */
  ghost predicate AsksOnce(style: string -> Kind, c: Client, written: seq<Item>, handled: nat) {
    (forall j, k :: 0 <= j < |written| && 0 <= k < |written| && written[j].Ask? && written[k].Ask? ==> j == k)
    && (forall k :: handled <= k < |written| && written[k].Ask? ==> c.password != "")
    && (c.password != "" ==> Proper(style, Request(c.password, None, Regular)))
  }

  /** What is dispatched, saved and on its way is what the daemon wrote after the first `handled` items. */
  ghost predicate Transit(w: World) {
    w.handled + |w.inbox| <= |w.written|
    && (forall k :: 0 <= k < |w.written| ==> Allowed(w.written[k]))
    && w.inbox == EventsOf(w.written[w.handled..w.handled + |w.inbox|])
    && w.saved + w.down == AllWritten(EventsOf(w.written[w.handled + |w.inbox|..]))
  }

  ghost predicate Matched(style: string -> Kind, w: World) {
    Sound(style, w.client) && w.read <= |w.client.wire| && w.handled <= |w.written|
    && Answers(w.client, w.written)
    && AsksOnce(style, w.client, w.written, w.handled)
    && w.daemon == PositionAfter(w.written)
    && PositionOf(w.client) == PositionAfter(w.written[..w.handled])
    && w.client.calls == ExpectedCalls(w.client.issued, w.written[..w.handled])
  }

  lemma CompleteBound(style: string -> Kind, c: Client)
    requires Sound(style, c)
    ensures Complete(c) <= |c.issued|
  {
  }

  /** Commands are queued or bytes sent; the daemon's side does not change. */
  lemma {:induction false} ClientMove(style: string -> Kind, w: World, d: Client)
    requires Matched(style, w) && Sound(style, d) && Grows(w.client, d) && d.calls == w.client.calls
    ensures Matched(style, w.(client := d))
  {
    CompleteBound(style, w.client);
    hide Sound, PositionAfter, Proper, ExpectedCalls;
    GrowsKeepsPosition(w.client, d);
    ExpectedStable(w.client.issued, d.issued, w.written[..w.handled]);
  }

  lemma SayTransit(style: string -> Kind, env: Environment, w: World, item: Item)
    requires Transit(w) && Enabled(style, w, Say(item))
    ensures Transit(Next(style, env, w, Say(item)))
  {
    hide Allowed, Advance, Lines, Written;
    var v := Next(style, env, w, Say(item));
    var split := w.handled + |w.inbox|;
    var es := EventsOf(w.written[split..]);
    assert v.written[split..] == w.written[split..] + [item];
    assert v.written[w.handled..split] == w.written[w.handled..split];
    assert EventsOf(v.written[split..]) == es + [EventOf(item)];
    AllWrittenAppend(es, [EventOf(item)]);
    OneWritten(EventOf(item));
    assert v.saved + v.down == (w.saved + w.down) + Written(EventOf(item));
  }

  lemma AskedOnce(style: string -> Kind, c: Client, written: seq<Item>, handled: nat, item: Item)
    requires AsksOnce(style, c, written, handled)
    requires item.Ask? ==> item !in written && c.password != ""
    ensures AsksOnce(style, c, written + [item], handled)
  {
    hide Proper;
    assert forall k :: 0 <= k < |written| && written[k].Ask? ==> Ask in written;
  }

  /** The daemon answers the commands that were issued, in the style their callers expect. */
  lemma AnswerIsDue(style: string -> Kind, w: World, item: Item)
    requires Sound(style, w.client) && Enabled(style, w, Say(item)) && item.Answer?
    ensures item.command < Complete(w.client) <= |w.client.issued|
    ensures item.kind == w.client.issued[item.command].kind
  {
    hide Allowed, Lines, Complete;
    var c := w.client;
    var read := c.wire[..w.read];
    WireLines(style, c);
    LinesOfPart(read, c.wire[w.read..]);
    assert c.wire == read + c.wire[w.read..];
  }

  lemma SayMatched(style: string -> Kind, env: Environment, w: World, item: Item)
    requires Matched(style, w) && Enabled(style, w, Say(item))
    ensures Matched(style, Next(style, env, w, Say(item)))
  {
    if item.Answer? { AnswerIsDue(style, w, item); }
    CompleteBound(style, w.client);
    hide Sound, Allowed, Proper, ExpectedCalls, PositionOf, Advance, PositionAfter, Lines, Answers, AsksOnce,
         Complete, Written;
    var v := Next(style, env, w, Say(item));
    assert v.written[..w.handled] == w.written[..w.handled];
    SaidInOrder(w.client, w.written, item);
    AskedOnce(style, w.client, w.written, w.handled, item);
  }

  lemma OneWritten(e: Event)
    ensures AllWritten([e]) == Written(e)
  {
    assert AllWritten([e][1..]) == "";
  }

  lemma {:induction false} SaidInOrder(c: Client, written: seq<Item>, item: Item)
    requires Answers(c, written)
    requires item.Answer? ==> item.command == PositionAfter(written).served && item.command < Complete(c) <= |c.issued|
                              && item.kind == c.issued[item.command].kind
    ensures Answers(c, written + [item])
    ensures PositionAfter(written + [item]) == Advance(PositionAfter(written), item)
  {
    var longer := written + [item];
    assert longer[..|written|] == written;
    forall k | 0 <= k < |longer| && longer[k].Answer?
      ensures longer[k].command == PositionAfter(longer[..k]).served && longer[k].command < Complete(c)
      ensures longer[k].kind == c.issued[longer[k].command].kind
    {
      assert longer[..k] == written[..k];
    }
  }

  lemma ArriveTransit(style: string -> Kind, env: Environment, w: World, n: nat)
    requires Transit(w) && Enabled(style, w, Arrive(n))
    ensures Transit(Next(style, env, w, Arrive(n)))
  {
    hide Allowed, Events, Tail, AllWritten;
    var v := Next(style, env, w, Arrive(n));
    var items := w.written[w.handled..];
    var es := EventsOf(items);
    WritableEvents(items);
    assert w.written[w.handled + |w.inbox|..] == items;
    var data, rest := w.saved + w.down[..n], w.down[n..];
    assert data + rest == w.saved + w.down;
    var k := PartialArrival(es, data, rest);
    assert |Events(data)| == k;
    assert w.written[w.handled..w.handled + k] == items[..k] && w.written[w.handled + k..] == items[k..];
    assert es[..k] == EventsOf(items[..k]) && es[k..] == EventsOf(items[k..]);
  }

  lemma WritableEvents(items: seq<Item>)
    requires forall k :: 0 <= k < |items| ==> Allowed(items[k])
    ensures forall e :: e in EventsOf(items) ==> Writable(e)
  {
  }

  lemma NextInInbox(w: World)
    requires Transit(w) && w.inbox != []
    ensures w.handled < |w.written| && w.inbox[0] == EventOf(w.written[w.handled]) && Allowed(w.written[w.handled])
  {
    hide Allowed, AllWritten;
    assert w.inbox[0] == EventsOf(w.written[w.handled..w.handled + |w.inbox|])[0];
  }

  lemma HandleTransit(style: string -> Kind, env: Environment, w: World)
    requires Transit(w) && w.inbox != []
    ensures Transit(Next(style, env, w, HandleNext))
  {
    hide Allowed, AllWritten, Handle;
    var n := |w.inbox|;
    assert w.written[w.handled..w.handled + n][1..] == w.written[w.handled + 1..w.handled + n];
    assert EventsOf(w.written[w.handled..w.handled + n])[1..] == EventsOf(w.written[w.handled + 1..w.handled + n]);
  }

  lemma {:induction false} NextItem(style: string -> Kind, env: Environment, w: World, item: Item)
    requires Matched(style, w) && WellBehaved(style, env) && w.handled < |w.written| && item == w.written[w.handled]
    requires Allowed(item)
    ensures HandledWell(style, w.client, Handle(env, w.client, EventOf(item)), item)
  {
    match item
    case Note(_, _) =>
      hide Sound, HandledWell, WellBehaved, Allowed, Answers, AsksOnce, PositionAfter, ExpectedCalls, Handle;
      HandleNote(style, env, w.client, item);
    case Other(_) =>
      hide Sound, HandledWell, WellBehaved, Allowed, Answers, AsksOnce, PositionAfter, ExpectedCalls, Handle;
      HandleOther(style, env, w.client, item);
    case Ask =>
      hide Sound, HandledWell, WellBehaved, Allowed, Answers, PositionAfter, ExpectedCalls, Handle;
      HandleAsk(style, env, w.client);
    case Answer(_, _, _) =>
      hide Sound, HandledWell, WellBehaved, Allowed, AsksOnce, PositionAfter, ExpectedCalls, Handle;
      HandleAnswer(style, env, w.client, item);
  }

  lemma {:induction false} AnswersKept(style: string -> Kind, c: Client, d: Client, written: seq<Item>)
    requires Answers(c, written) && c.issued <= d.issued && Complete(c) <= Complete(d) && Complete(c) <= |c.issued|
    ensures Answers(d, written)
    ensures ExpectedCalls(d.issued, written) == ExpectedCalls(c.issued, written)
  {
    hide PositionAfter, Complete, ExpectedCalls;
    ExpectedStable(c.issued, d.issued, written);
  }

  lemma AsksKept(style: string -> Kind, c: Client, d: Client, written: seq<Item>, handled: nat)
    requires AsksOnce(style, c, written, handled) && handled < |written|
    requires d.password == if written[handled].Ask? then "" else c.password
    ensures AsksOnce(style, d, written, handled + 1)
  {
    hide Proper;
  }

  lemma HandledMatched(style: string -> Kind, w: World, d: Client)
    requires Matched(style, w) && w.handled < |w.written| && w.inbox != []
    requires HandledWell(style, w.client, d, w.written[w.handled])
    ensures Matched(style, w.(client := d, inbox := w.inbox[1..], handled := w.handled + 1))
  {
    var c, h, item := w.client, w.handled, w.written[w.handled];
    CompleteBound(style, c);
    hide Sound, Complete, PositionOf, Advance, Expected, Answers, AsksOnce;
    AnswersKept(style, c, d, w.written);
    AnswersPart(c, w.written, h + 1);
    AnswersKept(style, c, d, w.written[..h + 1]);
    AsksKept(style, c, d, w.written, h);
    assert w.written[..h + 1][..h] == w.written[..h] && w.written[..h + 1][h] == item;
  }

  lemma AnswersPart(c: Client, written: seq<Item>, n: nat)
    requires Answers(c, written) && n <= |written| && Complete(c) <= |c.issued|
    ensures Answers(c, written[..n])
  {
    hide PositionAfter, Complete;
    forall k | 0 <= k < n && written[..n][k].Answer?
      ensures written[..n][k].command == PositionAfter(written[..n][..k]).served
              && written[..n][k].command < Complete(c) <= |c.issued|
              && written[..n][k].kind == c.issued[written[..n][k].command].kind
    {
      assert written[..n][..k] == written[..k] && written[..n][k] == written[k];
    }
  }

  lemma {:induction false} HandleMatched(style: string -> Kind, env: Environment, w: World)
    requires Matched(style, w) && Transit(w) && WellBehaved(style, env) && w.inbox != []
    ensures Matched(style, Next(style, env, w, HandleNext))
  {
    hide Matched, Allowed, Handle, Transit, WellBehaved, HandledWell;
    NextInInbox(w);
    NextItem(style, env, w, w.written[w.handled]);
    HandledMatched(style, w, Handle(env, w.client, w.inbox[0]));
  }

  lemma ReadMatched(style: string -> Kind, w: World, read: nat)
    requires Matched(style, w) && read <= |w.client.wire|
    ensures Matched(style, w.(read := read))
  {
  }

  lemma ArriveMatched(style: string -> Kind, env: Environment, w: World, n: nat)
    requires Matched(style, w) && Enabled(style, w, Arrive(n))
    ensures Matched(style, Next(style, env, w, Arrive(n)))
  {
  }

  lemma SoundOf(style: string -> Kind, w: World)
    requires Matched(style, w)
    ensures Sound(style, w.client)
  {
  }

  lemma TransitIgnoresClient(w: World, d: Client, read: nat)
    requires Transit(w)
    ensures Transit(w.(client := d)) && Transit(w.(read := read))
  {
  }

  lemma {:induction false} StepMatched(style: string -> Kind, env: Environment, w: World, m: Move)
    requires Matched(style, w) && Transit(w) && WellBehaved(style, env) && Enabled(style, w, m)
    ensures Matched(style, Next(style, env, w, m)) && Transit(Next(style, env, w, m))
  {
    hide Matched, Transit, Sound, Grows, Proper, WellBehaved;
    hide Enqueue, SendHead, Handle;
    SoundOf(style, w);
    match m
    case Command(req) =>
      EnqueueSound(style, env, w.client, req);
      ClientMove(style, w, Enqueue(env, w.client, req));
      TransitIgnoresClient(w, Enqueue(env, w.client, req), w.read);
    case SocketReady =>
      SendHeadSound(style, env, w.client);
      ClientMove(style, w, SendHead(env, w.client));
      TransitIgnoresClient(w, SendHead(env, w.client), w.read);
    case Fetch(n) =>
      ReadMatched(style, w, w.read + n);
      TransitIgnoresClient(w, w.client, w.read + n);
    case Say(item) =>
      SayTransit(style, env, w, item);
      SayMatched(style, env, w, item);
    case Arrive(n) =>
      ArriveTransit(style, env, w, n);
      ArriveMatched(style, env, w, n);
    case HandleNext =>
      HandleTransit(style, env, w);
      HandleMatched(style, env, w);
  }

  lemma {:induction false} RunMatched(style: string -> Kind, env: Environment, w: World, moves: seq<Move>)
    requires Matched(style, w) && Transit(w) && WellBehaved(style, env) && Run(style, env, w, moves)
    ensures Matched(style, End(style, env, w, moves)) && Transit(End(style, env, w, moves))
    decreases |moves|
  {
    hide Matched, Transit, WellBehaved, Enabled, Next;
    if moves != [] {
      StepMatched(style, env, w, moves[0]);
      RunMatched(style, env, Next(style, env, w, moves[0]), moves[1..]);
    }
  }

  // What holds of every run

  /**
   * The bytes on the wire are the commands in the order they were issued, unmixed, the last one perhaps incomplete;
   * those that have left the queue are complete.
   */
  predicate InOrder(c: Client) {
    0 <= Done(c) && Bytes(c.issued[..Done(c)]) <= c.wire <= Bytes(c.issued)
  }

  /**
   * The calls made are exactly those that the handled part of the daemon's output asks for, and commands leave the queue
   * exactly as their answers are completed. Every answer is for the command whose turn it is and of the kind its caller
   * expects. Once the channel is empty, everything that was written has been handled.
   */
  ghost predicate Delivered(w: World) {
    w.handled <= |w.written|
    && w.client.calls == ExpectedCalls(w.client.issued, w.written[..w.handled])
    && Done(w.client) == PositionAfter(w.written[..w.handled]).served
    && (forall k :: 0 <= k < |w.written| && w.written[k].Answer? ==>
          w.written[k].command == PositionAfter(w.written[..k]).served
          && w.written[k].command < |w.client.issued|
          && w.written[k].kind == w.client.issued[w.written[k].command].kind)
    && (w.inbox == [] && w.saved + w.down == "" ==> w.handled == |w.written|)
  }

  lemma SoundWire(style: string -> Kind, c: Client)
    requires Sound(style, c)
    ensures InOrder(c)
  {
    var d := Done(c);
    if c.queue == [] {
      assert c.issued[..d] == c.issued;
    } else {
      var req := c.issued[d];
      BytesAppend(c.issued[..d], req);
      assert c.issued[..d + 1] == c.issued[..d] + [req];
      BytesSplit(c.issued[..d + 1], c.issued[d + 1..]);
      assert c.issued == c.issued[..d + 1] + c.issued[d + 1..];
      assert c.wire <= Bytes(c.issued[..d + 1]);
    }
  }

  lemma {:induction false} BytesSplit(a: seq<Request>, b: seq<Request>)
    ensures Bytes(a + b) == Bytes(a) + Bytes(b)
  {
    if a == [] {
      assert a + b == b;
    } else {
      assert (a + b)[1..] == a[1..] + b;
      BytesSplit(a[1..], b);
    }
  }

  lemma {:induction false} MatchedDelivers(style: string -> Kind, w: World)
    requires Matched(style, w) && Transit(w)
    ensures Delivered(w)
  {
    CompleteBound(style, w.client);
    hide PositionAfter, Sound, ExpectedCalls, AsksOnce, Complete, Done, Answers, Transit;
    if w.inbox == [] && w.saved + w.down == "" {
      AllHandled(w);
    }
    ServedIsDone(w.client);
    AnswersMeans(w.client, w.written);
  }

  lemma ServedIsDone(c: Client)
    requires Done(c) >= 0
    ensures PositionOf(c).served == Done(c)
  {
  }

  lemma AnswersMeans(c: Client, written: seq<Item>)
    requires Answers(c, written) && Complete(c) <= |c.issued|
    ensures forall k :: 0 <= k < |written| && written[k].Answer? ==>
              written[k].command == PositionAfter(written[..k]).served && written[k].command < |c.issued|
              && written[k].kind == c.issued[written[k].command].kind
  {
    hide PositionAfter, Complete;
  }

  lemma AllHandled(w: World)
    requires Transit(w) && w.inbox == [] && w.saved + w.down == ""
    ensures w.handled == |w.written|
  {
  }

  /** For every environment and every interleaving of commands, sends, reads, replies and notifications. */
  lemma {:induction false} RepliesReachTheirHandlers(style: string -> Kind, env: Environment, password: string, moves: seq<Move>)
    requires WellBehaved(style, env) && (password != "" ==> Proper(style, Request(password, None, Regular)))
    requires Run(style, env, Start(password), moves)
    ensures InOrder(End(style, env, Start(password), moves).client)
    ensures Delivered(End(style, env, Start(password), moves))
  {
    var w := End(style, env, Start(password), moves);
    hide Run, End, Start, Matched, Transit, Delivered, InOrder, Sound, WellBehaved, Proper;
    RunMatched(style, env, Start(password), moves);
    SoundOf(style, w);
    SoundWire(style, w.client);
    MatchedDelivers(style, w);
  }

  /** Client and daemon agree on an error exactly if the client is waiting for no second part. */
  lemma ErrorKeepsStep(style: string -> Kind, env: Environment, c: Client, line: string)
    requires Sound(style, c) && WellBehaved(style, env) && c.queue != [] && c.queue[0].rest == "" && IsError(line)
    ensures var d := Handle(env, c, Line(line));
            Done(d) >= 0 && (PositionOf(d) == Advance(PositionOf(c), Answer(Done(c), c.issued[Done(c)].kind, line))
                             <==> c.queue[0].kind.Regular?)
  {
    ErrorIsReply(line);
    hide Sound, WellBehaved, Grows, Unqueue, RouteOf, IsSuccess, IsError, IsEnd, InvokeHandler, Invoke;
    var d := Invoke(env, c, Failure(line));
    var e := InvokeHandler(env, d, c.queue[0].handler, None);
    InvokeSound(style, env, c, Failure(line));
    InvokeHandlerSound(style, env, d, c.queue[0].handler, None);
    GrowsOn(c, d, e);
    HeadStaysSent(style, c, e);
    UnqueueSound(style, env, e);
  }

  lemma ErrorIsReply(line: string)
    requires IsError(line)
    ensures !IsNotification(line) && !IsSuccess(line)
  {
    assert "ERROR:"[0] == line[0] == 'E' && "SUCCESS:"[0] == 'S';
  }

  /** A combined command answered by one error stays at the head of the queue, and so does its handler. */
  lemma CombinedErrorStays()
    ensures var env := Environment(n => 0, calls => [], n => "");
            var c := Client(true, 2, "", [Cmd("", Some(7), Combined)], [Request("log on all", Some(7), Combined)],
                            "log on all\n", 1, []);
            Handle(env, c, Line("ERROR: x")) == c.(queue := [Cmd("", Some(7), Regular)],
                                                   calls := [Failure("ERROR: x"), Reply(7, None)])
  {
    var env := Environment(n => 0, calls => [], n => "");
    var c := Client(true, 2, "", [Cmd("", Some(7), Combined)], [Request("log on all", Some(7), Combined)],
                    "log on all\n", 1, []);
    assert IsError("ERROR: x");
    ErrorIsReply("ERROR: x");
    assert Wiped("") == "";
    var d := Invoke(env, c, Failure("ERROR: x"));
    assert d == c.(calls := [Failure("ERROR: x")]);
    assert Invoke(env, d, Reply(7, None)) == c.(calls := [Failure("ERROR: x"), Reply(7, None)]);
  }
}
