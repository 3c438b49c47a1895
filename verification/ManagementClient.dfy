/**
 * What the management client of one connection does, on values: the command queue, the bytes its socket has taken and
 * the handlers it has called.
 */
module ManagementClient {
  import opened Framing

  datatype Option<T> = None | Some(value: T)

  /** A combined command is answered in two parts and leaves the queue after the second. */
  datatype Kind = Regular | Combined

  /** A call of ManagementCommand; the handler is a function pointer that may be NULL. */
  datatype Request = Request(text: string, handler: Option<nat>, kind: Kind)

  /** A queued command with the bytes that are still to be sent. */
  datatype Cmd = Cmd(rest: string, handler: Option<nat>, kind: Kind)

  datatype Topic = Ready | Stop | ByteCount | Echo | Hold | Log | Password | Proxy | State | NeedOk | NeedStr | InfoMsg

  /** A call of a notification handler, of the log handler about a failed command, or of a command's own handler. */
  datatype Call = Notify(topic: Topic, text: string) | Failure(line: string) | Reply(handler: nat, answer: Option<string>)

  /**
   * How the rest of the world behaves: the result of the n-th send, the commands the last called handler queues, and what
   * lies behind the NUL of a line when the n-th call is made.
   */
  datatype Environment = Environment(accept: nat -> int, react: seq<Call> -> seq<Request>, stray: nat -> string)

  /** `issued`, `wire`, `sends` and `calls` record what has happened so far. */
  datatype Client = Client(open: bool, connected: nat, password: string, queue: seq<Cmd>,
                           issued: seq<Request>, wire: string, sends: nat, calls: seq<Call>)

  function Fresh(req: Request): Cmd {
    Cmd(req.text + "\n", req.handler, req.kind)
  }

  /** How many of `size` bytes a send with result r has taken. */
  function Taken(r: int, size: nat): (n: nat)
    ensures n <= size
  {
    if r < 1 then 0 else if r > size then size else r
  }

  function SendHead(env: Environment, c: Client): Client {
    if !c.open || c.queue == [] || c.queue[0].rest == "" then c
    else
      var rest := c.queue[0].rest;
      var n := Taken(env.accept(c.sends), |rest|);
      c.(sends := c.sends + 1, wire := c.wire + rest[..n], queue := [c.queue[0].(rest := rest[n..])] + c.queue[1..])
  }

  function Enqueue(env: Environment, c: Client, req: Request): Client {
    var d := c.(queue := c.queue + [Fresh(req)], issued := c.issued + [req]);
    if c.queue == [] then SendHead(env, d) else d
  }

  function EnqueueAll(env: Environment, c: Client, reqs: seq<Request>): Client
    decreases |reqs|
  {
    if reqs == [] then c else EnqueueAll(env, Enqueue(env, c, reqs[0]), reqs[1..])
  }

  function Wiped(s: string): string {
    seq(|s|, i => 'x')
  }

  function Unqueue(env: Environment, c: Client): Client {
    if c.queue == [] then c
    else if c.queue[0].kind.Combined? then
      c.(queue := [Cmd(Wiped(c.queue[0].rest), c.queue[0].handler, Regular)] + c.queue[1..])
    else SendHead(env, c.(queue := c.queue[1..]))
  }

  function Invoke(env: Environment, c: Client, call: Call): Client {
    var d := c.(calls := c.calls + [call]);
    EnqueueAll(env, d, env.react(d.calls))
  }

  function InvokeHandler(env: Environment, c: Client, handler: Option<nat>, text: Option<string>): Client {
    if handler.None? then c else Invoke(env, c, Reply(handler.value, text))
  }

  /** Which notification handler gets the text after '>', and how much of it is the topic's name. */
  datatype Route = Route(topic: Topic, skip: nat) | Unrouted

  function RouteOf(body: string): (r: Route)
    ensures r.Route? ==> r.skip <= |body|
  {
    if "LOG:" <= body then Route(Log, 4)
    else if "STATE:" <= body then Route(State, 6)
    else if "HOLD:" <= body then Route(Hold, 5)
    else if "PASSWORD:" <= body then Route(Password, 9)
    else if "PROXY:" <= body then Route(Proxy, 6)
    else if "INFO:" <= body then Route(Ready, 5)
    else if "NEED-OK:" <= body then Route(NeedOk, 8)
    else if "NEED-STR:" <= body then Route(NeedStr, 9)
    else if "ECHO:" <= body then Route(Echo, 5)
    else if "BYTECOUNT:" <= body then Route(ByteCount, 10)
    else if "INFOMSG:" <= body then Route(InfoMsg, 8)
    else Unrouted
  }

  /** How the daemon names a topic; the end of a connection is no notification of the daemon. */
  function Tag(topic: Topic): string {
    match topic
    case Log => "LOG"
    case State => "STATE"
    case Hold => "HOLD"
    case Password => "PASSWORD"
    case Proxy => "PROXY"
    case Ready => "INFO"
    case NeedOk => "NEED-OK"
    case NeedStr => "NEED-STR"
    case Echo => "ECHO"
    case ByteCount => "BYTECOUNT"
    case InfoMsg => "INFOMSG"
    case Stop => ""
  }

  /** The line by which the daemon notifies. */
  function NoteLine(topic: Topic, text: string): string {
    ">" + Tag(topic) + ":" + text
  }

  lemma NotPrefix(s: string, t: string, k: nat)
    requires k < |s| && k < |t| && s[k] != t[k]
    ensures !(s <= t)
  {
  }

  /** A line does not begin with the name of another topic. */
  lemma OtherTopic(topic: Topic, other: Topic, text: string)
    requires topic != Stop && other != Stop && topic != other
    ensures !(Tag(other) + ":" <= Tag(topic) + ":" + text)
  {
    var s, t := Tag(other) + ":", Tag(topic) + ":" + text;
    if {topic, other} == {Password, Proxy} {
      NotPrefix(s, t, 1);
    } else if {topic, other} == {Ready, InfoMsg} {
      NotPrefix(s, t, 4);
    } else if {topic, other} == {NeedOk, NeedStr} {
      NotPrefix(s, t, 5);
    } else {
      NotPrefix(s, t, 0);
    }
  }

  /** What is routed is a notification of that topic. */
  lemma RoutedIsTagged(body: string)
    ensures RouteOf(body).Route? ==> RouteOf(body).topic != Stop && RouteOf(body).skip == |Tag(RouteOf(body).topic)| + 1
    ensures RouteOf(body).Route? ==> body == Tag(RouteOf(body).topic) + ":" + body[RouteOf(body).skip..]
  {
    if RouteOf(body).Route? {
      var tag := Tag(RouteOf(body).topic) + ":";
      assert tag <= body;
      assert body == body[..|tag|] + body[|tag|..];
    }
  }

  lemma SomeRoute(topic: Topic, body: string)
    requires topic != Stop && Tag(topic) + ":" <= body
    ensures RouteOf(body).Route?
  {
    var name := Tag(topic) + ":";
    match topic
    case Log => assert name == "LOG:";
    case State => assert name == "STATE:";
    case Hold => assert name == "HOLD:";
    case Password => assert name == "PASSWORD:";
    case Proxy => assert name == "PROXY:";
    case Ready => assert name == "INFO:";
    case NeedOk => assert name == "NEED-OK:";
    case NeedStr => assert name == "NEED-STR:";
    case Echo => assert name == "ECHO:";
    case ByteCount => assert name == "BYTECOUNT:";
    case InfoMsg => assert name == "INFOMSG:";
  }

  /** Every notification is routed to the handler of its topic, with its text. */
  lemma TagRoutes(topic: Topic, text: string)
    requires topic != Stop
    ensures RouteOf(Tag(topic) + ":" + text) == Route(topic, |Tag(topic)| + 1)
    ensures (Tag(topic) + ":" + text)[|Tag(topic)| + 1..] == text
  {
    hide Tag, RouteOf;
    var body := Tag(topic) + ":" + text;
    assert body[..|Tag(topic)| + 1] == Tag(topic) + ":";
    SomeRoute(topic, body);
    RoutedIsTagged(body);
    var other, skip := RouteOf(body).topic, RouteOf(body).skip;
    assert body[..skip] == Tag(other) + ":";
    if other != topic {
      OtherTopic(topic, other, text);
      assert false;
    }
  }

  /** No topic stands in the line. */
  ghost predicate Untagged(line: string) {
    forall topic, text :: topic != Stop ==> line != NoteLine(topic, text)
  }

  lemma UntaggedIsUnrouted(line: string)
    requires IsNotification(line)
    ensures Untagged(line) <==> RouteOf(line[1..]).Unrouted?
  {
    hide Tag, RouteOf;
    var r := RouteOf(line[1..]);
    if r.Route? {
      RoutedIsTagged(line[1..]);
      assert line == NoteLine(r.topic, line[1..][r.skip..]);
    } else {
      forall topic, text | topic != Stop ensures line != NoteLine(topic, text) {
        TagRoutes(topic, text);
        assert NoteLine(topic, text)[1..] == Tag(topic) + ":" + text;
      }
    }
  }

  predicate IsNotification(line: string) {
    line != "" && line[0] == '>'
  }

  /** The one answer to a command that the daemon writes as a notification. */
  predicate IsKeyAnswer(line: string) {
    IsNotification(line) && RouteOf(line[1..]).Unrouted? && "PKCS11ID" <= line[1..]
  }

  function HandleNotification(env: Environment, c: Client, line: string): Client
    requires IsNotification(line)
  {
    match RouteOf(line[1..])
    case Route(topic, skip) =>
      var d := if topic == Ready then c.(connected := 2) else c;
      Invoke(env, d, Notify(topic, line[1..][skip..]))
    case Unrouted =>
      if IsKeyAnswer(line) && c.queue != [] then Unqueue(env, InvokeHandler(env, c, c.queue[0].handler, Some(line))) else c
  }

  /** The handler of the topic is called with the text; the banner makes the client ready. */
  lemma NotificationHandled(env: Environment, c: Client, topic: Topic, text: string)
    requires topic != Stop
    ensures IsNotification(NoteLine(topic, text))
    ensures HandleNotification(env, c, NoteLine(topic, text))
         == Invoke(env, if topic == Ready then c.(connected := 2) else c, Notify(topic, text))
  {
    hide Tag, RouteOf, Invoke;
    TagRoutes(topic, text);
    assert NoteLine(topic, text)[1..] == Tag(topic) + ":" + text;
  }

  predicate IsSuccess(line: string) {
    "SUCCESS:" <= line
  }

  predicate IsError(line: string) {
    "ERROR:" <= line
  }

  predicate IsEnd(line: string) {
    line == "END"
  }

  /** The text after "SUCCESS: "; a shorter line ends before it begins, and the handler gets what lies behind its NUL. */
  function SuccessText(line: string, stray: string): string {
    if |line| < 9 then stray else line[9..]
  }

  /** The text is part of the line exactly if the line has one. */
  lemma TextIsInLine(line: string)
    ensures (forall s, t :: SuccessText(line, s) == SuccessText(line, t)) <==> |line| >= 9
  {
    if |line| < 9 {
      assert SuccessText(line, "a") == "a" && SuccessText(line, "b") == "b";
    }
  }

  /** The lines that end an answer: success with its text, an error, the end of a list. */
  lemma AnswerLines(text: string, stray: string)
    ensures IsSuccess("SUCCESS: " + text) && SuccessText("SUCCESS: " + text, stray) == text
    ensures IsError("ERROR:" + text) && !IsSuccess("ERROR:" + text) && !IsError("SUCCESS: " + text)
    ensures IsEnd("END") && !IsSuccess("END") && !IsError("END")
  {
    assert ("SUCCESS: " + text)[..9] == "SUCCESS: ";
    assert ("ERROR:" + text)[..6] == "ERROR:";
    NotPrefix("SUCCESS:", "ERROR:" + text, 0);
    NotPrefix("ERROR:", "SUCCESS: " + text, 0);
  }

  function HandleReply(env: Environment, c: Client, line: string): Client
    requires c.queue != []
  {
    var handler := c.queue[0].handler;
    if IsSuccess(line) then Unqueue(env, InvokeHandler(env, c, handler, Some(SuccessText(line, env.stray(|c.calls|)))))
    else if IsError(line) then Unqueue(env, InvokeHandler(env, Invoke(env, c, Failure(line)), handler, None))
    else if IsEnd(line) then Unqueue(env, c)
    else InvokeHandler(env, c, handler, Some(line))
  }

  /** What each of them leads to: a call of the head's handler with the text, with nothing, or no call, and the end. */
  lemma AnswersHandled(env: Environment, c: Client, text: string)
    requires c.queue != []
    ensures HandleReply(env, c, "SUCCESS: " + text) == Unqueue(env, InvokeHandler(env, c, c.queue[0].handler, Some(text)))
    ensures HandleReply(env, c, "ERROR:" + text)
         == Unqueue(env, InvokeHandler(env, Invoke(env, c, Failure("ERROR:" + text)), c.queue[0].handler, None))
    ensures HandleReply(env, c, "END") == Unqueue(env, c)
  {
    hide Unqueue, InvokeHandler, Invoke, IsSuccess, IsError, IsEnd, SuccessText;
    AnswerLines(text, env.stray(|c.calls|));
  }

  function Close(c: Client): Client {
    if c.open then c.(open := false, connected := 0, queue := []) else c
  }

  /** A password is given once; a second request, or one without a password, ends the connection. */
  function HandlePrompt(env: Environment, c: Client): Client {
    if c.password != "" then Enqueue(env, c, Request(c.password, None, Regular)).(password := "")
    else Invoke(env, Close(c), Notify(Stop, ""))
  }

  function Handle(env: Environment, c: Client, e: Event): Client {
    match e
    case Prompt => HandlePrompt(env, c)
    case Line(line) =>
      if IsNotification(line) then HandleNotification(env, c, line)
      else if c.queue == [] then c
      else HandleReply(env, c, line)
  }

  function HandleAll(env: Environment, c: Client, es: seq<Event>): Client
    decreases |es|
  {
    if es == [] then c else HandleAll(env, Handle(env, c, es[0]), es[1..])
  }
}
