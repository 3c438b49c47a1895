/** The management client as it is kept in memory: a ring of command nodes and a buffer of unfinished input. */
module Management {
  import opened CStrings
  import opened Framing
  import opened ManagementClient

  class Command {
    var prev: Command
    var next: Command
    var command: array<char>
    var size: nat
    const handler: Option<nat>
    var kind: Kind

    constructor (req: Request)
      ensures prev == this && next == this && fresh(command) && Holds(this, Fresh(req))
    {
      prev, next := this, this;
      var text := req.text;
      command := new char[|text| + 1](i requires 0 <= i <= |text| => if i < |text| then text[i] else '\n');
      size := |text| + 1;
      handler, kind := req.handler, req.kind;
      new;
      assert command[..size] == text + "\n";
    }

    /** The first n unsent bytes have been sent; the others move to the front of the buffer. */
    method Shift(n: nat, ghost v: Cmd)
      requires Holds(this, v) && n <= size
      modifies this`size, command
      ensures Holds(this, v.(rest := v.rest[n..]))
    {
      forall i | 0 <= i < size - n {
        command[i] := command[i + n];
      }
      size := size - n;
      assert command[..size] == v.rest[n..];
    }

    /** The unsent bytes may hold a password and are overwritten. */
    method Wipe(ghost v: Cmd)
      requires Holds(this, v)
      modifies command
      ensures Holds(this, v.(rest := Wiped(v.rest)))
    {
      forall i | 0 <= i < size {
        command[i] := 'x';
      }
      assert command[..size] == Wiped(v.rest);
    }
  }

  /** Node c holds the queued command v; its first `size` bytes are unsent. */
  ghost predicate Holds(c: Command, v: Cmd)
    reads c`size, c`command, c`kind, c.command
  {
    c.size <= c.command.Length && c.command[..c.size] == v.rest && c.handler == v.handler && c.kind == v.kind
  }

  ghost predicate Distinct(ring: seq<Command>)
    reads ring`command
  {
    forall i, j :: 0 <= i < j < |ring| ==> ring[i] != ring[j] && ring[i].command != ring[j].command
  }

  /** The nodes are doubly linked in a circle, in this order. */
  ghost predicate Linked(ring: seq<Command>)
    reads ring`next, ring`prev
  {
    (forall i :: 0 < i < |ring| ==> ring[i - 1].next == ring[i] && ring[i].prev == ring[i - 1])
    && (ring != [] ==> ring[|ring| - 1].next == ring[0] && ring[0].prev == ring[|ring| - 1])
  }

  ghost predicate Holding(ring: seq<Command>, queue: seq<Cmd>, nodes: set<object>)
    reads nodes
  {
    |ring| == |queue| && forall i :: 0 <= i < |ring| ==>
      ring[i] in nodes && ring[i].command in nodes && Holds(ring[i], queue[i])
  }

  /** The nodes of the ring in order, the commands they hold, and a set with the nodes and their buffers. */
  ghost predicate Ring(ring: seq<Command>, queue: seq<Cmd>, nodes: set<object>)
    reads nodes
  {
    Holding(ring, queue, nodes) && Distinct(ring) && Linked(ring)
  }

  /** queue with its first command replaced. */
  ghost function WithHead(queue: seq<Cmd>, v: Cmd): seq<Cmd>
    requires queue != []
  {
    [v] + queue[1..]
  }

  lemma EmptyRing(nodes: set<object>)
    ensures Ring([], [], nodes)
  {
  }

  lemma HeadHolds(ring: seq<Command>, queue: seq<Cmd>, nodes: set<object>)
    requires Ring(ring, queue, nodes)
    ensures |ring| == |queue|
    ensures ring != [] ==> ring[0] in nodes && ring[0].command in nodes && Holds(ring[0], queue[0])
    ensures ring != [] ==> ring[0].prev in nodes && ring[0].next in nodes
    ensures ring != [] ==> (ring[0].next == ring[0] <==> |ring| == 1)
  {
    if |ring| > 1 {
      assert ring[0].next == ring[1];
    }
  }

  lemma SingleRing(cmd: Command, v: Cmd, nodes: set<object>)
    requires Holds(cmd, v) && cmd.next == cmd && cmd.prev == cmd
    requires cmd in nodes && cmd.command in nodes
    ensures Ring([cmd], [v], nodes)
  {
  }

  method ShiftHead(head: Command, n: nat, ghost ring: seq<Command>, ghost queue: seq<Cmd>, ghost nodes: set<object>)
    requires Ring(ring, queue, nodes) && ring != [] && head == ring[0] && n <= head.size
    modifies head`size, head.command
    ensures n <= |queue[0].rest| && Ring(ring, WithHead(queue, queue[0].(rest := queue[0].rest[n..])), nodes)
  {
    assert Holds(ring[0], queue[0]);
    head.Shift(n, queue[0]);
    ghost var v := queue[0].(rest := queue[0].rest[n..]);
    forall i | 0 < i < |ring| ensures Holds(ring[i], WithHead(queue, v)[i]) {
      assert ring[i] != ring[0] && ring[i].command != ring[0].command;
      assert old(Holds(ring[i], queue[i]));
    }
  }

  method WipeHead(head: Command, ghost ring: seq<Command>, ghost queue: seq<Cmd>, ghost nodes: set<object>)
    requires Ring(ring, queue, nodes) && ring != [] && head == ring[0]
    modifies head`kind, head.command
    ensures Ring(ring, WithHead(queue, Cmd(Wiped(queue[0].rest), queue[0].handler, Regular)), nodes)
  {
    hide Wiped;
    assert Holds(ring[0], queue[0]);
    head.Wipe(queue[0]);
    head.kind := Regular;
    ghost var v := Cmd(Wiped(queue[0].rest), queue[0].handler, Regular);
    forall i | 0 < i < |ring| ensures Holds(ring[i], WithHead(queue, v)[i]) {
      assert ring[i] != ring[0] && ring[i].command != ring[0].command;
      assert old(Holds(ring[i], queue[i]));
    }
  }

  lemma RingAppend(ring: seq<Command>, queue: seq<Cmd>, nodes: set<object>, cmd: Command, v: Cmd)
    requires Distinct(ring) && Holding(ring, queue, nodes)
    requires Holds(cmd, v) && cmd !in nodes && cmd.command !in nodes
    ensures Distinct(ring + [cmd]) && Holding(ring + [cmd], queue + [v], nodes + {cmd, cmd.command})
  {
    hide Holds;
    assert (ring + [cmd])[|ring|] == cmd;
    assert forall i :: 0 <= i < |ring| ==> (ring + [cmd])[i] == ring[i] && ring[i] in nodes && ring[i].command in nodes;
  }

  /** Links cmd in before the head, that is, at the end. */
  method LinkLast(head: Command, cmd: Command, ghost ring: seq<Command>)
    requires ring != [] && head == ring[0] && cmd !in ring
    requires Linked(ring) && Distinct(ring)
    modifies cmd`next, cmd`prev, head`prev, head.prev`next
    ensures Linked(ring + [cmd])
  {
    assert head.prev == ring[|ring| - 1];
    cmd.next := head;
    cmd.prev := head.prev;
    cmd.next.prev := cmd;
    cmd.prev.next := cmd;
    ghost var longer := ring + [cmd];
    assert longer[|longer| - 1] == cmd && longer[|longer| - 2] == cmd.prev;
    assert forall i :: 0 <= i < |ring| ==> longer[i] == ring[i];
  }

  method LinkIn(head: Command, cmd: Command, ghost ring: seq<Command>, ghost queue: seq<Cmd>, ghost nodes: set<object>,
                ghost v: Cmd)
    requires Ring(ring, queue, nodes) && ring != [] && head == ring[0]
    requires Holds(cmd, v) && cmd !in nodes && cmd.command !in nodes
    modifies cmd`next, cmd`prev, head`prev, head.prev`next
    ensures Ring(ring + [cmd], queue + [v], nodes + {cmd, cmd.command})
  {
    hide Linked, Distinct, Holds;
    LinkLast(head, cmd, ring);
    RingAppend(ring, queue, nodes, cmd, v);
  }

  method UnlinkHead(head: Command, ghost ring: seq<Command>, ghost queue: seq<Cmd>, ghost nodes: set<object>)
    requires Ring(ring, queue, nodes) && |ring| > 1 && head == ring[0]
    modifies head.prev`next, head.next`prev
    ensures head.next == ring[1]
    ensures Ring(ring[1..], queue[1..], nodes)
  {
    hide Holds;
    assert head.prev == ring[|ring| - 1] && head.next == ring[1];
    head.prev.next := head.next;
    head.next.prev := head.prev;
  }

  /** How often UnqueueCommand finds a command in the queue until it is empty. */
  ghost function Rounds(queue: seq<Cmd>): nat {
    if queue == [] then 0 else (if queue[0].kind.Combined? then 2 else 1) + Rounds(queue[1..])
  }

  lemma UnqueueRounds(env: Environment, c: Client)
    requires !c.open && c.queue != []
    ensures Rounds(Unqueue(env, c).queue) == Rounds(c.queue) - 1
    ensures Unqueue(env, c) == c.(queue := Unqueue(env, c).queue)
  {
    hide Wiped;
  }

  lemma UnqueueNothing(env: Environment, c: Client)
    requires c.queue == []
    ensures Unqueue(env, c) == c
  {
  }

  method ToBuffer(s: string) returns (data: array<char>)
    ensures fresh(data) && data[..] == s
  {
    data := new char[|s|](i requires 0 <= i < |s| => s[i]);
  }

  /**
   * Looks for the next prompt or line from `line` on and ends it with a NUL, which overwrites the byte before the
   * newline; size is 0 if there is none yet.
   */
  method NextEvent(data: array<char>, line: nat) returns (size: nat, prompt: bool, text: string)
    requires line < data.Length && Tidy(data[line..])
    modifies data
    ensures size == EventEnd(old(data[line..]))
    ensures size > 0 ==> FirstEvent(old(data[line..])) == if prompt then Prompt else Line(text)
    ensures size == 0 ==> data[line..] == old(data[line..])
    ensures data[line + size..] == old(data[line + size..])
  {
    hide IsPrompt, After, Tidy;
    ghost var rest := data[line..];
    text := "";
    prompt := IsPrompt(data[line..]);
    size := After(data[line..], if prompt then ':' else '\n');
    if prompt {
      ColonEndsPrompt(rest);
    } else if size > 0 {
      TidyLine(rest);
      text := EndLine(data, line, size);
    }
  }

  lemma TidyLine(s: string)
    requires Tidy(s)
    ensures EventEnd(s) != 1
  {
  }

  /** Puts a NUL over the byte before the newline and reads the C string that starts at `line`. */
  method EndLine(data: array<char>, line: nat, size: nat) returns (text: string)
    requires 2 <= size && line + size <= data.Length
    modifies data
    ensures text == CString(old(data[line..])[..size - 2])
    ensures data[line + size..] == old(data[line + size..])
  {
    hide CString;
    ghost var rest := data[line..];
    data[line + size - 2] := '\0';
    text := CString(data[line..]);
    CStringEnds(data[line..], size - 2);
    assert data[line..][..size - 2] == rest[..size - 2];
    assert forall k :: line + size <= k < data.Length ==> data[k] == old(data[k]);
  }

  lemma HandleFirst(env: Environment, c: Client, rest: string)
    requires EventEnd(rest) > 0
    ensures HandleAll(env, c, Events(rest)) == HandleAll(env, Handle(env, c, FirstEvent(rest)), Events(rest[EventEnd(rest)..]))
    ensures Tail(rest) == Tail(rest[EventEnd(rest)..])
    ensures Tidy(rest) ==> Tidy(rest[EventEnd(rest)..])
  {
    hide Handle, EventEnd, FirstEvent;
  }

  lemma HandleNone(env: Environment, c: Client, rest: string)
    requires EventEnd(rest) == 0
    ensures HandleAll(env, c, Events(rest)) == c && Tail(rest) == rest
  {
  }

  class Connection {
    const env: Environment
    var head: Command?
    var saved: string
    var open: bool
    var connected: nat
    var password: string
    var issued: seq<Request>
    var wire: string
    var sends: nat
    var calls: seq<Call>
    ghost var ring: seq<Command>
    ghost var queue: seq<Cmd>
    ghost var nodes: set<object>

    ghost predicate Valid()
      reads this, nodes
    {
      this !in nodes && (head == null <==> ring == []) && (ring != [] ==> head == ring[0])
      && Ring(ring, queue, nodes)
    }

    ghost function Model(): Client
      reads this
    {
      Client(open, connected, password, queue, issued, wire, sends, calls)
    }

    constructor (env: Environment, password: string)
      ensures Valid() && fresh(nodes) && this.env == env && saved == ""
      ensures Model() == Client(true, 0, password, [], [], "", 0, [])
    {
      this.env := env;
      head, saved, open, connected, this.password := null, "", true, 0, password;
      issued, wire, sends, calls, ring, queue, nodes := [], "", 0, [], [], [], {};
    }

    method SendCommand()
      requires Valid()
      modifies this, nodes
      ensures Valid() && nodes == old(nodes) && saved == old(saved)
      ensures Model() == SendHead(env, old(Model()))
    {
      hide Ring;
      HeadHolds(ring, queue, nodes);
      if head == null || !open { return; }
      if head.size == 0 { return; }
      var res := env.accept(sends);
      sends := sends + 1;
      ghost var first := queue[0];
      if res >= 1 {
        var n := Taken(res, head.size);
        wire := wire + head.command[..n];
        ShiftHead(head, n, ring, queue, nodes);
        queue := WithHead(queue, first.(rest := first.rest[n..]));
      } else {
        assert queue == [first.(rest := first.rest[0..])] + queue[1..];
      }
    }

    method AppendFirst(cmd: Command, ghost v: Cmd)
      requires Valid() && head == null && Holds(cmd, v) && cmd.next == cmd && cmd.prev == cmd
      modifies `head, `ring, `queue, `nodes
      ensures Valid() && nodes == old(nodes) + {cmd, cmd.command} && head == cmd && queue == old(queue) + [v]
    {
      hide Ring, Holds;
      HeadHolds(ring, queue, nodes);
      SingleRing(cmd, v, nodes + {cmd, cmd.command});
      head, ring, queue, nodes := cmd, [cmd], [v], nodes + {cmd, cmd.command};
    }

    method AppendLast(cmd: Command, ghost v: Cmd)
      requires Valid() && head != null && Holds(cmd, v) && cmd !in nodes && cmd.command !in nodes
      modifies `ring, `queue, `nodes, cmd`next, cmd`prev, nodes
      ensures Valid() && nodes == old(nodes) + {cmd, cmd.command} && queue == old(queue) + [v]
    {
      hide Ring, Holds;
      HeadHolds(ring, queue, nodes);
      LinkIn(head, cmd, ring, queue, nodes, v);
      ring, queue, nodes := ring + [cmd], queue + [v], nodes + {cmd, cmd.command};
    }

    method Append(req: Request) returns (cmd: Command)
      requires Valid()
      modifies this, nodes
      ensures Valid() && fresh(nodes - old(nodes)) && saved == old(saved)
      ensures head == cmd <==> old(queue) == []
      ensures Model() == old(Model()).(queue := old(queue) + [Fresh(req)], issued := old(issued) + [req])
    {
      hide Ring, Holds, Fresh;
      HeadHolds(ring, queue, nodes);
      cmd := new Command(req);
      issued := issued + [req];
      if head != null {
        AppendLast(cmd, Fresh(req));
      } else {
        AppendFirst(cmd, Fresh(req));
      }
    }

    method ManagementCommand(req: Request)
      requires Valid()
      modifies this, nodes
      ensures Valid() && fresh(nodes - old(nodes)) && saved == old(saved)
      ensures Model() == Enqueue(env, old(Model()), req)
    {
      hide Ring, Fresh, SendHead;
      var cmd := Append(req);
      if head == cmd {
        SendCommand();
      }
    }

    method UnqueueCommand() returns (found: bool)
      requires Valid()
      modifies this, nodes
      ensures Valid() && nodes == old(nodes) && saved == old(saved)
      ensures found == (old(queue) != [])
      ensures Model() == Unqueue(env, old(Model()))
    {
      hide Ring, Wiped;
      HeadHolds(ring, queue, nodes);
      if head == null { return false; }
      if head.kind == Combined {
        WipeHead(head, ring, queue, nodes);
        queue := WithHead(queue, Cmd(Wiped(queue[0].rest), queue[0].handler, Regular));
        return true;
      }
      if head.next == head {
        EmptyRing(nodes);
        head, ring, queue := null, [], [];
      } else {
        UnlinkHead(head, ring, queue, nodes);
        head, ring, queue := head.next, ring[1..], queue[1..];
        SendCommand();
      }
      return true;
    }

    /** Empties the queue: two rounds for a combined command, one for a regular one. */
    method CloseManagement()
      requires Valid()
      modifies this, nodes
      ensures Valid() && nodes == old(nodes)
      ensures saved == if old(open) then "" else old(saved)
      ensures Model() == Close(old(Model()))
      ensures old(open) ==> head == null
    {
      hide Ring, Rounds, Unqueue;
      if !open { return; }
      saved := "";
      open := false;
      connected := 0;
      var found := true;
      while found
        invariant Valid() && nodes == old(nodes) && saved == ""
        invariant Model() == old(Model()).(open := false, connected := 0, queue := queue)
        invariant !found ==> queue == []
        decreases Rounds(queue), found
      {
        if queue != [] { UnqueueRounds(env, Model()); } else { UnqueueNothing(env, Model()); }
        found := UnqueueCommand();
      }
      HeadHolds(ring, queue, nodes);
    }

    method CallHandler(call: Call)
      requires Valid()
      modifies this, nodes
      ensures Valid() && fresh(nodes - old(nodes)) && saved == old(saved)
      ensures Model() == Invoke(env, old(Model()), call)
    {
      hide Enqueue;
      calls := calls + [call];
      var reqs := env.react(calls);
      ghost var start := Model();
      var i := 0;
      while i < |reqs|
        invariant i <= |reqs| && Valid() && fresh(nodes - old(nodes)) && saved == old(saved)
        invariant EnqueueAll(env, Model(), reqs[i..]) == EnqueueAll(env, start, reqs)
      {
        ManagementCommand(reqs[i]);
        assert reqs[i..][1..] == reqs[i + 1..];
        i := i + 1;
      }
    }

    method CallCommandHandler(handler: Option<nat>, answer: Option<string>)
      requires Valid()
      modifies this, nodes
      ensures Valid() && fresh(nodes - old(nodes)) && saved == old(saved)
      ensures Model() == InvokeHandler(env, old(Model()), handler, answer)
    {
      if handler.Some? {
        CallHandler(Reply(handler.value, answer));
      }
    }

    method OnNotification(line: string)
      requires Valid() && IsNotification(line)
      modifies this, nodes
      ensures Valid() && fresh(nodes - old(nodes)) && saved == old(saved)
      ensures Model() == HandleNotification(env, old(Model()), line)
    {
      hide Ring, RouteOf, IsKeyAnswer, Invoke, InvokeHandler, Unqueue;
      match RouteOf(line[1..])
      case Route(topic, skip) =>
        if topic == Ready {
          connected := 2;
        }
        CallHandler(Notify(topic, line[1..][skip..]));
      case Unrouted =>
        HeadHolds(ring, queue, nodes);
        if IsKeyAnswer(line) && head != null {
          CallCommandHandler(head.handler, Some(line));
          var _ := UnqueueCommand();
        }
    }

    method OnReply(line: string)
      requires Valid() && queue != []
      modifies this, nodes
      ensures Valid() && fresh(nodes - old(nodes)) && saved == old(saved)
      ensures Model() == HandleReply(env, old(Model()), line)
    {
      hide Ring, IsSuccess, IsError, IsEnd, SuccessText, Invoke, InvokeHandler, Unqueue;
      HeadHolds(ring, queue, nodes);
      var handler := head.handler;
      if IsSuccess(line) {
        CallCommandHandler(handler, Some(SuccessText(line, env.stray(|calls|))));
        var _ := UnqueueCommand();
      } else if IsError(line) {
        CallHandler(Failure(line));
        CallCommandHandler(handler, None);
        var _ := UnqueueCommand();
      } else if IsEnd(line) {
        var _ := UnqueueCommand();
      } else {
        CallCommandHandler(handler, Some(line));
      }
    }

    method OnPrompt()
      requires Valid()
      modifies this, nodes
      ensures Valid() && fresh(nodes - old(nodes))
      ensures saved == "" || saved == old(saved)
      ensures Model() == Handle(env, old(Model()), Prompt)
    {
      hide Ring, Enqueue, Invoke, Close;
      if password != "" {
        ManagementCommand(Request(password, None, Regular));
        password := "";
      } else {
        CloseManagement();
        CallHandler(Notify(Stop, ""));
      }
    }

    method OnLine(line: string)
      requires Valid()
      modifies this, nodes
      ensures Valid() && fresh(nodes - old(nodes)) && saved == old(saved)
      ensures Model() == Handle(env, old(Model()), Line(line))
    {
      hide Ring, IsNotification, HandleNotification, HandleReply;
      HeadHolds(ring, queue, nodes);
      if IsNotification(line) {
        OnNotification(line);
      } else if head != null {
        OnReply(line);
      }
    }

    /** One FD_READ event: everything that has arrived is cut into lines and prompts, and each is handled. */
    method OnRead(chunk: string)
      requires Valid() && Tidy(saved + chunk)
      modifies this, nodes
      ensures Valid() && fresh(nodes - old(nodes))
      ensures Model() == HandleAll(env, old(Model()), Events(old(saved) + chunk))
      ensures saved == Tail(old(saved) + chunk)
    {
      hide Ring, Handle, HandleAll, Events, Tail, Tidy, EventEnd, FirstEvent;
      ghost var start, all := Model(), saved + chunk;
      var data := ToBuffer(saved + chunk);
      saved := "";
      var offset := 0;
      assert data[offset..] == all[offset..] == all;
      while offset < data.Length
        invariant offset <= data.Length == |all| && data[offset..] == all[offset..]
        invariant Valid() && fresh(nodes - old(nodes)) && fresh(data) && data !in nodes && saved == ""
        invariant Tidy(all[offset..]) && Tail(all[offset..]) == Tail(all)
        invariant HandleAll(env, Model(), Events(all[offset..])) == HandleAll(env, start, Events(all))
      {
        ghost var rest := all[offset..];
        var size, prompt, text := NextEvent(data, offset);
        if size == 0 {
          HandleNone(env, Model(), rest);
          saved := data[offset..];
          return;
        }
        HandleFirst(env, Model(), rest);
        assert rest[size..] == all[offset + size..];
        offset := offset + size;
        if prompt {
          OnPrompt();
        } else {
          OnLine(text);
        }
      }
      assert all[offset..] == "";
      HandleNone(env, Model(), "");
    }
  }
}
