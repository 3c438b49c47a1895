/**
 * The life of one connection: the steps of its handlers on values. Each handler is one atomic step; messages posted to the
 * status window wait in a queue.
 */
module Lifecycle {
  datatype State =
    | Disconnected | OnHold | Connecting | Reconnecting | Connected | Disconnecting
    | Suspending | Suspended | Resuming | Detaching | Detached

  /** The status window: absent, its thread about to create it, open, or destroyed with its thread still running. */
  datatype Window = NoWindow | Starting | Open | Closing

  datatype Message = Stop | Detach | Restart | Release

  datatype Command =
    | StateOn | LogOnAll | EchoOnAll | ByteCountFive | AskState
    | HoldOff | HoldRelease | ForgetPasswords | HoldOn | SignalHup

  /**
   * What has happened: an automatic attach, the banner of the daemon, the end of a session lock, uses of force, and the
   * detach handler, in whose course the state is Detaching.
   */
  datatype Mark = Attached | Ready | Unlocked | ExitSignalled | Terminated | DetachEntered

  /** How openvpn is started: by the service, or directly, when its process handle is known at once. */
  datatype Launch = Failed | ByService | Directly

  /** The state change messages of the daemon that matter here. */
  datatype Report = IsConnected | IsConnectedWithErrors | IsReconnecting | IsOther

  /** The management connection; its input level is 0, 1 when connected, and 2 when ready for input. */
  datatype Manage = Manage(socket: bool, inputLevel: nat)

  /** The event that makes the daemon exit, its process handle, and the pipe to the service that has started it. */
  datatype Daemon = Daemon(exitEvent: bool, process: bool, service: bool)

  datatype View = View(window: Window, canStop: bool, canRestart: bool, stopTimer: bool, posted: seq<Message>)

  datatype Log = Log(commands: seq<Command>, marks: seq<Mark>)

  /** `alwaysAttach` is the setting enable_persistent == 2. */
  datatype Conn = Conn(persistent: bool, alwaysAttach: bool, locked: bool, state: State, autoConnect: bool,
                       waitUnlock: bool, manage: Manage, daemon: Daemon, view: View, log: Log)

  predicate Idle(s: State) {
    s == Disconnected || s == Detached
  }

  predicate HasWindow(c: Conn) {
    c.view.window == Open || c.view.window == Closing
  }

  function Post(c: Conn, m: Message): Conn {
    if c.view.window == Open then c.(view := c.view.(posted := c.view.posted + [m])) else c
  }

  function Marked(c: Conn, m: Mark): Conn {
    c.(log := c.log.(marks := c.log.marks + [m]))
  }

  function Queue(c: Conn, commands: seq<Command>): Conn {
    c.(log := c.log.(commands := c.log.commands + commands))
  }

  /** WM_CLOSE destroys the window of an idle connection, with its timer and messages, and hides any other. */
  function CloseWindow(c: Conn): Conn {
    if Idle(c.state) && c.view.window == Open then
      c.(view := c.view.(window := Closing, posted := [], stopTimer := false))
    else c
  }

  function CloseManagement(c: Conn): Conn {
    if c.manage.socket then c.(manage := c.manage.(socket := false, inputLevel := 0)) else c
  }

  /** States in which the end of the daemon also disables the buttons. */
  predicate Trying(s: State) {
    s == Connected || s == Connecting || s == Reconnecting || s == Resuming
  }

  /** The buttons for stopping and restarting are disabled. */
  function Disabled(c: Conn): Conn {
    c.(view := c.view.(canStop := false, canRestart := false))
  }

  function Ended(c: Conn, disable: bool, keepAuto: bool): Conn {
    var d := c.(state := Disconnected, autoConnect := c.autoConnect && keepAuto);
    CloseWindow(if disable then Disabled(d) else d)
  }

  /** The daemon or its management connection has ended; after a disconnection by the user nothing reconnects. */
  function OnStop(c: Conn): Conn {
    if Idle(c.state) || c.state == Suspended then c
    else if c.state == Suspending then c.(state := Suspended)
    else Ended(c, Trying(c.state), !(c.persistent && c.state == Disconnecting))
  }

  function SignalExit(c: Conn): Conn {
    if c.daemon.exitEvent then Marked(c, ExitSignalled) else c
  }

  function Timed(c: Conn): Conn {
    c.(view := c.view.(stopTimer := true))
  }

  /** A daemon of ours is told to exit; a persistent one to disconnect and wait. */
  function DisconnectDaemon(c: Conn): Conn {
    if c.persistent then
      if c.manage.inputLevel > 1 then Queue(c, [ForgetPasswords, HoldOn, SignalHup]) else OnStop(c)
    else Timed(SignalExit(c))
  }

  // Messages to the status window

  function OnStopMessage(c: Conn): Conn {
    if !c.view.canStop || c.state == OnHold then c
    else DisconnectDaemon(Disabled(c.(state := Disconnecting)))
  }

  function OnDetachMessage(c: Conn): Conn {
    OnStop(Disabled(Marked(c.(state := Detaching), DetachEntered)))
  }

  function OnRestartMessage(c: Conn): Conn {
    if c.view.canRestart then Queue(c.(state := Reconnecting), [SignalHup]) else c
  }

  function OnHoldReport(c: Conn): Conn {
    if c.persistent && (c.state == Disconnecting || c.state == Resuming) then
      c.(state := OnHold, view := c.view.(canStop := false, canRestart := true))
    else Queue(c.(view := c.view.(canStop := true, canRestart := true)), [HoldOff, HoldRelease])
  }

  function OnReleaseMessage(c: Conn): Conn {
    OnHoldReport(c.(state := Reconnecting))
  }

  function Dispatch(c: Conn): Conn
    requires c.view.posted != []
  {
    var d := c.(view := c.view.(posted := c.view.posted[1..]));
    match c.view.posted[0]
    case Stop => OnStopMessage(d)
    case Detach => OnDetachMessage(d)
    case Restart => OnRestartMessage(d)
    case Release => OnReleaseMessage(d)
  }

  function OnTimer(c: Conn, active: bool): Conn {
    var d := if c.daemon.process && active then Marked(c, Terminated) else c;
    OnStop(d.(view := d.view.(stopTimer := false)))
  }

  // Reports of the management interface

  function OnReady(c: Conn): Conn {
    var d := Queue(c.(manage := c.manage.(inputLevel := 2)), [StateOn, LogOnAll, EchoOnAll, ByteCountFive, AskState]);
    Marked(d.(autoConnect := c.autoConnect || (c.persistent && c.alwaysAttach)), Ready)
  }

  function OnStateChange(c: Conn, r: Report): Conn {
    match r
    case IsConnected => c.(state := Connected)
    case IsReconnecting => if c.state == Connected then c.(state := Reconnecting) else c
    case _ => c
  }

  function OpenManagement(c: Conn, ok: bool): Conn {
    if ok then c.(manage := c.manage.(socket := true, inputLevel := 0)) else Post(c, Stop)
  }

  function OnTimeout(c: Conn, ok: bool): Conn {
    OpenManagement(c.(state := Connecting), ok)
  }

  /** The socket could not connect; a persistent daemon is tried for ever. */
  function OnConnectError(c: Conn, expired: bool, ok: bool): Conn {
    if c.persistent || !expired then c
    else
      var d := CloseManagement(c);
      if d.state != Disconnected then OnTimeout(d, ok) else d
  }

  function OnConnect(c: Conn, valid: bool): Conn {
    var d := c.(manage := c.manage.(inputLevel := 1));
    if valid then d else Post(CloseManagement(d), Stop)
  }

  function OnSocketClosed(c: Conn): Conn {
    OnStop(CloseManagement(c))
  }

  function OnPasswordMismatch(c: Conn): Conn {
    OnStop(CloseManagement(c.(state := Disconnecting)))
  }

  // Starting and ending

  function Launched(c: Conn, how: Launch): Conn {
    c.(state := if c.state == Suspended || c.state == Detached then Resuming else Connecting,
       view := c.view.(window := Starting),
       daemon := if c.persistent then Daemon(false, false, false) else Daemon(true, how == Directly, how == ByService))
  }

  function StartOpenVPN(c: Conn, how: Launch): Conn {
    if HasWindow(c) then (if c.state == OnHold then Post(c, Release) else c)
    else if !Idle(c.state) then c
    else if how == Failed then (if c.persistent then c.(state := Disconnected) else c)
    else Launched(c, how)
  }

  function Cleanup(c: Conn): Conn {
    CloseManagement(c).(daemon := Daemon(false, false, false))
  }

  function Opened(c: Conn): Conn {
    c.(view := View(Open, true, true, c.view.stopTimer, []))
  }

  function Gone(c: Conn): Conn {
    c.(view := c.view.(window := NoWindow))
  }

  /** The status thread creates its window and opens the management interface. */
  function ThreadStarts(c: Conn, windowOk: bool, managementOk: bool): Conn {
    if windowOk then OpenManagement(Opened(c), managementOk)
    else Gone(Cleanup(SignalExit(c)).(state := Disconnected))
  }

  function ThreadEnds(c: Conn): Conn {
    Gone(Cleanup(c))
  }

  function DetachOpenVPN(c: Conn): Conn {
    if c.persistent then Post(c.(autoConnect := false), Detach) else c
  }

  function ReleaseOpenVPN(c: Conn): Conn {
    if c.state == OnHold then Post(c, Release) else c
  }

  function RestartOpenVPN(c: Conn, how: Launch): Conn {
    if c.state == OnHold then ReleaseOpenVPN(c)
    else if HasWindow(c) then Post(c, Restart)
    else StartOpenVPN(c, how)
  }

  // The main window

  predicate Attachable(c: Conn) {
    c.persistent && c.autoConnect && Idle(c.state)
  }

  function ManagePersistent(c: Conn, how: Launch): Conn {
    if Attachable(c) then StartOpenVPN(Marked(c.(autoConnect := false, state := Detached), Attached), how) else c
  }

  function SessionLock(c: Conn): Conn {
    var d := c.(locked := true);
    if c.persistent && !Idle(c.state) then DetachOpenVPN(d.(autoConnect := false)).(waitUnlock := true) else d
  }

  function SessionUnlock(c: Conn): Conn {
    var d := c.(locked := false);
    if c.waitUnlock then Marked(d.(autoConnect := true, waitUnlock := false), Unlocked) else d
  }

  function StopAll(c: Conn): Conn {
    if Idle(c.state) then c else if c.persistent then DetachOpenVPN(c) else Post(c, Stop)
  }

  // Runs

  datatype Event =
    | UserStart(how: Launch) | UserStop | UserRestart(how: Launch) | UserDetach | UserClose
    | Tick(how: Launch) | Lock | Unlock | AllStop
    | ThreadStart(windowOk: bool, managementOk: bool) | ThreadEnd
    | Message | Timer(active: bool)
    | ConnectError(expired: bool, ok: bool) | Connect(valid: bool) | Banner | Hold | Report(report: Report)
    | SocketClosed | PasswordMismatch
    | ServiceProcess | ExitSeen

  /** The periodic check does not run while the session is locked; the others need their window, socket or handle. */
  predicate Enabled(c: Conn, e: Event) {
    match e
    case Tick(_) => !c.locked
    case ThreadStart(_, _) => c.view.window == Starting
    case ThreadEnd => c.view.window == Closing
    case Message => c.view.posted != []
    case Timer(_) => c.view.window == Open && c.view.stopTimer
    case ConnectError(_, _) => c.view.window == Open && c.manage.socket
    case Connect(_) => c.view.window == Open && c.manage.socket
    case Banner => c.view.window == Open && c.manage.socket
    case Hold => c.view.window == Open && c.manage.socket
    case Report(_) => c.view.window == Open && c.manage.socket
    case SocketClosed => c.view.window == Open && c.manage.socket
    case PasswordMismatch => c.view.window == Open && c.manage.socket
    case ServiceProcess => c.view.window == Open && c.daemon.service
    case ExitSeen => c.view.window == Open && (c.daemon.service || c.daemon.process)
    case _ => true
  }

  function Next(c: Conn, e: Event): Conn
    requires Enabled(c, e)
  {
    match e
    case UserStart(how) => StartOpenVPN(c, how)
    case UserStop => Post(c, Stop)
    case UserRestart(how) => RestartOpenVPN(c, how)
    case UserDetach => DetachOpenVPN(c)
    case UserClose => CloseWindow(c)
    case Tick(how) => ManagePersistent(c, how)
    case Lock => SessionLock(c)
    case Unlock => SessionUnlock(c)
    case AllStop => StopAll(c)
    case ThreadStart(windowOk, managementOk) => ThreadStarts(c, windowOk, managementOk)
    case ThreadEnd => ThreadEnds(c)
    case Message => Dispatch(c)
    case Timer(active) => OnTimer(c, active)
    case ConnectError(expired, ok) => OnConnectError(c, expired, ok)
    case Connect(valid) => OnConnect(c, valid)
    case Banner => OnReady(c)
    case Hold => OnHoldReport(c)
    case Report(report) => OnStateChange(c, report)
    case SocketClosed => OnSocketClosed(c)
    case PasswordMismatch => OnPasswordMismatch(c)
    case ServiceProcess => c.(daemon := c.daemon.(process := true))
    case ExitSeen => OnStop(c)
  }

  predicate Run(c: Conn, es: seq<Event>)
    decreases |es|
  {
    es == [] || (Enabled(c, es[0]) && Run(Next(c, es[0]), es[1..]))
  }

  function After(c: Conn, es: seq<Event>): Conn
    requires Run(c, es)
    decreases |es|
  {
    if es == [] then c else After(Next(c, es[0]), es[1..])
  }

  /** A connection as it is added to the list of configurations. */
  function Added(persistent: bool, alwaysAttach: bool, autoConnect: bool): Conn {
    Conn(persistent, alwaysAttach, false, Disconnected, autoConnect, false,
         Manage(false, 0), Daemon(false, false, false), View(NoWindow, false, false, false, []), Log([], []))
  }

  // Safety

  predicate OnlyPersistent(s: State) {
    s == OnHold || s == Detaching || s == Detached || s == Resuming
  }

  /** The last attach, if any, was followed by a banner or the end of a lock. */
  predicate Rearmed(marks: seq<Mark>) {
    marks == []
    || (var last := marks[|marks| - 1];
        last == Ready || last == Unlocked || (last != Attached && Rearmed(marks[..|marks| - 1])))
  }

  predicate Separated(marks: seq<Mark>) {
    marks == []
    || (Separated(marks[..|marks| - 1]) && (marks[|marks| - 1] == Attached ==> Rearmed(marks[..|marks| - 1])))
  }

  /** A persistent daemon is neither signalled to exit nor terminated, and there is nothing to do it with. */
  predicate Unforced(c: Conn) {
    !c.daemon.exitEvent && !c.daemon.process && !c.daemon.service && !c.view.stopTimer && Unforces(c.log.marks)
  }

  predicate Unforces(marks: seq<Mark>) {
    ExitSignalled !in marks && Terminated !in marks
  }

  predicate Unattached(marks: seq<Mark>) {
    Attached !in marks && DetachEntered !in marks
  }

  /** The window is open exactly while the connection is alive. */
  predicate WindowFits(c: Conn) {
    (match c.view.window
     case NoWindow => Idle(c.state)
     case Closing => Idle(c.state)
     case Starting => c.state == Connecting || c.state == Resuming
     case Open => !Idle(c.state))
    && (c.view.window != Open ==> c.view.posted == [] && !c.view.stopTimer)
  }

  /** An accepted request to stop a daemon of ours has its time limit running. */
  predicate StopIsTimed(c: Conn) {
    c.persistent || c.state != Disconnecting || c.view.stopTimer
  }

  predicate Safe(c: Conn) {
    c.state != Suspending && c.state != Suspended
    && (!c.persistent ==> !OnlyPersistent(c.state) && Detach !in c.view.posted && !c.waitUnlock && Unattached(c.log.marks))
    && (c.persistent ==> Unforced(c))
    && WindowFits(c) && StopIsTimed(c)
    && Separated(c.log.marks) && (c.persistent && c.autoConnect ==> Rearmed(c.log.marks))
  }

  lemma MarkSafe(c: Conn, m: Mark)
    requires Separated(c.log.marks) && (m == Attached ==> Rearmed(c.log.marks))
    ensures Separated(Marked(c, m).log.marks)
    ensures m == Ready || m == Unlocked ==> Rearmed(Marked(c, m).log.marks)
    ensures m != Attached && Rearmed(c.log.marks) ==> Rearmed(Marked(c, m).log.marks)
    ensures m != ExitSignalled && m != Terminated && Unforces(c.log.marks) ==> Unforces(Marked(c, m).log.marks)
    ensures m != Attached && m != DetachEntered && Unattached(c.log.marks) ==> Unattached(Marked(c, m).log.marks)
  {
    assert Marked(c, m).log.marks[..|c.log.marks|] == c.log.marks;
  }

  /** What every handler needs while the window is open: its state is about to be set, or the window closed. */
  predicate Steady(c: Conn) {
    c.state != Suspending && c.state != Suspended && c.view.window == Open
    && (!c.persistent ==> !OnlyPersistent(c.state) && Detach !in c.view.posted && !c.waitUnlock && Unattached(c.log.marks))
    && (c.persistent ==> Unforced(c))
    && Separated(c.log.marks) && (c.persistent && c.autoConnect ==> Rearmed(c.log.marks))
  }

  lemma OnStopSafe(c: Conn)
    requires Steady(c) && !Idle(c.state)
    ensures Safe(OnStop(c)) && OnStop(c).view.window == Closing
  {
    hide Separated, Rearmed, Unforces, Unattached;
  }

  lemma StopMessageSafe(c: Conn)
    requires Safe(c) && c.view.window == Open
    ensures Safe(OnStopMessage(c))
  {
    hide Separated, Rearmed, Unforces, Unattached;
    if c.view.canStop && c.state != OnHold {
      var d := Disabled(c.(state := Disconnecting));
      if d.persistent {
        OnStopSafe(d);
      } else if d.daemon.exitEvent {
        MarkSafe(d, ExitSignalled);
      }
    }
  }

  lemma HoldSafe(c: Conn)
    requires Safe(c) && c.view.window == Open
    ensures Safe(OnHoldReport(c))
  {
    hide Separated, Rearmed, Unforces, Unattached;
  }

  lemma RestartSafe(c: Conn)
    requires Safe(c) && c.view.window == Open
    ensures Safe(OnRestartMessage(c)) && Safe(OnReleaseMessage(c))
  {
    hide Separated, Rearmed, Unforces, Unattached, OnHoldReport;
    ReconnectingSafe(c);
    HoldSafe(c.(state := Reconnecting));
  }

  lemma ReconnectingSafe(c: Conn)
    requires Safe(c) && c.view.window == Open
    ensures Safe(c.(state := Reconnecting))
  {
    hide Separated, Rearmed, Unforces, Unattached;
  }

  lemma DispatchSafe(c: Conn)
    requires Safe(c) && c.view.posted != []
    ensures Safe(Dispatch(c))
  {
    hide Separated, Rearmed, Unforces, Unattached, OnStopMessage, OnStop, OnHoldReport;
    var d := c.(view := c.view.(posted := c.view.posted[1..]));
    TakenSafe(c);
    StopMessageSafe(d);
    RestartSafe(d);
    if c.persistent { DetachSafe(d); }
  }

  lemma TakenSafe(c: Conn)
    requires Safe(c) && c.view.posted != []
    ensures var d := c.(view := c.view.(posted := c.view.posted[1..]));
            Safe(d) && d.view.window == Open && (c.view.posted[0] == Detach ==> c.persistent)
  {
    hide Separated, Rearmed, Unforces, Unattached;
  }

  lemma DetachSafe(c: Conn)
    requires Safe(c) && c.view.window == Open && c.persistent
    ensures Safe(OnDetachMessage(c))
  {
    hide Separated, Rearmed, Unforces, Unattached, OnStop;
    MarkSafe(c.(state := Detaching), DetachEntered);
    OnStopSafe(Disabled(Marked(c.(state := Detaching), DetachEntered)));
  }

  lemma TimerSafe(c: Conn, active: bool)
    requires Safe(c) && c.view.window == Open && c.view.stopTimer
    ensures Safe(OnTimer(c, active))
  {
    hide Separated, Rearmed, Unforces, Unattached;
    MarkSafe(c, Terminated);
    var d := if c.daemon.process && active then Marked(c, Terminated) else c;
    OnStopSafe(d.(view := d.view.(stopTimer := false)));
  }

  lemma ReadySafe(c: Conn)
    requires Safe(c) && c.view.window == Open
    ensures Safe(OnReady(c))
  {
    hide Separated, Rearmed, Unforces, Unattached;
    MarkSafe(c, Ready);
  }

  lemma ClosedSafe(c: Conn)
    requires Safe(c) && c.view.window == Open
    ensures Safe(OnPasswordMismatch(c)) && Safe(OnSocketClosed(c)) && Safe(OnStop(c))
  {
    hide Separated, Rearmed, Unforces, Unattached, OnStop;
    OnStopSafe(c);
    OnStopSafe(CloseManagement(c.(state := Disconnecting)));
    OnStopSafe(CloseManagement(c));
  }

  lemma PostSafe(c: Conn, m: Message)
    requires Safe(c) && (m == Detach ==> c.persistent)
    ensures Safe(Post(c, m)) && Safe(DetachOpenVPN(c)) && Safe(StopAll(c))
  {
    hide Separated, Rearmed, Unforces, Unattached;
  }

  lemma ConnectErrorSafe(c: Conn, expired: bool, ok: bool)
    requires Safe(c) && c.view.window == Open
    ensures Safe(OnConnectError(c, expired, ok))
  {
    hide Separated, Rearmed, Unforces, Unattached, Post;
    var d := CloseManagement(c).(state := Connecting);
    if !c.persistent {
      assert Safe(d);
      PostSafe(d, Stop);
    }
  }

  lemma ConnectSafe(c: Conn, valid: bool)
    requires Safe(c)
    ensures Safe(OnConnect(c, valid))
  {
    hide Separated, Rearmed, Unforces, Unattached, Post;
    var d := CloseManagement(c.(manage := c.manage.(inputLevel := 1)));
    assert Safe(d);
    PostSafe(d, Stop);
  }

  lemma StateChangeSafe(c: Conn, r: Report)
    requires Safe(c) && c.view.window == Open
    ensures Safe(OnStateChange(c, r))
  {
    hide Separated, Rearmed, Unforces, Unattached;
  }

  lemma StartSafe(c: Conn, how: Launch)
    requires Safe(c)
    ensures Safe(StartOpenVPN(c, how)) && Safe(RestartOpenVPN(c, how))
  {
    hide Separated, Rearmed, Unforces, Unattached;
  }

  lemma OpenedSafe(c: Conn, ok: bool)
    requires Safe(c) && c.view.window == Starting
    ensures Safe(OpenManagement(Opened(c), ok))
  {
    hide Separated, Rearmed, Unforces, Unattached, Post;
    assert Safe(Opened(c));
    PostSafe(Opened(c), Stop);
  }

  lemma NoWindowSafe(c: Conn)
    requires Safe(c) && c.view.window == Starting
    ensures Safe(Gone(Cleanup(SignalExit(c)).(state := Disconnected)))
  {
    hide Separated, Rearmed, Unforces, Unattached;
    MarkSafe(c, ExitSignalled);
  }

  lemma ThreadStartSafe(c: Conn, windowOk: bool, managementOk: bool)
    requires Safe(c) && c.view.window == Starting
    ensures Safe(ThreadStarts(c, windowOk, managementOk))
  {
    hide Safe, OpenManagement, Gone, Cleanup, SignalExit, Opened;
    OpenedSafe(c, managementOk);
    NoWindowSafe(c);
  }

  lemma ThreadEndSafe(c: Conn)
    requires Safe(c) && c.view.window == Closing
    ensures Safe(ThreadEnds(c))
  {
    hide Separated, Rearmed, Unforces, Unattached;
    var d := CloseManagement(c);
    assert d == c.(manage := d.manage);
  }

  lemma TickSafe(c: Conn, how: Launch)
    requires Safe(c)
    ensures Safe(ManagePersistent(c, how))
  {
    hide Separated, Rearmed, Unforces, Unattached, StartOpenVPN;
    if Attachable(c) {
      AttachedSafe(c);
      StartSafe(Marked(c.(autoConnect := false, state := Detached), Attached), how);
    }
  }

  lemma AttachedSafe(c: Conn)
    requires Safe(c) && Attachable(c)
    ensures Safe(Marked(c.(autoConnect := false, state := Detached), Attached))
  {
    hide Separated, Rearmed, Unforces, Unattached;
    MarkSafe(c.(autoConnect := false, state := Detached), Attached);
  }

  lemma LockSafe(c: Conn)
    requires Safe(c)
    ensures Safe(SessionLock(c)) && Safe(SessionUnlock(c)) && Safe(CloseWindow(c))
  {
    hide Separated, Rearmed, Unforces, Unattached;
    MarkSafe(c.(locked := false, autoConnect := true, waitUnlock := false), Unlocked);
  }

  lemma ServiceSafe(c: Conn)
    requires Safe(c) && c.daemon.service
    ensures Safe(c.(daemon := c.daemon.(process := true)))
  {
    hide Separated, Rearmed, Unforces, Unattached;
  }

  lemma StepSafe(c: Conn, e: Event)
    requires Safe(c) && Enabled(c, e)
    ensures Safe(Next(c, e))
  {
    hide Safe, StartOpenVPN, Post, RestartOpenVPN, DetachOpenVPN, CloseWindow, ManagePersistent, SessionLock,
         SessionUnlock;
    hide StopAll, ThreadStarts, ThreadEnds, Dispatch, OnTimer, OnConnectError, OnConnect, OnReady, OnHoldReport;
    hide OnStateChange, OnSocketClosed, OnPasswordMismatch, OnStop;
    match e
    case UserStart(how) => StartSafe(c, how);
    case UserStop => PostSafe(c, Stop);
    case UserRestart(how) => StartSafe(c, how);
    case UserDetach => PostSafe(c, Stop);
    case UserClose => LockSafe(c);
    case Tick(how) => TickSafe(c, how);
    case Lock => LockSafe(c);
    case Unlock => LockSafe(c);
    case AllStop => PostSafe(c, Stop);
    case ThreadStart(windowOk, managementOk) => ThreadStartSafe(c, windowOk, managementOk);
    case ThreadEnd => ThreadEndSafe(c);
    case Message => DispatchSafe(c);
    case Timer(active) => TimerSafe(c, active);
    case ConnectError(expired, ok) => ConnectErrorSafe(c, expired, ok);
    case Connect(valid) => ConnectSafe(c, valid);
    case Banner => ReadySafe(c);
    case Hold => HoldSafe(c);
    case Report(report) => StateChangeSafe(c, report);
    case SocketClosed => ClosedSafe(c);
    case PasswordMismatch => ClosedSafe(c);
    case ServiceProcess => ServiceSafe(c);
    case ExitSeen => ClosedSafe(c);
  }

  lemma {:induction false} RunSafe(c: Conn, es: seq<Event>)
    requires Safe(c) && Run(c, es)
    ensures Safe(After(c, es))
    decreases |es|
  {
    hide Safe, Next, Enabled;
    if es != [] {
      StepSafe(c, es[0]);
      RunSafe(Next(c, es[0]), es[1..]);
    }
  }

  lemma AddedSafe(persistent: bool, alwaysAttach: bool, autoConnect: bool)
    ensures Safe(Added(persistent, alwaysAttach, autoConnect))
  {
  }

  lemma {:induction false} RearmedMeans(marks: seq<Mark>, i: nat)
    requires Rearmed(marks) && i < |marks| && marks[i] == Attached
    ensures exists k :: i < k < |marks| && (marks[k] == Ready || marks[k] == Unlocked)
  {
    var n := |marks| - 1;
    if marks[n] == Ready || marks[n] == Unlocked {
      assert i < n;
    } else {
      RearmedMeans(marks[..n], i);
      var k :| i < k < n && (marks[..n][k] == Ready || marks[..n][k] == Unlocked);
      assert marks[k] == marks[..n][k];
    }
  }

  /** Between two automatic attaches there is a banner or the end of a session lock. */
  lemma {:induction false} SeparatedMeans(marks: seq<Mark>, i: nat, j: nat)
    requires Separated(marks) && i < j < |marks| && marks[i] == marks[j] == Attached
    ensures exists k :: i < k < j && (marks[k] == Ready || marks[k] == Unlocked)
  {
    var n := |marks| - 1;
    var before := marks[..n];
    if j == n {
      assert before[i] == Attached;
      RearmedMeans(before, i);
      var k :| i < k < n && (before[k] == Ready || before[k] == Unlocked);
      assert marks[k] == before[k];
    } else {
      SeparatedMeans(before, i, j);
      var k :| i < k < j && (before[k] == Ready || before[k] == Unlocked);
      assert marks[k] == before[k];
    }
  }

  // What holds of every run

  /**
   * Only persistent connections are ever on hold, detached or resuming, are attached automatically, or enter the handler
   * in which they are detaching; a persistent daemon is never signalled to exit or terminated; and two automatic attaches
   * have a banner or the end of a session lock between them.
   */
  predicate Lawful(c: Conn) {
    c.state != Suspending && c.state != Suspended
    && (OnlyPersistent(c.state) || Attached in c.log.marks || DetachEntered in c.log.marks ==> c.persistent)
    && (c.persistent ==> ExitSignalled !in c.log.marks && Terminated !in c.log.marks)
    && forall i, j :: 0 <= i < j < |c.log.marks| && c.log.marks[i] == c.log.marks[j] == Attached ==>
         exists k :: i < k < j && (c.log.marks[k] == Ready || c.log.marks[k] == Unlocked)
  }

  lemma SafeIsLawful(c: Conn)
    requires Safe(c)
    ensures Lawful(c)
  {
    forall i, j | 0 <= i < j < |c.log.marks| && c.log.marks[i] == c.log.marks[j] == Attached
      ensures exists k :: i < k < j && (c.log.marks[k] == Ready || c.log.marks[k] == Unlocked)
    {
      SeparatedMeans(c.log.marks, i, j);
    }
  }

  lemma RunsAreLawful(persistent: bool, alwaysAttach: bool, autoConnect: bool, es: seq<Event>)
    requires Run(Added(persistent, alwaysAttach, autoConnect), es)
    ensures Lawful(After(Added(persistent, alwaysAttach, autoConnect), es))
  {
    hide Safe, Lawful;
    AddedSafe(persistent, alwaysAttach, autoConnect);
    RunSafe(Added(persistent, alwaysAttach, autoConnect), es);
    SafeIsLawful(After(Added(persistent, alwaysAttach, autoConnect), es));
  }

  /** A connection without a window can always be started: it is idle, and only a failed launch prevents it. */
  lemma StartsFromIdle(c: Conn, how: Launch)
    requires Safe(c) && c.view.window == NoWindow
    ensures StartOpenVPN(c, how).view.window == Starting <==> how != Failed
    ensures Idle(c.state)
  {
    hide Separated, Rearmed, Unattached, Unforced;
    assert Idle(c.state);
    assert Launched(c, how).view.window == Starting;
  }

  /** An automatic attach starts a thread exactly if the last one has gone; else it is used up and has no effect. */
  lemma AttachStarts(c: Conn, how: Launch)
    requires Safe(c) && Attachable(c) && how != Failed
    ensures ManagePersistent(c, how).view.window == Starting <==> c.view.window == NoWindow
    ensures c.view.window == Closing ==> ManagePersistent(c, how).state == Detached && !Attachable(ManagePersistent(c, how))
    ensures c.view.window == NoWindow ==> ManagePersistent(c, how).state == Resuming
  {
    hide Separated, Rearmed, Unforces, Unattached;
  }

  lemma RunStep(c: Conn, e: Event, es: seq<Event>)
    requires Enabled(c, e) && Run(Next(c, e), es)
    ensures Run(c, [e] + es) && After(c, [e] + es) == After(Next(c, e), es)
  {
    hide Enabled, Next;
    assert ([e] + es)[1..] == es;
  }

  lemma RunOne(c: Conn, e: Event)
    requires Enabled(c, e)
    ensures Run(c, [e]) && After(c, [e]) == Next(c, e)
  {
    hide Enabled, Next;
  }

  /** A persistent connection that is added, attached at once, and whose window opens. */
  lemma FirstAttach()
    ensures var c := Next(Added(true, true, true), Tick(ByService));
            c.persistent && c.alwaysAttach && c.state == Resuming && c.view.window == Starting && c.view.posted == []
    ensures Run(Added(true, true, true), [Tick(ByService)])
  {
    hide Run, After;
    RunOne(Added(true, true, true), Tick(ByService));
  }

  lemma WindowOpens(c: Conn)
    requires c.view.window == Starting
    ensures var d := Next(c, ThreadStart(true, true));
            d.view.window == Open && d.manage.socket && d.state == c.state
            && d.persistent == c.persistent && d.alwaysAttach == c.alwaysAttach
  {
  }

  lemma BannerArrives(c: Conn)
    requires c.view.window == Open && c.manage.socket && c.persistent && c.alwaysAttach
    ensures var d := Next(Next(c, Connect(true)), Banner);
            d.view.window == Open && d.manage.socket && d.state == c.state && d.persistent && d.autoConnect
  {
  }

  lemma DaemonGoes(c: Conn)
    requires c.view.window == Open && c.manage.socket && c.state == Resuming && c.persistent && c.autoConnect
    ensures Attachable(Next(c, SocketClosed)) && Next(c, SocketClosed).view.window == Closing
  {
  }

  /** A run that loses an attach: the daemon goes away, and the status thread has not ended when the attach is due. */
  lemma AttachIsLost()
    ensures var es := [Tick(ByService), ThreadStart(true, true), Connect(true), Banner, SocketClosed];
            var c := Added(true, true, true);
            Run(c, es) && Attachable(After(c, es)) && After(c, es).view.window == Closing
  {
    hide Run, After, Next, Attachable;
    var c0 := Added(true, true, true);
    var c1 := Next(c0, Tick(ByService));
    FirstAttach();
    var c2 := Next(c1, ThreadStart(true, true));
    WindowOpens(c1);
    var c3 := Next(c2, Connect(true));
    assert c3.view.window == Open && c3.manage.socket by { ConnectKeeps(c2); }
    BannerArrives(c2);
    var c4 := Next(c3, Banner);
    DaemonGoes(c4);
    RunOne(c4, SocketClosed);
    var r3 := [SocketClosed];
    RunStep(c3, Banner, r3);
    var r2 := [Banner] + r3;
    RunStep(c2, Connect(true), r2);
    var r1 := [Connect(true)] + r2;
    RunStep(c1, ThreadStart(true, true), r1);
    var r0 := [ThreadStart(true, true)] + r1;
    RunStep(c0, Tick(ByService), r0);
    assert [Tick(ByService)] + r0 == [Tick(ByService), ThreadStart(true, true), Connect(true), Banner, SocketClosed];
  }

  lemma ConnectKeeps(c: Conn)
    requires Enabled(c, Connect(true))
    ensures Next(c, Connect(true)).view == c.view && Next(c, Connect(true)).manage.socket
  {
  }

  /** A session lock detaches a live persistent connection exactly if its window is open already. */
  lemma LockDetaches(c: Conn)
    requires Safe(c) && c.persistent && !Idle(c.state)
    ensures Detach in SessionLock(c).view.posted <==> c.view.window == Open
  {
    hide Separated, Rearmed, Unattached, Unforced;
    assert SessionLock(c).view.posted == if c.view.window == Open then c.view.posted + [Detach] else c.view.posted;
  }

  /** A run in which it does not: the session is locked while the status thread is starting. */
  lemma LockComesEarly()
    ensures var c := Added(true, true, true);
            Run(c, [Tick(ByService)]) && After(c, [Tick(ByService)]).persistent && !Idle(After(c, [Tick(ByService)]).state)
            && Detach !in SessionLock(After(c, [Tick(ByService)])).view.posted
  {
    hide Run, After, Next;
    FirstAttach();
    RunOne(Added(true, true, true), Tick(ByService));
  }

  /** The detach ends the thread's window and leaves the daemon alone. */
  lemma DetachCloses(c: Conn)
    requires Safe(c) && c.persistent && c.view.window == Open
    ensures var d := OnDetachMessage(c);
            d.view.window == Closing && d.state == Disconnected && d.log.commands == c.log.commands
            && d.log.marks == c.log.marks + [DetachEntered]
  {
    hide Separated, Rearmed, Unforces, Unattached;
  }

  /** A persistent daemon that is ready is told to hold before it restarts, and its hold is then kept. */
  lemma DisconnectKeepsHold(c: Conn)
    requires c.persistent && c.view.canStop && c.state != OnHold && c.manage.inputLevel > 1
    ensures var d := OnHoldReport(OnStopMessage(c));
            d.state == OnHold && d.log.commands == c.log.commands + [ForgetPasswords, HoldOn, SignalHup]
  {
  }

  lemma ResumesFromDetached(c: Conn, how: Launch, managementOk: bool)
    requires c.view.window == NoWindow && Idle(c.state) && how != Failed && (c.state == Detached ==> c.persistent)
    ensures OnHoldReport(ThreadStarts(StartOpenVPN(c, how), true, managementOk)).state == OnHold <==> c.state == Detached
  {
    var d := ThreadStarts(Launched(c, how), true, managementOk);
    assert d.state == (if c.state == Detached then Resuming else Connecting) && d.persistent == c.persistent;
  }

  /** After a start by the user the hold is kept exactly if an automatic attach was lost before. */
  lemma StartKeepsHold(c: Conn, how: Launch, managementOk: bool)
    requires Safe(c) && c.view.window == NoWindow && how != Failed
    ensures OnHoldReport(ThreadStarts(StartOpenVPN(c, how), true, managementOk)).state == OnHold <==> c.state == Detached
  {
    hide Separated, Rearmed, Unattached, Unforced, OnHoldReport, ThreadStarts, StartOpenVPN;
    ResumesFromDetached(c, how, managementOk);
  }

  /** The hold of a persistent daemon that is attached automatically is kept. */
  lemma AttachKeepsHold(c: Conn, how: Launch, managementOk: bool)
    requires Safe(c) && c.view.window == NoWindow && how != Failed && Attachable(c)
    ensures OnHoldReport(ThreadStarts(ManagePersistent(c, how), true, managementOk)).state == OnHold
  {
    hide Safe, OnHoldReport, ThreadStarts, StartOpenVPN;
    ResumesFromDetached(Marked(c.(autoConnect := false, state := Detached), Attached), how, managementOk);
  }
}
