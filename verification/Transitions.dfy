/**
 * What one event does to a connection, field by field: for each field all the events that change it, whichever handlers
 * they go through.
 */
module Transitions {
  import opened Lifecycle

  // ---- Which events are taken as what

  predicate Takes(c: Conn, e: Event, m: Message) {
    e == Message && c.view.posted != [] && c.view.posted[0] == m
  }

  /** A request to stop counts while its button is enabled, unless the daemon is on hold. */
  predicate StopAccepted(c: Conn, e: Event) {
    Takes(c, e, Stop) && c.view.canStop && c.state != OnHold
  }

  predicate RestartAccepted(c: Conn, e: Event) {
    Takes(c, e, Restart) && c.view.canRestart
  }

  predicate HoldKept(c: Conn, e: Event) {
    e == Hold && c.persistent && (c.state == Disconnecting || c.state == Resuming)
  }

  /** The hold is released on its report, or when the user asks for it later. */
  predicate HoldReleased(c: Conn, e: Event) {
    (e == Hold && !HoldKept(c, e)) || Takes(c, e, Release)
  }

  /** The daemon has ended or is given up, as far as this connection is concerned. */
  predicate Ends(c: Conn, e: Event) {
    e.Timer? || e == SocketClosed || e == PasswordMismatch || e == ExitSeen || Takes(c, e, Detach)
    || (StopAccepted(c, e) && c.persistent && c.manage.inputLevel <= 1)
  }

  predicate Attaches(c: Conn, e: Event) {
    e.Tick? && c.persistent && c.autoConnect && Idle(c.state)
  }

  /** A thread is asked for: by the user, or by an attach. */
  predicate Asked(c: Conn, e: Event) {
    c.view.window == NoWindow && (e.UserStart? || e.UserRestart? || Attaches(c, e))
  }

  function HowLaunched(e: Event): Launch {
    match e
    case UserStart(how) => how
    case UserRestart(how) => how
    case Tick(how) => how
    case _ => Failed
  }

  predicate Starts(c: Conn, e: Event) {
    Asked(c, e) && HowLaunched(e) != Failed
  }

  /** The management interface of a daemon of ours could not be reached in time, and the connection is still wanted. */
  predicate TriesAgain(c: Conn, e: Event) {
    e.ConnectError? && e.expired && !c.persistent && c.state != Disconnected
  }

  /** The user has given up a persistent connection that ends. */
  predicate GivesUp(c: Conn, e: Event) {
    Ends(c, e) && c.persistent
    && (e == PasswordMismatch || StopAccepted(c, e) || (c.state == Disconnecting && !Takes(c, e, Detach)))
  }

  // ---- The fields after the event

  function Appended<T(==)>(xs: seq<T>, ys: seq<T>): seq<T> {
    if ys == [] then xs else xs + ys
  }

  /** The exit event of a daemon of ours is set when an accepted stop begins, or if the thread has no window. */
  predicate ExitIsSignalled(c: Conn, e: Event) {
    c.daemon.exitEvent && ((StopAccepted(c, e) && !c.persistent) || (e.ThreadStart? && !e.windowOk))
  }

  function NewMarks(c: Conn, e: Event): seq<Mark> {
    if Attaches(c, e) then [Attached]
    else if e == Banner then [Ready]
    else if e == Unlock && c.waitUnlock then [Unlocked]
    else if ExitIsSignalled(c, e) then [ExitSignalled]
    else if e.Timer? && e.active && c.daemon.process then [Terminated]
    else if Takes(c, e, Detach) then [DetachEntered]
    else []
  }

  function NewCommands(c: Conn, e: Event): seq<Command> {
    if e == Banner then [StateOn, LogOnAll, EchoOnAll, ByteCountFive, AskState]
    else if HoldReleased(c, e) then [HoldOff, HoldRelease]
    else if StopAccepted(c, e) && c.persistent && c.manage.inputLevel > 1 then [ForgetPasswords, HoldOn, SignalHup]
    else if RestartAccepted(c, e) then [SignalHup]
    else []
  }

  function NewState(c: Conn, e: Event): State {
    if Starts(c, e) then (if c.state == Detached || e.Tick? then Resuming else Connecting)
    else if Attaches(c, e) && !Asked(c, e) then Detached
    else if (Asked(c, e) && c.persistent) || (e.ThreadStart? && !e.windowOk) || Ends(c, e) then Disconnected
    else if StopAccepted(c, e) then Disconnecting
    else if RestartAccepted(c, e) || Takes(c, e, Release) then Reconnecting
    else if HoldKept(c, e) then OnHold
    else if TriesAgain(c, e) then Connecting
    else if e == Report(IsConnected) then Connected
    else if e == Report(IsReconnecting) && c.state == Connected then Reconnecting
    else c.state
  }

  /** Events that detach a live persistent connection, or would if its window were open. */
  predicate Detaches(c: Conn, e: Event) {
    c.persistent && (e == UserDetach || ((e == Lock || e == AllStop) && !Idle(c.state)))
  }

  function NewAutoConnect(c: Conn, e: Event): bool {
    if Attaches(c, e) || Detaches(c, e) || GivesUp(c, e) then false
    else c.autoConnect || (e == Unlock && c.waitUnlock) || (e == Banner && c.persistent && c.alwaysAttach)
  }

  function NewManage(c: Conn, e: Event): Manage {
    if (e.ThreadStart? && e.windowOk && e.managementOk) || (TriesAgain(c, e) && e.ok) then Manage(true, 0)
    else if e == Connect(true) then Manage(true, 1)
    else if e == Banner then Manage(true, 2)
    else if e == Connect(false) || e == SocketClosed || e == PasswordMismatch || e == ThreadEnd || TriesAgain(c, e)
            || (e.ThreadStart? && !e.windowOk)
      then (if c.manage.socket then Manage(false, 0) else c.manage)
    else c.manage
  }

  function NewDaemon(c: Conn, e: Event): Daemon {
    if Starts(c, e) && !c.persistent then Daemon(true, HowLaunched(e) == Directly, HowLaunched(e) == ByService)
    else if Starts(c, e) || e == ThreadEnd || (e.ThreadStart? && !e.windowOk) then Daemon(false, false, false)
    else if e == ServiceProcess then c.daemon.(process := true)
    else c.daemon
  }

  function NewWindow(c: Conn, e: Event): Window {
    if Starts(c, e) then Starting
    else if e.ThreadStart? && e.windowOk then Open
    else if e.ThreadStart? || e == ThreadEnd then NoWindow
    else if Ends(c, e) then Closing
    else c.view.window
  }

  /** A connection that breaks down disables the buttons, and so does a stop or a detach. */
  predicate Disables(c: Conn, e: Event) {
    StopAccepted(c, e) || Takes(c, e, Detach) || (Ends(c, e) && e != PasswordMismatch && Trying(c.state))
  }

  function NewCanStop(c: Conn, e: Event): bool {
    if Disables(c, e) || HoldKept(c, e) then false
    else c.view.canStop || HoldReleased(c, e) || (e.ThreadStart? && e.windowOk)
  }

  function NewCanRestart(c: Conn, e: Event): bool {
    if Disables(c, e) then false
    else c.view.canRestart || HoldKept(c, e) || HoldReleased(c, e) || (e.ThreadStart? && e.windowOk)
  }

  /** The time limit runs from an accepted stop of a daemon of ours to the end. */
  function NewTimer(c: Conn, e: Event): bool {
    !Ends(c, e) && (c.view.stopTimer || (StopAccepted(c, e) && !c.persistent))
  }

  /** What is posted to an open window. */
  function NewMessages(c: Conn, e: Event): seq<Message> {
    if e == UserStop || e == Connect(false) || (e == AllStop && !c.persistent && !Idle(c.state)) || (TriesAgain(c, e) && !e.ok)
      then [Stop]
    else if Detaches(c, e) then [Detach]
    else if (e.UserStart? || e.UserRestart?) && c.state == OnHold then [Release]
    else if e.UserRestart? then [Restart]
    else []
  }

  function NewPosted(c: Conn, e: Event): seq<Message> {
    if e.ThreadStart? && e.windowOk then (if e.managementOk then [] else [Stop])
    else if Ends(c, e) then []
    else if e == Message && c.view.posted != [] then c.view.posted[1..]
    else if c.view.window == Open then Appended(c.view.posted, NewMessages(c, e))
    else c.view.posted
  }

  function Outcome(c: Conn, e: Event): Conn {
    Conn(c.persistent, c.alwaysAttach, e == Lock || (c.locked && e != Unlock), NewState(c, e), NewAutoConnect(c, e),
         if e == Lock && c.persistent && !Idle(c.state) then true else c.waitUnlock && e != Unlock,
         NewManage(c, e), NewDaemon(c, e),
         View(NewWindow(c, e), NewCanStop(c, e), NewCanRestart(c, e), NewTimer(c, e), NewPosted(c, e)),
         Log(Appended(c.log.commands, NewCommands(c, e)), Appended(c.log.marks, NewMarks(c, e))))
  }

  /** What the table relies on. */
  predicate Sensible(c: Conn) {
    WindowFits(c) && c.state != Suspending && c.state != Suspended
    && (!c.persistent ==> !OnlyPersistent(c.state) && Detach !in c.view.posted)
  }

  /** Events that ask for no thread. */
  lemma NothingStarts(c: Conn, e: Event)
    requires !e.UserStart? && !e.UserRestart? && !e.Tick?
    ensures !Starts(c, e) && !Asked(c, e) && !Attaches(c, e)
  {
  }

  /** Events that are no messages. */
  lemma NoMessage(c: Conn, e: Event)
    requires e != Message
    ensures !StopAccepted(c, e) && !RestartAccepted(c, e) && forall m :: !Takes(c, e, m)
  {
  }

  /** The end of a live connection, whose buttons stay as they are or are disabled. */
  function Over(c: Conn, keepButtons: bool, autoConnect: bool): Conn {
    Conn(c.persistent, c.alwaysAttach, c.locked, Disconnected, autoConnect, c.waitUnlock, c.manage, c.daemon,
         View(Closing, c.view.canStop && keepButtons, c.view.canRestart && keepButtons, false, []), c.log)
  }

  lemma StopIsOver(c: Conn)
    requires c.view.window == Open && !Idle(c.state) && c.state != Suspending && c.state != Suspended
    ensures OnStop(c) == Over(c, !Trying(c.state), c.autoConnect && !(c.persistent && c.state == Disconnecting))
  {
    if Trying(c.state) {} else {}
  }

  /** The fields after an event, other than a message, that ends the connection. */
  lemma EndFields(c: Conn, e: Event)
    requires Sensible(c) && Enabled(c, e) && (e.Timer? || e == SocketClosed || e == PasswordMismatch || e == ExitSeen)
    ensures NewState(c, e) == Disconnected && NewDaemon(c, e) == c.daemon && NewWindow(c, e) == Closing
    ensures NewTimer(c, e) == false && NewPosted(c, e) == [] && NewCommands(c, e) == []
    ensures NewMarks(c, e) == if e.Timer? && e.active && c.daemon.process then [Terminated] else []
  {
    NothingStarts(c, e);
    NoMessage(c, e);
    hide Starts, Asked, Attaches, StopAccepted, RestartAccepted, Takes, Trying, WindowFits;
  }

  lemma EndButtons(c: Conn, e: Event)
    requires Sensible(c) && Enabled(c, e) && (e.Timer? || e == SocketClosed || e == PasswordMismatch || e == ExitSeen)
    ensures NewManage(c, e) == if c.manage.socket && !e.Timer? && e != ExitSeen then Manage(false, 0) else c.manage
    ensures NewCanStop(c, e) == (c.view.canStop && (e == PasswordMismatch || !Trying(c.state)))
    ensures NewCanRestart(c, e) == (c.view.canRestart && (e == PasswordMismatch || !Trying(c.state)))
    ensures NewAutoConnect(c, e) == (c.autoConnect && !(c.persistent && (c.state == Disconnecting || e == PasswordMismatch)))
  {
    NothingStarts(c, e);
    NoMessage(c, e);
    hide Starts, Asked, Attaches, StopAccepted, RestartAccepted, Takes, Trying, WindowFits;
  }

  lemma EndIsOver(c: Conn, e: Event)
    requires Sensible(c) && Enabled(c, e) && (e.Timer? || e == SocketClosed || e == PasswordMismatch || e == ExitSeen)
    ensures Outcome(c, e) == Over(c.(manage := NewManage(c, e), log := Log(c.log.commands, Appended(c.log.marks, NewMarks(c, e)))),
                                  e == PasswordMismatch || !Trying(c.state), NewAutoConnect(c, e))
  {
    EndFields(c, e);
    EndButtons(c, e);
    hide NewState, NewAutoConnect, NewManage, NewDaemon, NewWindow, NewCanStop, NewCanRestart,
         NewTimer, NewPosted, NewCommands, NewMarks;
  }

  lemma NoStart(c: Conn, how: Launch)
    requires Sensible(c) && c.view.window != NoWindow
    ensures Next(c, UserStart(how)) == Outcome(c, UserStart(how))
  {
  }

  lemma StartFails(c: Conn)
    requires Sensible(c) && c.view.window == NoWindow
    ensures Next(c, UserStart(Failed)) == Outcome(c, UserStart(Failed))
  {
  }

  lemma StartSucceeds(c: Conn, how: Launch)
    requires Sensible(c) && c.view.window == NoWindow && how != Failed
    ensures Next(c, UserStart(how)) == Outcome(c, UserStart(how))
  {
  }

  lemma UserStartOutcome(c: Conn, how: Launch)
    requires Sensible(c)
    ensures Next(c, UserStart(how)) == Outcome(c, UserStart(how))
  {
    hide Next, Outcome, Sensible;
    if c.view.window != NoWindow {
      NoStart(c, how);
    } else if how == Failed {
      StartFails(c);
    } else {
      StartSucceeds(c, how);
    }
  }

  lemma RestartOpen(c: Conn, how: Launch)
    requires Sensible(c) && c.view.window != NoWindow
    ensures Next(c, UserRestart(how)) == Outcome(c, UserRestart(how))
  {
  }

  /** Without a window a restart is a start. */
  lemma RestartIsStart(c: Conn, how: Launch)
    requires Sensible(c) && c.view.window == NoWindow
    ensures Next(c, UserRestart(how)) == Next(c, UserStart(how))
    ensures Outcome(c, UserRestart(how)) == Outcome(c, UserStart(how))
  {
    hide StartOpenVPN;
  }

  lemma UserRestartOutcome(c: Conn, how: Launch)
    requires Sensible(c)
    ensures Next(c, UserRestart(how)) == Outcome(c, UserRestart(how))
  {
    hide Next, Outcome, Sensible;
    if c.view.window == NoWindow {
      RestartIsStart(c, how);
      UserStartOutcome(c, how);
    } else {
      RestartOpen(c, how);
    }
  }

  lemma UserStopOutcome(c: Conn)
    requires Sensible(c) && Enabled(c, UserStop)
    ensures Next(c, UserStop) == Outcome(c, UserStop)
  {
  }

  lemma UserDetachOutcome(c: Conn)
    requires Sensible(c) && Enabled(c, UserDetach)
    ensures Next(c, UserDetach) == Outcome(c, UserDetach)
  {
  }

  lemma UserCloseOutcome(c: Conn)
    requires Sensible(c) && Enabled(c, UserClose)
    ensures Next(c, UserClose) == Outcome(c, UserClose)
  {
  }

  lemma TickOutcome(c: Conn, how: Launch)
    requires Sensible(c) && Enabled(c, Tick(how))
    ensures Next(c, Tick(how)) == Outcome(c, Tick(how))
  {
  }

  lemma LockOutcome(c: Conn)
    requires Sensible(c) && Enabled(c, Lock)
    ensures Next(c, Lock) == Outcome(c, Lock)
  {
  }

  lemma UnlockOutcome(c: Conn)
    requires Sensible(c) && Enabled(c, Unlock)
    ensures Next(c, Unlock) == Outcome(c, Unlock)
  {
  }

  lemma AllStopOutcome(c: Conn)
    requires Sensible(c) && Enabled(c, AllStop)
    ensures Next(c, AllStop) == Outcome(c, AllStop)
  {
  }

  lemma FailedFields(c: Conn, managementOk: bool)
    requires Sensible(c) && c.view.window == Starting
    ensures var e := ThreadStart(false, managementOk);
            NewState(c, e) == Disconnected && NewDaemon(c, e) == Daemon(false, false, false) && NewWindow(c, e) == NoWindow
            && NewTimer(c, e) == c.view.stopTimer && NewPosted(c, e) == c.view.posted && NewCommands(c, e) == []
            && NewManage(c, e) == (if c.manage.socket then Manage(false, 0) else c.manage)
            && NewCanStop(c, e) == c.view.canStop && NewCanRestart(c, e) == c.view.canRestart
            && NewAutoConnect(c, e) == c.autoConnect
            && NewMarks(c, e) == if c.daemon.exitEvent then [ExitSignalled] else []
  {
    NothingStarts(c, ThreadStart(false, managementOk));
    NoMessage(c, ThreadStart(false, managementOk));
    hide Starts, Asked, Attaches, StopAccepted, RestartAccepted, Takes;
  }

  lemma FailedNext(c: Conn, managementOk: bool)
    requires c.view.window == Starting
    ensures Next(c, ThreadStart(false, managementOk))
         == Conn(c.persistent, c.alwaysAttach, c.locked, Disconnected, c.autoConnect, c.waitUnlock,
                 if c.manage.socket then Manage(false, 0) else c.manage, Daemon(false, false, false),
                 c.view.(window := NoWindow),
                 Log(c.log.commands, Appended(c.log.marks, if c.daemon.exitEvent then [ExitSignalled] else [])))
  {
  }

  lemma ThreadFails(c: Conn, managementOk: bool)
    requires Sensible(c) && c.view.window == Starting
    ensures Next(c, ThreadStart(false, managementOk)) == Outcome(c, ThreadStart(false, managementOk))
  {
    FailedFields(c, managementOk);
    FailedNext(c, managementOk);
    hide Next, NewState, NewAutoConnect, NewManage, NewDaemon, NewWindow, NewCanStop, NewCanRestart,
         NewTimer, NewPosted, NewCommands, NewMarks;
  }

  lemma ThreadRuns(c: Conn, managementOk: bool)
    requires Sensible(c) && c.view.window == Starting
    ensures Next(c, ThreadStart(true, managementOk)) == Outcome(c, ThreadStart(true, managementOk))
  {
    NothingStarts(c, ThreadStart(true, managementOk));
    NoMessage(c, ThreadStart(true, managementOk));
    hide Starts, Asked, Attaches, StopAccepted, RestartAccepted, Takes;
    assert [] + [Stop] == [Stop];
  }

  lemma ThreadEndOutcome(c: Conn)
    requires Sensible(c) && Enabled(c, ThreadEnd)
    ensures Next(c, ThreadEnd) == Outcome(c, ThreadEnd)
  {
    var d := CloseManagement(c);
    assert d == c.(manage := d.manage);
    NothingStarts(c, ThreadEnd);
    NoMessage(c, ThreadEnd);
    hide Starts, Asked, Attaches, StopAccepted, RestartAccepted, Takes;
  }

  lemma TimerTerminates(c: Conn)
    requires Sensible(c) && Enabled(c, Timer(true)) && c.daemon.process
    ensures Next(c, Timer(true)) == Outcome(c, Timer(true))
  {
    EndFields(c, Timer(true));
    EndButtons(c, Timer(true));
    EndIsOver(c, Timer(true));
    hide Outcome, OnStop, NewMarks, NewManage, NewAutoConnect;
    StopIsOver(Marked(c, Terminated).(view := c.view.(stopTimer := false)));
  }

  lemma TimerOnlyEnds(c: Conn, active: bool)
    requires Sensible(c) && Enabled(c, Timer(active)) && !(c.daemon.process && active)
    ensures Next(c, Timer(active)) == Outcome(c, Timer(active))
  {
    EndFields(c, Timer(active));
    EndButtons(c, Timer(active));
    EndIsOver(c, Timer(active));
    hide Outcome, OnStop, NewMarks, NewManage, NewAutoConnect;
    StopIsOver(c.(view := c.view.(stopTimer := false)));
  }

  lemma ConnectErrorOutcome(c: Conn, expired: bool, ok: bool)
    requires Sensible(c) && Enabled(c, ConnectError(expired, ok))
    ensures Next(c, ConnectError(expired, ok)) == Outcome(c, ConnectError(expired, ok))
  {
  }

  lemma ConnectOutcome(c: Conn, valid: bool)
    requires Sensible(c) && Enabled(c, Connect(valid))
    ensures Next(c, Connect(valid)) == Outcome(c, Connect(valid))
  {
  }

  lemma BannerOutcome(c: Conn)
    requires Sensible(c) && Enabled(c, Banner)
    ensures Next(c, Banner) == Outcome(c, Banner)
  {
  }

  lemma HoldOutcome(c: Conn)
    requires Sensible(c) && Enabled(c, Hold)
    ensures Next(c, Hold) == Outcome(c, Hold)
  {
  }

  lemma ReportOutcome(c: Conn, report: Report)
    requires Sensible(c) && Enabled(c, Report(report))
    ensures Next(c, Report(report)) == Outcome(c, Report(report))
  {
  }

  lemma SocketClosedOutcome(c: Conn)
    requires Sensible(c) && Enabled(c, SocketClosed)
    ensures Next(c, SocketClosed) == Outcome(c, SocketClosed)
  {
    EndFields(c, SocketClosed);
    EndButtons(c, SocketClosed);
    EndIsOver(c, SocketClosed);
    hide Outcome, OnStop, NewMarks, NewManage, NewAutoConnect;
    StopIsOver(CloseManagement(c));
  }

  lemma PasswordMismatchOutcome(c: Conn)
    requires Sensible(c) && Enabled(c, PasswordMismatch)
    ensures Next(c, PasswordMismatch) == Outcome(c, PasswordMismatch)
  {
    EndFields(c, PasswordMismatch);
    EndButtons(c, PasswordMismatch);
    EndIsOver(c, PasswordMismatch);
    hide Outcome, OnStop, NewMarks, NewManage, NewAutoConnect;
    StopIsOver(CloseManagement(c.(state := Disconnecting)));
  }

  lemma ServiceProcessOutcome(c: Conn)
    requires Sensible(c) && Enabled(c, ServiceProcess)
    ensures Next(c, ServiceProcess) == Outcome(c, ServiceProcess)
  {
  }

  lemma ExitSeenOutcome(c: Conn)
    requires Sensible(c) && Enabled(c, ExitSeen)
    ensures Next(c, ExitSeen) == Outcome(c, ExitSeen)
  {
    EndFields(c, ExitSeen);
    EndButtons(c, ExitSeen);
    EndIsOver(c, ExitSeen);
    hide Outcome, OnStop, NewMarks, NewManage, NewAutoConnect;
    StopIsOver(c);
  }

  lemma StopRefused(c: Conn)
    requires Sensible(c) && c.view.posted != [] && c.view.posted[0] == Stop && !StopAccepted(c, Message)
    ensures Next(c, Message) == Outcome(c, Message)
  {
    NothingStarts(c, Message);
    hide Starts, Asked, Attaches;
  }

  lemma StopOwnDaemon(c: Conn)
    requires Sensible(c) && c.view.posted != [] && c.view.posted[0] == Stop && StopAccepted(c, Message) && !c.persistent
    ensures Next(c, Message) == Outcome(c, Message)
  {
    NothingStarts(c, Message);
    hide Starts, Asked, Attaches;
  }

  lemma StopReadyDaemon(c: Conn)
    requires Sensible(c) && c.view.posted != [] && c.view.posted[0] == Stop && StopAccepted(c, Message) && c.persistent
    requires c.manage.inputLevel > 1
    ensures Next(c, Message) == Outcome(c, Message)
  {
    NothingStarts(c, Message);
    hide Starts, Asked, Attaches;
  }

  lemma StopUnreadyDaemon(c: Conn)
    requires Sensible(c) && c.view.posted != [] && c.view.posted[0] == Stop && StopAccepted(c, Message) && c.persistent
    requires c.manage.inputLevel <= 1
    ensures Next(c, Message) == Outcome(c, Message)
  {
    NothingStarts(c, Message);
    hide OnStop, Starts, Asked, Attaches;
    StopIsOver(Disabled(c.(view := c.view.(posted := c.view.posted[1..]), state := Disconnecting)));
  }

  lemma StopOutcome(c: Conn)
    requires Sensible(c) && c.view.posted != [] && c.view.posted[0] == Stop
    ensures Next(c, Message) == Outcome(c, Message)
  {
    hide Next, Outcome, StopAccepted, Sensible;
    if !StopAccepted(c, Message) {
      StopRefused(c);
    } else if !c.persistent {
      StopOwnDaemon(c);
    } else if c.manage.inputLevel > 1 {
      StopReadyDaemon(c);
    } else {
      StopUnreadyDaemon(c);
    }
  }

  lemma DetachOutcome(c: Conn)
    requires Sensible(c) && c.view.posted != [] && c.view.posted[0] == Detach
    ensures Next(c, Message) == Outcome(c, Message)
  {
    NothingStarts(c, Message);
    hide OnStop, Starts, Asked, Attaches;
    StopIsOver(Disabled(Marked(c.(view := c.view.(posted := c.view.posted[1..]), state := Detaching), DetachEntered)));
  }

  lemma RestartOutcome(c: Conn)
    requires Sensible(c) && c.view.posted != [] && c.view.posted[0] == Restart
    ensures Next(c, Message) == Outcome(c, Message)
  {
  }

  lemma ReleaseOutcome(c: Conn)
    requires Sensible(c) && c.view.posted != [] && c.view.posted[0] == Release
    ensures Next(c, Message) == Outcome(c, Message)
  {
  }

  lemma MessageOutcome(c: Conn)
    requires Sensible(c) && Enabled(c, Message)
    ensures Next(c, Message) == Outcome(c, Message)
  {
    hide Next, Outcome, Sensible;
    match c.view.posted[0]
    case Stop => StopOutcome(c);
    case Detach => DetachOutcome(c);
    case Restart => RestartOutcome(c);
    case Release => ReleaseOutcome(c);
  }

  lemma SafeIsSensible(c: Conn)
    requires Safe(c)
    ensures Sensible(c)
  {
    hide Separated, Rearmed, Unforces, Unattached, StopIsTimed;
  }

  /** Every event leaves every field of a safe connection as the tables say. */
  lemma StepOutcome(c: Conn, e: Event)
    requires Safe(c) && Enabled(c, e)
    ensures Next(c, e) == Outcome(c, e)
  {
    hide Safe, Sensible, Next, Outcome;
    SafeIsSensible(c);
    match e
    case UserStart(how) => UserStartOutcome(c, how);
    case UserStop => UserStopOutcome(c);
    case UserRestart(how) => UserRestartOutcome(c, how);
    case UserDetach => UserDetachOutcome(c);
    case UserClose => UserCloseOutcome(c);
    case Tick(how) => TickOutcome(c, how);
    case Lock => LockOutcome(c);
    case Unlock => UnlockOutcome(c);
    case AllStop => AllStopOutcome(c);
    case ThreadStart(windowOk, managementOk) =>
      if windowOk { ThreadRuns(c, managementOk); } else { ThreadFails(c, managementOk); }
    case ThreadEnd => ThreadEndOutcome(c);
    case Message => MessageOutcome(c);
    case Timer(active) =>
      if c.daemon.process && active { TimerTerminates(c); } else { TimerOnlyEnds(c, active); }
    case ConnectError(expired, ok) => ConnectErrorOutcome(c, expired, ok);
    case Connect(valid) => ConnectOutcome(c, valid);
    case Banner => BannerOutcome(c);
    case Hold => HoldOutcome(c);
    case Report(report) => ReportOutcome(c, report);
    case SocketClosed => SocketClosedOutcome(c);
    case PasswordMismatch => PasswordMismatchOutcome(c);
    case ServiceProcess => ServiceProcessOutcome(c);
    case ExitSeen => ExitSeenOutcome(c);
  }

  // ---- What is done to the daemon, and exactly when

  function AddedMarks(c: Conn, e: Event): seq<Mark>
    requires Enabled(c, e) && c.log.marks <= Next(c, e).log.marks
  {
    Next(c, e).log.marks[|c.log.marks|..]
  }

  function AddedCommands(c: Conn, e: Event): seq<Command>
    requires Enabled(c, e) && c.log.commands <= Next(c, e).log.commands
  {
    Next(c, e).log.commands[|c.log.commands|..]
  }

  lemma AppendedRest<T>(xs: seq<T>, ys: seq<T>)
    ensures xs <= Appended(xs, ys) && Appended(xs, ys)[|xs|..] == ys
  {
  }

  lemma StepAdds(c: Conn, e: Event)
    requires Safe(c) && Enabled(c, e)
    ensures c.log.marks <= Next(c, e).log.marks && AddedMarks(c, e) == NewMarks(c, e)
    ensures c.log.commands <= Next(c, e).log.commands && AddedCommands(c, e) == NewCommands(c, e)
    ensures Next(c, e).state == NewState(c, e)
  {
    hide Safe, Next, NewMarks, NewCommands, NewState, Appended;
    StepOutcome(c, e);
    AppendedRest(c.log.marks, NewMarks(c, e));
    AppendedRest(c.log.commands, NewCommands(c, e));
  }

  /**
   * A daemon is told to exit exactly if it is not persistent, has an exit event, and the user's stop is accepted or the status
   * window fails to open; its process is terminated exactly if it still runs when the time limit for that expires.
   */
  lemma ForceExactly(c: Conn, e: Event)
    requires Safe(c) && Enabled(c, e)
    ensures c.log.marks <= Next(c, e).log.marks
    ensures ExitSignalled in AddedMarks(c, e) <==>
              !c.persistent && c.daemon.exitEvent && (StopAccepted(c, e) || (e.ThreadStart? && !e.windowOk))
    ensures Terminated in AddedMarks(c, e) <==> !c.persistent && c.daemon.process && e == Timer(true)
  {
    hide Next, StopAccepted, WindowFits, Separated, Rearmed, StopIsTimed, Unattached;
    StepAdds(c, e);
    if e != Message { NoMessage(c, e); }
  }

  /**
   * The hold is released exactly on its report, unless it is kept, or on the user's release; a persistent daemon restarts
   * exactly on an accepted restart, or, told to hold before, on an accepted stop when it is ready.
   */
  lemma CommandsExactly(c: Conn, e: Event)
    requires Safe(c) && Enabled(c, e)
    ensures c.log.commands <= Next(c, e).log.commands
    ensures HoldRelease in AddedCommands(c, e) <==> HoldReleased(c, e)
    ensures SignalHup in AddedCommands(c, e) <==>
              RestartAccepted(c, e) || (StopAccepted(c, e) && c.persistent && c.manage.inputLevel > 1)
    ensures HoldOn in AddedCommands(c, e) <==> StopAccepted(c, e) && c.persistent && c.manage.inputLevel > 1
  {
    hide Next, Safe;
    StepAdds(c, e);
  }

  /** A connection becomes connected exactly on the daemon's report, and on hold exactly when a hold is kept. */
  lemma StatesExactly(c: Conn, e: Event)
    requires Safe(c) && Enabled(c, e)
    ensures Next(c, e).state == Connected <==> e == Report(IsConnected) || (c.state == Connected && KeepsState(c, e))
    ensures Next(c, e).state == OnHold <==> HoldKept(c, e) || (c.state == OnHold && KeepsState(c, e))
    ensures Next(c, e).state == Disconnecting <==>
              (StopAccepted(c, e) && !Ends(c, e)) || (c.state == Disconnecting && KeepsState(c, e))
  {
    hide Next;
    StepAdds(c, e);
  }

  /** None of the events that change the state. */
  predicate KeepsState(c: Conn, e: Event) {
    !Ends(c, e) && !StopAccepted(c, e) && !RestartAccepted(c, e) && !Takes(c, e, Release) && !HoldKept(c, e)
    && !TriesAgain(c, e) && e != Report(IsConnected) && !(e == Report(IsReconnecting) && c.state == Connected)
  }
}
