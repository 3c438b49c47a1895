/**
 * The handlers of a connection, which update it in place, and the loops of the main window over all connections. A handler
 * that is called for an event keeps the connection safe and takes the step of the machine for that event.
 */
module Connections {
  import opened Lifecycle
  import opened Transitions

  class Connection {
    const persistent: bool
    const alwaysAttach: bool
    var locked: bool
    var state: State
    var autoConnect: bool
    var waitUnlock: bool
    var manage: Manage
    var daemon: Daemon
    var view: View
    var log: Log

    ghost function Model(): Conn
      reads this
    {
      Conn(persistent, alwaysAttach, locked, state, autoConnect, waitUnlock, manage, daemon, view, log)
    }

    /** What every event keeps, and what makes a connection lawful. */
    ghost predicate Valid()
      reads this
    {
      Safe(Model())
    }

    constructor (persistent: bool, alwaysAttach: bool, autoConnect: bool)
      ensures Valid() && Model() == Added(persistent, alwaysAttach, autoConnect)
    {
      this.persistent, this.alwaysAttach, this.autoConnect := persistent, alwaysAttach, autoConnect;
      locked, state, waitUnlock := false, Disconnected, false;
      manage, daemon := Manage(false, 0), Daemon(false, false, false);
      view, log := View(NoWindow, false, false, false, []), Log([], []);
      new;
      AddedSafe(persistent, alwaysAttach, autoConnect);
    }

    method PostMessage(m: Message)
      modifies `view
      ensures Model() == Post(old(Model()), m)
      ensures old(Valid()) && (m == Detach ==> persistent) ==> Valid()
    {
      hide Safe;
      if Valid() && (m == Detach ==> persistent) { PostSafe(Model(), m); }
      if view.window == Open {
        view := view.(posted := view.posted + [m]);
      }
    }

    method SendClose()
      modifies `view
      ensures Model() == CloseWindow(old(Model()))
      ensures old(Valid()) ==> Valid()
    {
      hide Safe;
      if Valid() { LockSafe(Model()); }
      if (state == Disconnected || state == Detached) && view.window == Open {
        view := view.(window := Closing, posted := [], stopTimer := false);
      }
    }

    method CloseSocket()
      modifies `manage
      ensures Model() == CloseManagement(old(Model()))
    {
      if manage.socket {
        manage := manage.(socket := false, inputLevel := 0);
      }
    }

    /** The connection is over; `disable` is for states in which the buttons are disabled with it. */
    method End(disable: bool, keepAuto: bool)
      modifies `state, `autoConnect, `view
      ensures Model() == Ended(old(Model()), disable, keepAuto)
    {
      hide CloseWindow;
      state := Disconnected;
      if disable {
        view := view.(canStop := false, canRestart := false);
      }
      if !keepAuto {
        autoConnect := false;
      }
      SendClose();
    }

    /** The end of a live connection closes its window, in whatever state its handler has put it before. */
    method Stopped()
      modifies this
      ensures Model() == OnStop(old(Model()))
      ensures old(Steady(Model()) && !Idle(state)) ==> Valid() && view.window == Closing
    {
      hide Ended, Safe, Steady;
      if Steady(Model()) && !Idle(state) { OnStopSafe(Model()); }
      match state
      case Connected => End(true, true);
      case Resuming | Connecting | Reconnecting => End(true, true);
      case Disconnecting => End(false, !persistent);
      case OnHold | Detaching => End(false, true);
      case Suspending => state := Suspended;
      case _ =>
    }

    method Send(commands: seq<Command>)
      modifies `log
      ensures Model() == Queue(old(Model()), commands)
    {
      log := log.(commands := log.commands + commands);
    }

    method Signal()
      modifies `log
      ensures Model() == SignalExit(old(Model()))
    {
      if daemon.exitEvent {
        log := log.(marks := log.marks + [ExitSignalled]);
      }
    }

    method Disconnect()
      modifies this
      ensures Model() == DisconnectDaemon(old(Model()))
    {
      if persistent {
        if manage.inputLevel > 1 {
          Send([ForgetPasswords, HoldOn, SignalHup]);
        } else {
          Stopped();
        }
      } else {
        Signal();
        view := view.(stopTimer := true);
      }
    }

    /** HOLD: the hold of a persistent daemon is kept while disconnecting or attaching, and released otherwise. */
    method HoldReported()
      requires Valid() && view.window == Open
      modifies this
      ensures Valid() && Model() == OnHoldReport(old(Model()))
    {
      hide Safe, Queue;
      HoldSafe(Model());
      view := view.(canRestart := true);
      if persistent && (state == Disconnecting || state == Resuming) {
        state := OnHold;
        view := view.(canStop := false);
        return;
      }
      view := view.(canStop := true);
      Send([HoldOff, HoldRelease]);
    }

    method StopRequested()
      requires Valid() && view.window == Open
      modifies this
      ensures Valid() && Model() == OnStopMessage(old(Model()))
    {
      hide Safe, Steady, OnStop, SignalExit;
      StopMessageSafe(Model());
      if !view.canStop || state == OnHold {
        return;
      }
      state := Disconnecting;
      view := view.(canStop := false, canRestart := false);
      Disconnect();
    }

    method DetachRequested()
      requires Valid() && view.window == Open && persistent
      modifies this
      ensures Valid() && Model() == OnDetachMessage(old(Model()))
    {
      hide Safe, Steady, OnStop;
      DetachSafe(Model());
      state := Detaching;
      log := log.(marks := log.marks + [DetachEntered]);
      view := view.(canStop := false, canRestart := false);
      Stopped();
    }

    method RestartRequested()
      requires Valid() && view.window == Open
      modifies this
      ensures Valid() && Model() == OnRestartMessage(old(Model()))
    {
      hide Safe;
      RestartSafe(Model());
      if view.canRestart {
        state := Reconnecting;
        Send([SignalHup]);
      }
    }

    method ReleaseRequested()
      requires Valid() && view.window == Open
      modifies this
      ensures Valid() && Model() == OnReleaseMessage(old(Model()))
    {
      hide Safe, OnHoldReport;
      ReconnectingSafe(Model());
      state := Reconnecting;
      HoldReported();
    }

    /** The next message of the window's queue. */
    method DispatchMessage()
      requires Valid() && Enabled(Model(), Message)
      modifies this
      ensures Valid() && Model() == Next(old(Model()), Message)
    {
      hide Safe, OnStopMessage, OnDetachMessage, OnRestartMessage, OnReleaseMessage;
      TakenSafe(Model());
      var m := view.posted[0];
      view := view.(posted := view.posted[1..]);
      match m
      case Stop => StopRequested();
      case Detach => DetachRequested();
      case Restart => RestartRequested();
      case Release => ReleaseRequested();
    }

    /** The daemon has not stopped in time: it is terminated, if it still runs. */
    method TimerExpired(active: bool)
      requires Valid() && Enabled(Model(), Timer(active))
      modifies this
      ensures Valid() && Model() == Next(old(Model()), Timer(active))
    {
      hide Safe, Steady, OnStop;
      StepSafe(Model(), Timer(active));
      if daemon.process && active {
        log := log.(marks := log.marks + [Terminated]);
      }
      view := view.(stopTimer := false);
      Stopped();
    }

    method BannerReceived()
      requires Valid() && Enabled(Model(), Banner)
      modifies this
      ensures Valid() && Model() == Next(old(Model()), Banner)
    {
      hide Safe;
      StepSafe(Model(), Banner);
      manage := manage.(inputLevel := 2);
      Send([StateOn, LogOnAll, EchoOnAll, ByteCountFive, AskState]);
      if persistent && alwaysAttach {
        autoConnect := true;
      }
      log := log.(marks := log.marks + [Ready]);
    }

    method StateReported(r: Report)
      requires Valid() && Enabled(Model(), Report(r))
      modifies `state
      ensures Valid() && Model() == Next(old(Model()), Report(r))
    {
      hide Safe;
      StepSafe(Model(), Report(r));
      match r
      case IsConnected => state := Connected;
      case IsReconnecting =>
        if state == Connected {
          state := Reconnecting;
        }
      case _ =>
    }

    method OpenSocket(ok: bool)
      modifies `manage, `view
      ensures Model() == OpenManagement(old(Model()), ok)
    {
      if ok {
        manage := manage.(socket := true, inputLevel := 0);
      } else {
        PostMessage(Stop);
      }
    }

    method ConnectFailed(expired: bool, ok: bool)
      requires Valid() && Enabled(Model(), ConnectError(expired, ok))
      modifies this
      ensures Valid() && Model() == Next(old(Model()), ConnectError(expired, ok))
    {
      hide Safe, Post;
      StepSafe(Model(), ConnectError(expired, ok));
      if persistent || !expired {
        return;
      }
      CloseSocket();
      if state != Disconnected {
        state := Connecting;
        OpenSocket(ok);
      }
    }

    method ConnectedTo(valid: bool)
      requires Valid() && Enabled(Model(), Connect(valid))
      modifies this
      ensures Valid() && Model() == Next(old(Model()), Connect(valid))
    {
      hide Safe, Post;
      StepSafe(Model(), Connect(valid));
      manage := manage.(inputLevel := 1);
      if !valid {
        CloseSocket();
        PostMessage(Stop);
      }
    }

    /** Starts the status thread, and the daemon unless it is persistent, which runs already. */
    method Start(how: Launch)
      requires Valid()
      modifies this
      ensures Valid() && Model() == Next(old(Model()), UserStart(how))
    {
      hide Safe;
      StepSafe(Model(), UserStart(how));
      if view.window == Open || view.window == Closing {
        if state == OnHold {
          PostMessage(Release);
        }
        return;
      }
      if state != Disconnected && state != Detached {
        return;
      }
      if how == Failed {
        if persistent {
          state := Disconnected;
        }
        return;
      }
      daemon := if persistent then Daemon(false, false, false) else Daemon(true, how == Directly, how == ByService);
      state := if state == Suspended || state == Detached then Resuming else Connecting;
      view := view.(window := Starting);
    }

    method CleanUp()
      modifies this
      ensures Model() == Cleanup(old(Model()))
    {
      CloseSocket();
      daemon := Daemon(false, false, false);
    }

    method ThreadBegins(windowOk: bool, managementOk: bool)
      requires Valid() && Enabled(Model(), ThreadStart(windowOk, managementOk))
      modifies this
      ensures Valid() && Model() == Next(old(Model()), ThreadStart(windowOk, managementOk))
    {
      hide Safe;
      StepSafe(Model(), ThreadStart(windowOk, managementOk));
      if !windowOk {
        Signal();
        CleanUp();
        state, view := Disconnected, view.(window := NoWindow);
        return;
      }
      view := View(Open, true, true, view.stopTimer, []);
      OpenSocket(managementOk);
    }

    method DetachFrom()
      modifies `autoConnect, `view
      ensures Model() == DetachOpenVPN(old(Model()))
      ensures old(Valid()) ==> Valid()
    {
      hide Safe, Post;
      if Valid() { PostSafe(Model(), Stop); }
      if persistent {
        autoConnect := false;
        PostMessage(Detach);
      }
    }

    method LockSession()
      requires Valid()
      modifies this
      ensures Valid() && Model() == Next(old(Model()), Lock)
    {
      hide Safe, Post;
      StepSafe(Model(), Lock);
      locked := true;
      if persistent && state != Disconnected && state != Detached {
        autoConnect := false;
        DetachFrom();
        waitUnlock := true;
      }
    }

    method UnlockSession()
      requires Valid()
      modifies this
      ensures Valid() && Model() == Next(old(Model()), Unlock)
    {
      hide Safe;
      StepSafe(Model(), Unlock);
      locked := false;
      if waitUnlock {
        autoConnect := true;
        waitUnlock := false;
        log := log.(marks := log.marks + [Unlocked]);
      }
    }

    method StopIfActive()
      requires Valid()
      modifies this
      ensures Valid() && Model() == Next(old(Model()), AllStop)
    {
      hide Safe, Post;
      StepSafe(Model(), AllStop);
      if state != Disconnected && state != Detached {
        if persistent {
          DetachFrom();
        } else {
          PostMessage(Stop);
        }
      }
    }

    method AttachIfDue(how: Launch)
      requires Valid() && !locked
      modifies this
      ensures Valid() && Model() == Next(old(Model()), Tick(how))
    {
      hide Safe, StartOpenVPN;
      StepSafe(Model(), Tick(how));
      hide StartOpenVPN;
      if persistent && autoConnect && (state == Disconnected || state == Detached) {
        AttachedSafe(Model());
        autoConnect := false;
        state := Detached;
        log := log.(marks := log.marks + [Attached]);
        Start(how);
      }
    }

    method RestartIt(how: Launch)
      requires Valid()
      modifies this
      ensures Valid() && Model() == Next(old(Model()), UserRestart(how))
    {
      hide Safe, Post, StartOpenVPN;
      StepSafe(Model(), UserRestart(how));
      if state == OnHold {
        PostMessage(Release);
      } else if view.window == Open || view.window == Closing {
        PostMessage(Restart);
      } else {
        Start(how);
      }
    }

    /** The status thread is over. */
    method ThreadFinishes()
      requires Valid() && Enabled(Model(), ThreadEnd)
      modifies this
      ensures Valid() && Model() == Next(old(Model()), ThreadEnd)
    {
      hide Safe;
      StepSafe(Model(), ThreadEnd);
      CleanUp();
      view := view.(window := NoWindow);
    }

    method SocketLost()
      requires Valid() && Enabled(Model(), SocketClosed)
      modifies this
      ensures Valid() && Model() == Next(old(Model()), SocketClosed)
    {
      hide Safe, Steady, OnStop;
      StepSafe(Model(), SocketClosed);
      CloseSocket();
      Stopped();
    }

    method PasswordRefused()
      requires Valid() && Enabled(Model(), PasswordMismatch)
      modifies this
      ensures Valid() && Model() == Next(old(Model()), PasswordMismatch)
    {
      hide Safe, Steady, OnStop;
      StepSafe(Model(), PasswordMismatch);
      state := Disconnecting;
      CloseSocket();
      Stopped();
    }

    /** The service has told the process of the daemon. */
    method ProcessKnown()
      requires Valid() && Enabled(Model(), ServiceProcess)
      modifies this
      ensures Valid() && Model() == Next(old(Model()), ServiceProcess)
    {
      hide Safe;
      StepSafe(Model(), ServiceProcess);
      daemon := daemon.(process := true);
    }

    method ExitReported()
      requires Valid() && Enabled(Model(), ExitSeen)
      modifies this
      ensures Valid() && Model() == Next(old(Model()), ExitSeen)
    {
      hide Safe, Steady, OnStop;
      StepSafe(Model(), ExitSeen);
      Stopped();
    }

    /** The handler of each event: its outcome is what the tables say of each field. */
    method Handle(e: Event)
      requires Valid() && Enabled(Model(), e)
      modifies this
      ensures Valid() && Model() == Next(old(Model()), e) == Outcome(old(Model()), e)
    {
      hide Safe, CloseWindow, Post, DetachOpenVPN, OnHoldReport, Outcome;
      StepOutcome(Model(), e);
      match e
      case UserStart(how) => Start(how);
      case UserStop => PostMessage(Stop);
      case UserRestart(how) => RestartIt(how);
      case UserDetach => DetachFrom();
      case UserClose => SendClose();
      case Tick(how) => AttachIfDue(how);
      case Lock => LockSession();
      case Unlock => UnlockSession();
      case AllStop => StopIfActive();
      case ThreadStart(windowOk, managementOk) => ThreadBegins(windowOk, managementOk);
      case ThreadEnd => ThreadFinishes();
      case Message => DispatchMessage();
      case Timer(active) => TimerExpired(active);
      case ConnectError(expired, ok) => ConnectFailed(expired, ok);
      case Connect(valid) => ConnectedTo(valid);
      case Banner => BannerReceived();
      case Hold => HoldReported();
      case Report(report) => StateReported(report);
      case SocketClosed => SocketLost();
      case PasswordMismatch => PasswordRefused();
      case ServiceProcess => ProcessKnown();
      case ExitSeen => ExitReported();
    }

    /** Whatever events come, the connection ends where the machine does, and it is lawful there. */
    method HandleAll(es: seq<Event>)
      requires Valid() && Run(Model(), es)
      modifies this
      ensures Valid() && Model() == After(old(Model()), es) && Lawful(Model())
    {
      hide Safe, Enabled, Next, Lawful;
      for i := 0 to |es|
        invariant Valid() && Run(Model(), es[i..]) && After(Model(), es[i..]) == After(old(Model()), es)
      {
        assert es[i..][0] == es[i] && es[i..][1..] == es[i + 1..];
        Handle(es[i]);
      }
      SafeIsLawful(Model());
    }
  }

  ghost predicate AllDistinct(cs: seq<Connection>) {
    forall i, j :: 0 <= i < j < |cs| ==> cs[i] != cs[j]
  }

  /** Every ten seconds, while the service is connected: persistent connections that are to be attached are attached. */
  method ManageAll(cs: seq<Connection>, serviceConnected: bool, how: seq<Launch>)
    requires AllDistinct(cs) && |how| == |cs|
    requires forall i :: 0 <= i < |cs| ==> cs[i].Valid() && !cs[i].locked
    modifies cs
    ensures forall i :: 0 <= i < |cs| ==> cs[i].Valid()
    ensures forall i :: 0 <= i < |cs| ==>
              cs[i].Model() == if serviceConnected then Next(old(cs[i].Model()), Tick(how[i])) else old(cs[i].Model())
  {
    hide Safe, Next;
    if serviceConnected {
      for i := 0 to |cs|
        invariant forall j :: i <= j < |cs| ==> cs[j].Valid() && !cs[j].locked && cs[j].Model() == old(cs[j].Model())
        invariant forall j :: 0 <= j < i ==> cs[j].Valid() && cs[j].Model() == Next(old(cs[j].Model()), Tick(how[j]))
      {
        cs[i].AttachIfDue(how[i]);
      }
    }
  }

  /** Persistent connections are detached, so that another user can attach to them. */
  method LockAll(cs: seq<Connection>)
    requires AllDistinct(cs) && forall i :: 0 <= i < |cs| ==> cs[i].Valid()
    modifies cs
    ensures forall i :: 0 <= i < |cs| ==> cs[i].Valid() && cs[i].Model() == Next(old(cs[i].Model()), Lock)
  {
    hide Safe, Next;
    for i := 0 to |cs|
      invariant forall j :: i <= j < |cs| ==> cs[j].Valid() && cs[j].Model() == old(cs[j].Model())
      invariant forall j :: 0 <= j < i ==> cs[j].Valid() && cs[j].Model() == Next(old(cs[j].Model()), Lock)
    {
      cs[i].LockSession();
    }
  }

  /** What the lock has detached is to be attached again. */
  method UnlockAll(cs: seq<Connection>)
    requires AllDistinct(cs) && forall i :: 0 <= i < |cs| ==> cs[i].Valid()
    modifies cs
    ensures forall i :: 0 <= i < |cs| ==> cs[i].Valid() && cs[i].Model() == Next(old(cs[i].Model()), Unlock)
  {
    hide Safe, Next;
    for i := 0 to |cs|
      invariant forall j :: i <= j < |cs| ==> cs[j].Valid() && cs[j].Model() == old(cs[j].Model())
      invariant forall j :: 0 <= j < i ==> cs[j].Valid() && cs[j].Model() == Next(old(cs[j].Model()), Unlock)
    {
      cs[i].UnlockSession();
    }
  }

  /** Daemons of ours are stopped; persistent ones are left in their state. */
  method StopAllConnections(cs: seq<Connection>)
    requires AllDistinct(cs) && forall i :: 0 <= i < |cs| ==> cs[i].Valid()
    modifies cs
    ensures forall i :: 0 <= i < |cs| ==> cs[i].Valid() && cs[i].Model() == Next(old(cs[i].Model()), AllStop)
  {
    hide Safe, Next;
    for i := 0 to |cs|
      invariant forall j :: i <= j < |cs| ==> cs[j].Valid() && cs[j].Model() == old(cs[j].Model())
      invariant forall j :: 0 <= j < i ==> cs[j].Valid() && cs[j].Model() == Next(old(cs[j].Model()), AllStop)
    {
      cs[i].StopIfActive();
    }
  }
}
