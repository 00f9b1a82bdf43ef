/**
 * The Lurker object's life cycle (class Lurker and Lurker::Impl in
 * src/Lurker.cpp): configuring, initiating log-in and log-out, the
 * messaging interface's LogIn and LogOut callbacks, the worker thread's
 * start and stop guards, and the content callbacks that publish lines.
 * `State` is the object's abstract value; each operation is a function on
 * it, and class `Lurker` carries the same fields and performs the same
 * steps in place.
 */
module Session {
  import opened Text
  import opened Events
  import opened Formatter

  /** What Lurker asks of the Twitch messaging interface (`tmi`). */
  datatype Command =
    | LogInAnonymously
    | JoinChannel(channel: string)
    | LogOutWith(farewell: string)

  /** The farewell InitiateLogOut sends. */
  const FAREWELL: string := "Bye! BibleThump"

  const CONFIGURED: Diagnostic := Diagnostic(3, "Configured.")
  const LOGGED_IN: Diagnostic := Diagnostic(1, "Logged in.")
  const LOGGED_OUT: Diagnostic := Diagnostic(1, "Logged out.")
  const EXITING: Diagnostic := Diagnostic(3, "Exiting...")

  /** A call the messaging interface makes on Lurker. */
  datatype Callback =
    | LogInCallback
    | LogOutCallback
    | Delivered(event: Event)

  predicate CallbackWellFormed(cb: Callback) {
    cb.Delivered? ==> EventWellFormed(cb.event)
  }

  /**
   * Lurker's state: the channels to join, the loggedOut and stopWorker
   * flags, whether the worker thread is running (`workerThread.joinable()`),
   * the diagnostics published so far and the commands sent so far.
   */
  datatype State = State(
    channelsToJoin: seq<string>,
    loggedOut: bool,
    stopWorker: bool,
    workerRunning: bool,
    diagnostics: seq<Diagnostic>,
    commands: seq<Command>)

  /** A freshly constructed Lurker. */
  const INITIAL: State := State([], false, false, false, [], [])

  /** The number of occurrences of `x` in `s`. */
  function Count<T(==)>(s: seq<T>, x: T): nat {
    if s == [] then 0 else (if s[0] == x then 1 else 0) + Count(s[1..], x)
  }

  lemma {:induction false} CountAppend<T>(a: seq<T>, b: seq<T>, x: T)
    ensures Count(a + b, x) == Count(a, x) + Count(b, x)
  {
    if a == [] {
      assert a + b == b;
    } else {
      assert (a + b)[1..] == a[1..] + b;
      CountAppend(a[1..], b, x);
    }
  }

  /** The Join commands LogIn sends: one per channel, in the channels' order. */
  function JoinCommands(channels: seq<string>): (r: seq<Command>)
    ensures |r| == |channels|
    ensures forall i :: 0 <= i < |channels| ==> r[i] == JoinChannel(channels[i])
  {
    if channels == [] then [] else [JoinChannel(channels[0])] + JoinCommands(channels[1..])
  }

  /** Joining one more channel adds its Join command at the end. */
  lemma JoinCommandsSnoc(channels: seq<string>, channel: string)
    ensures JoinCommands(channels + [channel]) == JoinCommands(channels) + [JoinChannel(channel)]
  {
    var r := JoinCommands(channels + [channel]);
    assert forall i :: 0 <= i < |channels| ==> (channels + [channel])[i] == channels[i];
    assert r[|channels|] == JoinChannel((channels + [channel])[|channels|]);
  }

  /** Join commands are never log-out commands. */
  lemma {:induction false} JoinCommandsSendNoLogOut(channels: seq<string>, farewell: string)
    ensures Count(JoinCommands(channels), LogOutWith(farewell)) == 0
  {
    if channels != [] {
      JoinCommandsSendNoLogOut(channels[1..], farewell);
    }
  }

  // ---------------------------------------------------------------------
  // The operations, on the abstract state.

  /** StartWorker: start the worker thread unless it is already running. */
  function WorkerStarted(s: State): State {
    if s.workerRunning then s else s.(stopWorker := false, workerRunning := true)
  }

  /** StopWorker: if the worker runs, set stopWorker and wait for the thread to end. */
  function WorkerStopped(s: State): State {
    if !s.workerRunning then s else s.(stopWorker := true, workerRunning := false)
  }

  /** Configure: the diagnostics wiring is outside the model; it announces "Configured." */
  function Configured(s: State): State {
    s.(diagnostics := s.diagnostics + [CONFIGURED])
  }

  /** InitiateLogIn: remember the channels, then ask for an anonymous log-in. */
  function LogInInitiated(s: State, channels: seq<string>): State {
    s.(channelsToJoin := channels, commands := s.commands + [LogInAnonymously])
  }

  /** InitiateLogOut: announce "Exiting..." and ask to log out with the farewell. */
  function LogOutInitiated(s: State): State {
    s.(diagnostics := s.diagnostics + [EXITING], commands := s.commands + [LogOutWith(FAREWELL)])
  }

  /** The LogIn callback: announce it, join every channel in order, start the worker. */
  function LoggedIn(s: State): State {
    WorkerStarted(s.(diagnostics := s.diagnostics + [LOGGED_IN],
                     commands := s.commands + JoinCommands(s.channelsToJoin)))
  }

  /** The LogOut callback: ignored once logged out; else stop the worker, announce it, latch loggedOut. */
  function LoggedOut(s: State): State {
    if s.loggedOut then s
    else WorkerStopped(s).(diagnostics := WorkerStopped(s).diagnostics + [LOGGED_OUT], loggedOut := true)
  }

  /** A content callback: publish the event's line. */
  function Reported(s: State, e: Event, clock: int -> ClockText): State
    requires EventWellFormed(e)
  {
    FormatDefined(e, clock);
    s.(diagnostics := s.diagnostics + [Format(e, clock).value])
  }

  function Handled(s: State, cb: Callback, clock: int -> ClockText): State
    requires CallbackWellFormed(cb)
  {
    match cb
    case LogInCallback => LoggedIn(s)
    case LogOutCallback => LoggedOut(s)
    case Delivered(e) => Reported(s, e, clock)
  }

  /** The callbacks `cbs`, in order. */
  function HandledAll(s: State, cbs: seq<Callback>, clock: int -> ClockText): State
    requires forall i :: 0 <= i < |cbs| ==> CallbackWellFormed(cbs[i])
    decreases |cbs|
  {
    if cbs == [] then s else HandledAll(Handled(s, cbs[0], clock), cbs[1..], clock)
  }

  // ---------------------------------------------------------------------
  // What the operations guarantee.

  /**
   * Lurker's invariant: a running worker has not been told to stop, and
   * "Logged out." has been published once if loggedOut is set and never
   * otherwise.
   */
  predicate Valid(s: State) {
    && (s.workerRunning ==> !s.stopWorker)
    && Count(s.diagnostics, LOGGED_OUT) == (if s.loggedOut then 1 else 0)
  }

  lemma InitialValid()
    ensures Valid(INITIAL)
  {
  }

  /**
   * StartWorker's guard: a running worker is left alone; otherwise the
   * worker is started with stopWorker cleared.  Starting twice is starting once.
   */
  lemma StartWorkerGuard(s: State)
    ensures WorkerStarted(s).workerRunning
    ensures s.workerRunning ==> WorkerStarted(s) == s
    ensures !s.workerRunning ==> !WorkerStarted(s).stopWorker
    ensures WorkerStarted(WorkerStarted(s)) == WorkerStarted(s)
    ensures WorkerStarted(s).(stopWorker := s.stopWorker, workerRunning := s.workerRunning) == s
  {
  }

  /**
   * StopWorker's guard: a stopped worker is left alone; otherwise
   * stopWorker is set and the thread has ended.  Stopping twice is stopping once.
   */
  lemma StopWorkerGuard(s: State)
    ensures !WorkerStopped(s).workerRunning
    ensures !s.workerRunning ==> WorkerStopped(s) == s
    ensures s.workerRunning ==> WorkerStopped(s).stopWorker
    ensures WorkerStopped(WorkerStopped(s)) == WorkerStopped(s)
    ensures WorkerStopped(s).(stopWorker := s.stopWorker, workerRunning := s.workerRunning) == s
  {
  }

  /**
   * The LogIn callback publishes "Logged in.", then sends one Join per
   * channel to join, in order and nothing else, and leaves the worker running.
   */
  lemma LogInJoinsInOrder(s: State)
    ensures LoggedIn(s).diagnostics == s.diagnostics + [LOGGED_IN]
    ensures |LoggedIn(s).commands| == |s.commands| + |s.channelsToJoin|
    ensures LoggedIn(s).commands[..|s.commands|] == s.commands
    ensures forall i :: 0 <= i < |s.channelsToJoin| ==>
      LoggedIn(s).commands[|s.commands| + i] == JoinChannel(s.channelsToJoin[i])
    ensures LoggedIn(s).workerRunning
    ensures Valid(s) ==> !LoggedIn(s).stopWorker
    ensures LoggedIn(s).loggedOut == s.loggedOut && LoggedIn(s).channelsToJoin == s.channelsToJoin
  {
    var t := s.(diagnostics := s.diagnostics + [LOGGED_IN], commands := s.commands + JoinCommands(s.channelsToJoin));
    StartWorkerGuard(t);
    assert LoggedIn(s).commands == s.commands + JoinCommands(s.channelsToJoin);
  }

  /**
   * The LogOut callback latches loggedOut and leaves the worker stopped; it
   * publishes "Logged out." the first time only, and a second LogOut changes nothing.
   */
  lemma LogOutIdempotent(s: State)
    ensures LoggedOut(s).loggedOut && (!s.loggedOut ==> !LoggedOut(s).workerRunning)
    ensures s.loggedOut ==> LoggedOut(s) == s
    ensures !s.loggedOut ==> LoggedOut(s).diagnostics == s.diagnostics + [LOGGED_OUT]
    ensures LoggedOut(LoggedOut(s)) == LoggedOut(s)
    ensures LoggedOut(s).commands == s.commands && LoggedOut(s).channelsToJoin == s.channelsToJoin
  {
    StopWorkerGuard(s);
  }

  /** No content line reads like one of Lurker's life-cycle announcements. */
  lemma EventLineIsNotLifecycle(e: Event, clock: int -> ClockText)
    requires EventWellFormed(e)
    ensures Format(e, clock).Some?
    ensures Format(e, clock).value !in {LOGGED_IN, LOGGED_OUT, EXITING, CONFIGURED}
  {
    LineOpening(e, clock);
    var text := Format(e, clock).value.text;
    if e.Doom? || e.Notice? {
      assert text[..3] == "** ";
      assert text[0] == '*';
    }
    assert text[0] == '[' || text[0] == '*';
  }

  /** Every callback keeps the invariant. */
  lemma HandledValid(s: State, cb: Callback, clock: int -> ClockText)
    requires Valid(s) && CallbackWellFormed(cb)
    ensures Valid(Handled(s, cb, clock))
  {
    match cb
    case LogInCallback =>
      CountAppend(s.diagnostics, [LOGGED_IN], LOGGED_OUT);
      StartWorkerGuard(s.(diagnostics := s.diagnostics + [LOGGED_IN],
                          commands := s.commands + JoinCommands(s.channelsToJoin)));
    case LogOutCallback =>
      if !s.loggedOut {
        StopWorkerGuard(s);
        CountAppend(s.diagnostics, [LOGGED_OUT], LOGGED_OUT);
      }
    case Delivered(e) =>
      EventLineIsNotLifecycle(e, clock);
      CountAppend(s.diagnostics, [Format(e, clock).value], LOGGED_OUT);
  }

  /** The main thread's own steps keep the invariant too. */
  lemma MainStepsValid(s: State, channels: seq<string>)
    requires Valid(s)
    ensures Valid(Configured(s)) && Valid(LogInInitiated(s, channels)) && Valid(LogOutInitiated(s))
  {
    CountAppend(s.diagnostics, [CONFIGURED], LOGGED_OUT);
    CountAppend(s.diagnostics, [EXITING], LOGGED_OUT);
  }

  /**
   * However the messaging interface interleaves its callbacks, "Logged out."
   * is published at most once, and exactly once when loggedOut ends up set.
   */
  lemma {:induction false} LoggedOutAnnouncedOnce(s: State, cbs: seq<Callback>, clock: int -> ClockText)
    requires Valid(s)
    requires forall i :: 0 <= i < |cbs| ==> CallbackWellFormed(cbs[i])
    ensures Valid(HandledAll(s, cbs, clock))
    ensures Count(HandledAll(s, cbs, clock).diagnostics, LOGGED_OUT) <= 1
    ensures s.loggedOut ==> HandledAll(s, cbs, clock).loggedOut
    decreases |cbs|
  {
    if cbs != [] {
      HandledValid(s, cbs[0], clock);
      assert s.loggedOut ==> Handled(s, cbs[0], clock).loggedOut by {
        if cbs[0].LogInCallback? {
          LogInJoinsInOrder(s);
        }
      }
      LoggedOutAnnouncedOnce(Handled(s, cbs[0], clock), cbs[1..], clock);
    }
  }

  /** Callbacks never ask the messaging interface to log out: only InitiateLogOut does. */
  lemma {:induction false} CallbacksSendNoLogOut(s: State, cbs: seq<Callback>, clock: int -> ClockText, farewell: string)
    requires forall i :: 0 <= i < |cbs| ==> CallbackWellFormed(cbs[i])
    ensures Count(HandledAll(s, cbs, clock).commands, LogOutWith(farewell))
         == Count(s.commands, LogOutWith(farewell))
    decreases |cbs|
  {
    if cbs != [] {
      var t := Handled(s, cbs[0], clock);
      assert Count(t.commands, LogOutWith(farewell)) == Count(s.commands, LogOutWith(farewell)) by {
        if cbs[0].LogInCallback? {
          LogInJoinsInOrder(s);
          CountAppend(s.commands, JoinCommands(s.channelsToJoin), LogOutWith(farewell));
          JoinCommandsSendNoLogOut(s.channelsToJoin, farewell);
        } else if cbs[0].LogOutCallback? {
          LogOutIdempotent(s);
        }
      }
      CallbacksSendNoLogOut(t, cbs[1..], clock, farewell);
    }
  }

  /** Handling `a` and then `b` is handling `a + b`. */
  lemma {:induction false} HandledAllAppend(s: State, a: seq<Callback>, b: seq<Callback>, clock: int -> ClockText)
    requires forall i :: 0 <= i < |a| ==> CallbackWellFormed(a[i])
    requires forall i :: 0 <= i < |b| ==> CallbackWellFormed(b[i])
    ensures forall i :: 0 <= i < |a + b| ==> CallbackWellFormed((a + b)[i])
    ensures HandledAll(s, a + b, clock) == HandledAll(HandledAll(s, a, clock), b, clock)
    decreases |a|
  {
    assert forall i :: 0 <= i < |a + b| ==> (a + b)[i] == (if i < |a| then a[i] else b[i - |a|]);
    if a != [] {
      assert (a + b)[0] == a[0] && (a + b)[1..] == a[1..] + b;
      HandledAllAppend(Handled(s, a[0], clock), a[1..], b, clock);
    } else {
      assert a + b == b;
    }
  }

  /** Without a LogOut callback, a Lurker that has not logged out still has not. */
  lemma {:induction false} NoLogOutStaysLoggedIn(s: State, cbs: seq<Callback>, clock: int -> ClockText)
    requires forall i :: 0 <= i < |cbs| ==> CallbackWellFormed(cbs[i])
    requires !s.loggedOut && LogOutCallback !in cbs
    ensures !HandledAll(s, cbs, clock).loggedOut
    decreases |cbs|
  {
    if cbs != [] {
      assert cbs[0] != LogOutCallback && LogOutCallback !in cbs[1..];
      if cbs[0].LogInCallback? {
        LogInJoinsInOrder(s);
      }
      NoLogOutStaysLoggedIn(Handled(s, cbs[0], clock), cbs[1..], clock);
    }
  }

  /** Without a LogIn callback, a stopped worker thread stays stopped. */
  lemma {:induction false} NoLogInKeepsWorkerStopped(s: State, cbs: seq<Callback>, clock: int -> ClockText)
    requires forall i :: 0 <= i < |cbs| ==> CallbackWellFormed(cbs[i])
    requires !s.workerRunning && LogInCallback !in cbs
    ensures !HandledAll(s, cbs, clock).workerRunning
    decreases |cbs|
  {
    if cbs != [] {
      assert cbs[0] != LogInCallback && LogInCallback !in cbs[1..];
      if cbs[0].LogOutCallback? {
        LogOutIdempotent(s);
      }
      NoLogInKeepsWorkerStopped(Handled(s, cbs[0], clock), cbs[1..], clock);
    }
  }

  /** Without a LogOut callback, a running worker thread stays running. */
  lemma {:induction false} NoLogOutKeepsWorkerRunning(s: State, cbs: seq<Callback>, clock: int -> ClockText)
    requires forall i :: 0 <= i < |cbs| ==> CallbackWellFormed(cbs[i])
    requires s.workerRunning && LogOutCallback !in cbs
    ensures HandledAll(s, cbs, clock).workerRunning
    decreases |cbs|
  {
    if cbs != [] {
      assert cbs[0] != LogOutCallback && LogOutCallback !in cbs[1..];
      if cbs[0].LogInCallback? {
        LogInJoinsInOrder(s);
      }
      NoLogOutKeepsWorkerRunning(Handled(s, cbs[0], clock), cbs[1..], clock);
    }
  }

  /** A LogIn callback with no LogOut callback anywhere leaves the worker thread running. */
  lemma {:induction false} LogInStartsWorker(s: State, cbs: seq<Callback>, clock: int -> ClockText)
    requires forall i :: 0 <= i < |cbs| ==> CallbackWellFormed(cbs[i])
    requires LogInCallback in cbs && LogOutCallback !in cbs
    ensures HandledAll(s, cbs, clock).workerRunning
    decreases |cbs|
  {
    assert cbs[0] != LogOutCallback && LogOutCallback !in cbs[1..];
    if cbs[0] == LogInCallback {
      LogInJoinsInOrder(s);
      NoLogOutKeepsWorkerRunning(LoggedIn(s), cbs[1..], clock);
    } else {
      assert LogInCallback in cbs[1..];
      LogInStartsWorker(Handled(s, cbs[0], clock), cbs[1..], clock);
    }
  }

  // ---------------------------------------------------------------------
  // The object.

  /** class Lurker together with its Lurker::Impl, as the main thread and the callbacks see it. */
  class Lurker {
    /** The local-time clock FormatTimestamp consults. */
    const clock: int -> ClockText
    var channelsToJoin: seq<string>
    var loggedOut: bool
    var stopWorker: bool
    var workerRunning: bool
    var diagnostics: seq<Diagnostic>
    var commands: seq<Command>

    function Abstract(): State
      reads this
    {
      State(channelsToJoin, loggedOut, stopWorker, workerRunning, diagnostics, commands)
    }

    constructor (clock: int -> ClockText)
      ensures this.clock == clock && Abstract() == INITIAL
    {
      this.clock := clock;
      channelsToJoin := [];
      loggedOut := false;
      stopWorker := false;
      workerRunning := false;
      diagnostics := [];
      commands := [];
    }

    method Configure()
      modifies this
      ensures Abstract() == Configured(old(Abstract()))
    {
      diagnostics := diagnostics + [CONFIGURED];
    }

    method InitiateLogIn(channels: seq<string>)
      modifies this
      ensures Abstract() == LogInInitiated(old(Abstract()), channels)
    {
      channelsToJoin := channels;
      commands := commands + [LogInAnonymously];
    }

    method InitiateLogOut()
      modifies this
      ensures Abstract() == LogOutInitiated(old(Abstract()))
    {
      diagnostics := diagnostics + [EXITING];
      commands := commands + [LogOutWith(FAREWELL)];
    }

    /** AwaitLogOut: whether the LogOut callback has come (the timed wait itself is not modelled). */
    method AwaitLogOut() returns (r: bool)
      ensures r == loggedOut
    {
      r := loggedOut;
    }

    /**
     * ~Lurker: the members of Lurker::Impl are destroyed, and destroying a
     * `std::thread` that is still joinable calls `std::terminate`.  Returns
     * whether the process is terminated that way.
     */
    method Destroy() returns (terminates: bool)
      ensures terminates <==> workerRunning
    {
      terminates := workerRunning;
    }

    method StartWorker()
      modifies this
      ensures Abstract() == WorkerStarted(old(Abstract()))
    {
      if workerRunning {
        return;
      }
      stopWorker := false;
      workerRunning := true;
    }

    method StopWorker()
      modifies this
      ensures Abstract() == WorkerStopped(old(Abstract()))
    {
      if !workerRunning {
        return;
      }
      stopWorker := true;
      workerRunning := false;
    }

    method LogIn()
      modifies this
      ensures Abstract() == LoggedIn(old(Abstract()))
    {
      diagnostics := diagnostics + [LOGGED_IN];
      for i := 0 to |channelsToJoin|
        invariant channelsToJoin == old(channelsToJoin)
        invariant diagnostics == old(diagnostics) + [LOGGED_IN]
        invariant commands == old(commands) + JoinCommands(channelsToJoin[..i])
        invariant loggedOut == old(loggedOut) && stopWorker == old(stopWorker) && workerRunning == old(workerRunning)
      {
        assert channelsToJoin[..i + 1] == channelsToJoin[..i] + [channelsToJoin[i]];
        JoinCommandsSnoc(channelsToJoin[..i], channelsToJoin[i]);
        commands := commands + [JoinChannel(channelsToJoin[i])];
      }
      assert channelsToJoin[..|channelsToJoin|] == channelsToJoin;
      StartWorker();
    }

    method LogOut()
      modifies this
      ensures Abstract() == LoggedOut(old(Abstract()))
    {
      if loggedOut {
        return;
      }
      StopWorker();
      diagnostics := diagnostics + [LOGGED_OUT];
      loggedOut := true;
    }

    /** A content callback (Doom, Join, Leave, Message, Notice, Host, RoomModeChange, Clear, Sub). */
    method Report(e: Event)
      requires EventWellFormed(e)
      modifies this
      ensures Abstract() == Reported(old(Abstract()), e, clock)
    {
      FormatDefined(e, clock);
      diagnostics := diagnostics + [Format(e, clock).value];
    }

    method Handle(cb: Callback)
      requires CallbackWellFormed(cb)
      modifies this
      ensures Abstract() == Handled(old(Abstract()), cb, clock)
    {
      match cb
      case LogInCallback => LogIn();
      case LogOutCallback => LogOut();
      case Delivered(e) => Report(e);
    }

    /** The callbacks the messaging interface makes during one wait of the main thread. */
    method HandleAll(cbs: seq<Callback>)
      requires forall i :: 0 <= i < |cbs| ==> CallbackWellFormed(cbs[i])
      modifies this
      ensures Abstract() == HandledAll(old(Abstract()), cbs, clock)
    {
      for i := 0 to |cbs|
        invariant HandledAll(old(Abstract()), cbs, clock) == HandledAll(Abstract(), cbs[i..], clock)
      {
        assert cbs[i..][1..] == cbs[i + 1..];
        Handle(cbs[i]);
      }
    }
  }
}
