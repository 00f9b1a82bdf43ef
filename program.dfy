/**
 * The program's entry point (src/main.cpp): reading the channel names from
 * the command line, then running one Lurker until an interrupt or a log-out
 * ends the wait, and logging out.  Signals and the messaging interface's
 * timing are not modelled: a run is given as a sequence of polls, each
 * saying whether the interrupt flag was set when the wait loop tested it
 * and which callbacks the messaging interface made during that wait.
 */
module Program {
  import opened Text
  import opened Events
  import opened Session

  const EXIT_SUCCESS: int := 0
  const EXIT_FAILURE: int := 1

  /** The error ProcessCommandLineArguments publishes when no channel is named. */
  const NO_CHANNELS: Diagnostic := Diagnostic(ERROR, "no channels given")

  /** The arguments after the program name. */
  function Arguments(argv: seq<string>): seq<string> {
    if argv == [] then [] else argv[1..]
  }

  /**
   * ProcessCommandLineArguments: every argument after the program name is
   * a channel to join, appended in order; with no channel at all it
   * publishes the error and fails.
   */
  method ProcessCommandLineArguments(argv: seq<string>, channels: seq<string>)
    returns (ok: bool, newChannels: seq<string>, published: seq<Diagnostic>)
    ensures newChannels == channels + Arguments(argv)
    ensures ok <==> newChannels != []
    ensures published == if ok then [] else [NO_CHANNELS]
  {
    var state: nat := 0;
    newChannels := channels;
    var i := 1;
    while i < |argv|
      invariant 1 <= i <= if argv == [] then 1 else |argv|
      invariant state == 0
      invariant newChannels == channels + Arguments(argv)[..i - 1]
    {
      var arg := argv[i];
      if state == 0 {
        assert Arguments(argv)[..i] == Arguments(argv)[..i - 1] + [arg];
        newChannels := newChannels + [arg];
        state := 0;
      }
      i := i + 1;
    }
    assert argv != [] ==> Arguments(argv)[..i - 1] == Arguments(argv);
    if newChannels == [] {
      return false, newChannels, [NO_CHANNELS];
    }
    return true, newChannels, [];
  }

  /**
   * One test of the wait loop: whether the interrupt handler had set
   * shutDown by then, and the callbacks made while AwaitLogOut waited.
   */
  datatype Poll = Poll(interrupted: bool, during: seq<Callback>)

  predicate PollsWellFormed(polls: seq<Poll>) {
    forall i, j :: 0 <= i < |polls| && 0 <= j < |polls[i].during| ==> CallbackWellFormed(polls[i].during[j])
  }

  predicate CallbacksWellFormed(cbs: seq<Callback>) {
    forall i :: 0 <= i < |cbs| ==> CallbackWellFormed(cbs[i])
  }

  /**
   * How a run ends: the exit code main returns; `std::terminate`, when the
   * Lurker is destroyed at that return while its worker thread is still
   * joinable; or still waiting when the polls run out.
   */
  datatype Outcome = Exited(code: int) | Terminated | StillWaiting

  /**
   * `while (!shutDown) { if (AwaitLogOut()) break; }` over the polls: the
   * state it leaves and whether the loop has ended.
   */
  function WaitLoop(s: State, polls: seq<Poll>, clock: int -> ClockText): (State, bool)
    requires PollsWellFormed(polls)
    decreases |polls|
  {
    if polls == [] then (s, false)
    else if polls[0].interrupted then (s, true)
    else
      var t := HandledAll(s, polls[0].during, clock);
      if t.loggedOut then (t, true) else WaitLoop(t, polls[1..], clock)
  }

  /**
   * main: the outcome of a run and the Lurker's final state (None when
   * no Lurker is made).  `finalWait` are the callbacks made during the last
   * AwaitLogOut, after InitiateLogOut.  Returning from main destroys the
   * Lurker, which terminates the process if the worker thread still runs.
   */
  function Main(argv: seq<string>, clock: int -> ClockText, polls: seq<Poll>, finalWait: seq<Callback>)
    : (Outcome, Option<State>)
    requires PollsWellFormed(polls) && CallbacksWellFormed(finalWait)
  {
    if Arguments(argv) == [] then (Exited(EXIT_FAILURE), None)
    else
      var started := LogInInitiated(Configured(INITIAL), Arguments(argv));
      var (waited, ended) := WaitLoop(started, polls, clock);
      if !ended then (StillWaiting, Some(waited))
      else
        var final := HandledAll(LogOutInitiated(waited), finalWait, clock);
        (if final.workerRunning then Terminated else Exited(EXIT_SUCCESS), Some(final))
  }

  /**
   * The wait loop of main on the Lurker: returns whether it ended, by an
   * interrupt or by AwaitLogOut reporting the log-out.
   */
  method WaitForExit(lurker: Lurker, polls: seq<Poll>) returns (ended: bool)
    requires PollsWellFormed(polls)
    modifies lurker
    ensures (lurker.Abstract(), ended) == WaitLoop(old(lurker.Abstract()), polls, lurker.clock)
  {
    ghost var started := lurker.Abstract();
    var i := 0;
    ended := false;
    while !ended && i < |polls|
      invariant 0 <= i <= |polls|
      invariant WaitLoop(started, polls, lurker.clock)
        == if ended then (lurker.Abstract(), true) else WaitLoop(lurker.Abstract(), polls[i..], lurker.clock)
      decreases |polls| - i, if ended then 0 else 1
    {
      var shutDown := polls[i].interrupted;
      assert polls[i..][0] == polls[i] && polls[i..][1..] == polls[i + 1..];
      if shutDown {
        ended := true;
      } else {
        lurker.HandleAll(polls[i].during);
        var loggedOut := lurker.AwaitLogOut();
        if loggedOut {
          ended := true;
        } else {
          i := i + 1;
        }
      }
    }
    if !ended {
      assert polls[i..] == [];
    }
  }

  /** The steps of main, on a Lurker object; `lurker` is its state when destroyed. */
  method RunMain(argv: seq<string>, clock: int -> ClockText, polls: seq<Poll>, finalWait: seq<Callback>)
    returns (outcome: Outcome, published: seq<Diagnostic>, lurker: Lurker?)
    requires PollsWellFormed(polls) && CallbacksWellFormed(finalWait)
    ensures outcome == Main(argv, clock, polls, finalWait).0
    ensures lurker == null <==> Main(argv, clock, polls, finalWait).1.None?
    ensures lurker != null ==> lurker.Abstract() == Main(argv, clock, polls, finalWait).1.value
    ensures published == if Arguments(argv) == [] then [NO_CHANNELS] else []
  {
    var ok, channels, pub := ProcessCommandLineArguments(argv, []);
    assert channels == Arguments(argv);
    published := pub;
    if !ok {
      return Exited(EXIT_FAILURE), published, null;
    }
    lurker := new Lurker(clock);
    lurker.Configure();
    lurker.InitiateLogIn(channels);
    var ended := WaitForExit(lurker, polls);
    if !ended {
      return StillWaiting, published, lurker;
    }
    lurker.InitiateLogOut();
    lurker.HandleAll(finalWait);
    var _ := lurker.AwaitLogOut();
    var terminates := lurker.Destroy();
    outcome := if terminates then Terminated else Exited(EXIT_SUCCESS);
  }

  // ---------------------------------------------------------------------
  // What a run guarantees.

  /** The program fails, without making a Lurker, exactly when no channel is named. */
  lemma MainFailsWithoutChannels(argv: seq<string>, clock: int -> ClockText, polls: seq<Poll>, finalWait: seq<Callback>)
    requires PollsWellFormed(polls) && CallbacksWellFormed(finalWait)
    ensures Main(argv, clock, polls, finalWait).0 == Exited(EXIT_FAILURE) <==> |argv| <= 1
    ensures Main(argv, clock, polls, finalWait).1.None? <==> |argv| <= 1
    ensures Main(argv, clock, polls, finalWait).1.Some? ==>
      Main(argv, clock, polls, finalWait).1.value.channelsToJoin == argv[1..]
  {
    assert |argv| > 1 ==> Arguments(argv) != [] by {
      if |argv| > 1 {
        assert Arguments(argv)[0] == argv[1];
      }
    }
    if Arguments(argv) != [] {
      var started := LogInInitiated(Configured(INITIAL), Arguments(argv));
      WaitLoopKeepsChannels(started, polls, clock);
      HandledAllKeepsChannels(LogOutInitiated(WaitLoop(started, polls, clock).0), finalWait, clock);
    }
  }

  lemma {:induction false} WaitLoopKeepsChannels(s: State, polls: seq<Poll>, clock: int -> ClockText)
    requires PollsWellFormed(polls)
    ensures WaitLoop(s, polls, clock).0.channelsToJoin == s.channelsToJoin
    decreases |polls|
  {
    if polls != [] && !polls[0].interrupted {
      HandledAllKeepsChannels(s, polls[0].during, clock);
      var t := HandledAll(s, polls[0].during, clock);
      assert PollsWellFormed(polls[1..]) by {
        assert forall i :: 0 <= i < |polls[1..]| ==> polls[1..][i] == polls[i + 1];
      }
      WaitLoopKeepsChannels(t, polls[1..], clock);
    }
  }

  lemma {:induction false} HandledAllKeepsChannels(s: State, cbs: seq<Callback>, clock: int -> ClockText)
    requires CallbacksWellFormed(cbs)
    ensures HandledAll(s, cbs, clock).channelsToJoin == s.channelsToJoin
    decreases |cbs|
  {
    if cbs != [] {
      var t := Handled(s, cbs[0], clock);
      assert t.channelsToJoin == s.channelsToJoin by {
        if cbs[0].LogInCallback? {
          LogInJoinsInOrder(s);
        } else if cbs[0].LogOutCallback? {
          LogOutIdempotent(s);
        }
      }
      HandledAllKeepsChannels(t, cbs[1..], clock);
    }
  }

  /**
   * The wait loop ends only on an interrupt or once logged out; while it
   * goes on, no poll was interrupted and the LogOut callback has not come.
   */
  lemma {:induction false} WaitLoopEnds(s: State, polls: seq<Poll>, clock: int -> ClockText)
    requires PollsWellFormed(polls) && !s.loggedOut
    ensures WaitLoop(s, polls, clock).1 ==>
      WaitLoop(s, polls, clock).0.loggedOut || exists k :: 0 <= k < |polls| && polls[k].interrupted
    ensures !WaitLoop(s, polls, clock).1 ==>
      !WaitLoop(s, polls, clock).0.loggedOut && forall k :: 0 <= k < |polls| ==> !polls[k].interrupted
    decreases |polls|
  {
    if polls != [] && !polls[0].interrupted {
      var t := HandledAll(s, polls[0].during, clock);
      assert PollsWellFormed(polls[1..]) by {
        assert forall i :: 0 <= i < |polls[1..]| ==> polls[1..][i] == polls[i + 1];
      }
      if !t.loggedOut {
        WaitLoopEnds(t, polls[1..], clock);
        if WaitLoop(t, polls[1..], clock).1 && !WaitLoop(t, polls[1..], clock).0.loggedOut {
          var k :| 0 <= k < |polls[1..]| && polls[1..][k].interrupted;
          assert polls[k + 1].interrupted;
        }
        if !WaitLoop(t, polls[1..], clock).1 {
          forall k | 0 <= k < |polls|
            ensures !polls[k].interrupted
          {
            if k > 0 {
              assert polls[k] == polls[1..][k - 1];
            }
          }
        }
      }
    }
  }

  /** The wait loop keeps Lurker's invariant and sends no log-out request of its own. */
  lemma {:induction false} WaitLoopKeepsValid(s: State, polls: seq<Poll>, clock: int -> ClockText)
    requires Valid(s) && PollsWellFormed(polls)
    ensures Valid(WaitLoop(s, polls, clock).0)
    ensures Count(WaitLoop(s, polls, clock).0.commands, LogOutWith(FAREWELL)) == Count(s.commands, LogOutWith(FAREWELL))
    decreases |polls|
  {
    if polls != [] && !polls[0].interrupted {
      LoggedOutAnnouncedOnce(s, polls[0].during, clock);
      CallbacksSendNoLogOut(s, polls[0].during, clock, FAREWELL);
      var t := HandledAll(s, polls[0].during, clock);
      assert PollsWellFormed(polls[1..]) by {
        assert forall i :: 0 <= i < |polls[1..]| ==> polls[1..][i] == polls[i + 1];
      }
      WaitLoopKeepsValid(t, polls[1..], clock);
    }
  }

  /**
   * A run that has left the wait loop, whether it exits or is terminated,
   * has asked to log out exactly once, with the farewell; a run still
   * waiting has not asked at all.  Either way
   * "Logged out." was published at most once.
   */
  lemma MainLogsOutOnce(argv: seq<string>, clock: int -> ClockText, polls: seq<Poll>, finalWait: seq<Callback>)
    requires PollsWellFormed(polls) && CallbacksWellFormed(finalWait)
    requires Main(argv, clock, polls, finalWait).1.Some?
    ensures
      var final := Main(argv, clock, polls, finalWait).1.value;
      && Count(final.commands, LogOutWith(FAREWELL))
         == (if Main(argv, clock, polls, finalWait).0 == StillWaiting then 0 else 1)
      && Count(final.diagnostics, LOGGED_OUT) <= 1
      && Valid(final)
  {
    var started := LogInInitiated(Configured(INITIAL), Arguments(argv));
    InitialValid();
    MainStepsValid(INITIAL, Arguments(argv));
    MainStepsValid(Configured(INITIAL), Arguments(argv));
    assert Count(started.commands, LogOutWith(FAREWELL)) == 0 by {
      assert started.commands == [LogInAnonymously];
      assert started.commands[1..] == [];
    }
    WaitLoopKeepsValid(started, polls, clock);
    var (waited, ended) := WaitLoop(started, polls, clock);
    if ended {
      MainStepsValid(waited, Arguments(argv));
      var exiting := LogOutInitiated(waited);
      CountAppend(waited.commands, [LogOutWith(FAREWELL)], LogOutWith(FAREWELL));
      assert Count([LogOutWith(FAREWELL)], LogOutWith(FAREWELL)) == 1 by {
        assert [LogOutWith(FAREWELL)][1..] == [];
      }
      LoggedOutAnnouncedOnce(exiting, finalWait, clock);
      CallbacksSendNoLogOut(exiting, finalWait, clock, FAREWELL);
    } else {
      LoggedOutAnnouncedOnce(waited, [], clock);
    }
  }

  /** Without a LogOut callback in any poll, the wait leaves the Lurker logged in. */
  lemma {:induction false} WaitLoopNoLogOut(s: State, polls: seq<Poll>, clock: int -> ClockText)
    requires PollsWellFormed(polls) && !s.loggedOut
    requires forall k :: 0 <= k < |polls| ==> LogOutCallback !in polls[k].during
    ensures !WaitLoop(s, polls, clock).0.loggedOut
    decreases |polls|
  {
    if polls != [] && !polls[0].interrupted {
      NoLogOutStaysLoggedIn(s, polls[0].during, clock);
      var t := HandledAll(s, polls[0].during, clock);
      assert forall i :: 0 <= i < |polls[1..]| ==> polls[1..][i] == polls[i + 1];
      WaitLoopNoLogOut(t, polls[1..], clock);
    }
  }

  lemma FinalWaitWellFormed(before: seq<Callback>, after: seq<Callback>)
    requires CallbacksWellFormed(before) && CallbacksWellFormed(after)
    ensures CallbacksWellFormed(before + [LogOutCallback] + after)
  {
    var finalWait := before + [LogOutCallback] + after;
    forall i | 0 <= i < |finalWait|
      ensures CallbackWellFormed(finalWait[i])
    {
      if i < |before| {
        assert finalWait[i] == before[i];
      } else if i > |before| {
        assert finalWait[i] == after[i - |before| - 1];
      }
    }
  }

  /**
   * A final wait whose first LogOut callback is followed by no LogIn
   * callback leaves the worker thread stopped.
   */
  lemma {:induction false} FinalLogOutStopsWorker(
    waited: State, before: seq<Callback>, after: seq<Callback>, clock: int -> ClockText)
    requires CallbacksWellFormed(before) && CallbacksWellFormed(after) && !waited.loggedOut
    requires LogOutCallback !in before && LogInCallback !in after
    ensures CallbacksWellFormed(before + [LogOutCallback] + after)
    ensures !HandledAll(LogOutInitiated(waited), before + [LogOutCallback] + after, clock).workerRunning
  {
    FinalWaitWellFormed(before, after);
    var exiting := LogOutInitiated(waited);
    NoLogOutStaysLoggedIn(exiting, before, clock);
    var t := HandledAll(exiting, before, clock);
    LogOutIdempotent(t);
    assert HandledAll(t, [LogOutCallback], clock) == LoggedOut(t);
    HandledAllAppend(exiting, before, [LogOutCallback], clock);
    HandledAllAppend(exiting, before + [LogOutCallback], after, clock);
    NoLogInKeepsWorkerStopped(LoggedOut(t), after, clock);
  }

  /**
   * The orderly shutdown: when the LogOut callback first comes during the
   * final wait and no LogIn callback follows it, the worker has been
   * stopped and main returns EXIT_SUCCESS (or the run is still waiting).
   */
  lemma InterruptThenLogOutExitsCleanly(
    argv: seq<string>, clock: int -> ClockText, polls: seq<Poll>, before: seq<Callback>, after: seq<Callback>)
    requires PollsWellFormed(polls) && CallbacksWellFormed(before) && CallbacksWellFormed(after)
    requires forall k :: 0 <= k < |polls| ==> LogOutCallback !in polls[k].during
    requires LogOutCallback !in before && LogInCallback !in after
    ensures CallbacksWellFormed(before + [LogOutCallback] + after)
    ensures
      var run := Main(argv, clock, polls, before + [LogOutCallback] + after);
      && run.0 != Terminated
      && (Arguments(argv) != [] && WaitLoop(LogInInitiated(Configured(INITIAL), Arguments(argv)), polls, clock).1 ==>
            run.0 == Exited(EXIT_SUCCESS) && !run.1.value.workerRunning)
  {
    FinalWaitWellFormed(before, after);
    if Arguments(argv) != [] {
      var started := LogInInitiated(Configured(INITIAL), Arguments(argv));
      WaitLoopNoLogOut(started, polls, clock);
      var waited := WaitLoop(started, polls, clock);
      if waited.1 {
        FinalLogOutStopsWorker(waited.0, before, after, clock);
      }
    }
  }

  /**
   * A run is terminated when the worker still runs as the wait loop ends
   * and no LogOut callback comes during the final wait.
   */
  lemma TerminatesWithoutFinalLogOut(argv: seq<string>, clock: int -> ClockText, polls: seq<Poll>, finalWait: seq<Callback>)
    requires PollsWellFormed(polls) && CallbacksWellFormed(finalWait)
    requires Arguments(argv) != []
    requires
      var waited := WaitLoop(LogInInitiated(Configured(INITIAL), Arguments(argv)), polls, clock);
      waited.1 && waited.0.workerRunning
    requires LogOutCallback !in finalWait
    ensures Main(argv, clock, polls, finalWait).0 == Terminated
  {
    var waited := WaitLoop(LogInInitiated(Configured(INITIAL), Arguments(argv)), polls, clock).0;
    NoLogOutKeepsWorkerRunning(LogOutInitiated(waited), finalWait, clock);
  }

  /**
   * Polls before the interrupt that bring a LogIn callback and never the
   * LogOut callback leave the wait loop ended with the worker running.
   */
  lemma {:induction false} WaitLoopInterruptedWhileRunning(
    s: State, pre: seq<Poll>, during: seq<Callback>, post: seq<Poll>, clock: int -> ClockText)
    requires PollsWellFormed(pre + [Poll(true, during)] + post) && !s.loggedOut
    requires forall k :: 0 <= k < |pre| ==> !pre[k].interrupted && LogOutCallback !in pre[k].during
    requires s.workerRunning || exists k :: 0 <= k < |pre| && LogInCallback in pre[k].during
    ensures WaitLoop(s, pre + [Poll(true, during)] + post, clock).1
    ensures WaitLoop(s, pre + [Poll(true, during)] + post, clock).0.workerRunning
    decreases |pre|
  {
    var polls := pre + [Poll(true, during)] + post;
    if pre == [] {
      assert polls[0] == Poll(true, during);
    } else {
      assert polls[0] == pre[0];
      assert polls[1..] == pre[1..] + [Poll(true, during)] + post;
      assert PollsWellFormed(polls[1..]) by {
        assert forall i :: 0 <= i < |polls[1..]| ==> polls[1..][i] == polls[i + 1];
      }
      var t := HandledAll(s, pre[0].during, clock);
      NoLogOutStaysLoggedIn(s, pre[0].during, clock);
      if s.workerRunning {
        NoLogOutKeepsWorkerRunning(s, pre[0].during, clock);
      } else if LogInCallback in pre[0].during {
        LogInStartsWorker(s, pre[0].during, clock);
      } else {
        var k :| 0 <= k < |pre| && LogInCallback in pre[k].during;
        assert k > 0 && pre[1..][k - 1] == pre[k];
      }
      assert forall k :: 0 <= k < |pre[1..]| ==> pre[1..][k] == pre[k + 1];
      WaitLoopInterruptedWhileRunning(t, pre[1..], during, post, clock);
    }
  }

  /**
   * The other way out: a LogIn callback started the worker, the user
   * interrupts, and the LogOut callback does not come within the final
   * wait, so destroying the Lurker terminates the process.
   */
  lemma InterruptWithoutLogOutTerminates(
    argv: seq<string>, clock: int -> ClockText, pre: seq<Poll>, during: seq<Callback>, post: seq<Poll>, finalWait: seq<Callback>)
    requires PollsWellFormed(pre + [Poll(true, during)] + post) && CallbacksWellFormed(finalWait)
    requires |argv| > 1
    requires forall k :: 0 <= k < |pre| ==> !pre[k].interrupted && LogOutCallback !in pre[k].during
    requires exists k :: 0 <= k < |pre| && LogInCallback in pre[k].during
    requires LogOutCallback !in finalWait
    ensures Main(argv, clock, pre + [Poll(true, during)] + post, finalWait).0 == Terminated
  {
    assert Arguments(argv)[0] == argv[1];
    WaitLoopInterruptedWhileRunning(LogInInitiated(Configured(INITIAL), Arguments(argv)), pre, during, post, clock);
    TerminatesWithoutFinalLogOut(argv, clock, pre + [Poll(true, during)] + post, finalWait);
  }
}
