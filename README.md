# Lurker, modelled in Dafny

Lurker is a small Twitch chat bot. It logs in anonymously, joins the
channels named on its command line, and publishes one severity-levelled
diagnostic line for each event the Twitch messaging engine reports. It
runs until an interrupt or a log-out, then says goodbye and waits for the
log-out to be confirmed.

This project models the program's core, file by file, and proves
properties of each part:

- `text.dfy` (module `Text`): models how printf-style directives render
  values.
  - `%s` applied to a `c_str()` stops at the first NUL (`CStr`).
  - `%zu` and `%d` write a decimal number (`NatToDecimal`, `IntToDecimal`).
  - `%03u` writes a zero-padded number (`ZeroPadded`).
  - It also holds the C integer widths and decimal round-trip lemmas.
- `events.dfy` (module `Events`): the event records the engine hands to
  Lurker's callbacks, the published `Diagnostic`, and the `ERROR` level.
- `formatter.dfy` (module `Formatter`): the content callbacks of
  `Lurker::Impl`, as pure functions from an event to the diagnostic
  published for it, together with `FormatTimestamp`.
  - The lemmas state what a reader of those lines can rely on: which
    level each kind of event gets, that a tagged line decodes back to its
    channel, and that Join/Leave lines decode back to their fields.
  - Further lemmas cover the display-name fallback, which fields the host
    and unknown-subtype lines ignore, and where durations, reasons and
    parameters appear.
- `session.dfy` (module `Session`): the `Lurker` object, as one class
  `Lurker` that merges `Lurker` and `Lurker::Impl`.
  - Its fields are the channels to join, `loggedOut`, `stopWorker`,
    whether the worker thread runs, and two logs: the diagnostics
    published and the commands sent to the engine.
  - Each method is specified by a function on the abstract `State`.
    Lemmas about those functions prove:
    - the start/stop guards;
    - that LogIn joins the channels in order;
    - that LogOut is idempotent;
    - the invariant that "Logged out." was published exactly once if
      `loggedOut` is set, and never otherwise.
- `program.dfy` (module `Program`): `main` and
  `ProcessCommandLineArguments` from `src/main.cpp`.
  - The interrupt flag and the timing of the engine's callbacks are
    given as a finite sequence of polls. Each poll records whether the
    interrupt flag was set when the loop tested it, and which callbacks
    arrived while `AwaitLogOut` waited.
  - A run is specified by the function `Main`.
  - `RunMain` performs the same calls on a `Lurker` object.
  - Returning from `main` destroys the Lurker. `Lurker::~Lurker` is
    defaulted, and destroying a `std::thread` that is still joinable
    calls `std::terminate`. So a run ends in the outcome `Terminated`,
    not `EXIT_SUCCESS`, when the worker still runs at that point. This
    happens, for example, when the user interrupts after log-in and the
    LogOut callback does not arrive within the final 250 ms wait.

## Model

| member | source | states |
|---|---|---|
| Text.CStrPrefix | src/Lurker.cpp:209-210 | what `%s` of a `c_str()` writes is a prefix of the string, contains no NUL, and stops just before the first NUL |
| Text.CStrOfPlain | src/Lurker.cpp:209-210 | a string with no NUL is written in full by `%s` of its `c_str()` |
| Text.CStrOmits | src/Lurker.cpp:209-210 | a character missing from a string is missing from its `%s` rendering |
| Text.NatToDecimal | src/Lurker.cpp:262-265 | the `%zu` rendering is canonical (digits only, no leading zero), and is "0" exactly for zero |
| Text.DecimalRoundTrip | src/Lurker.cpp:262-265 | reading back the `%zu` rendering of n gives n |
| Text.CanonicalRoundTrip | src/Lurker.cpp:262-265 | every canonical digit string is the `%zu` rendering of its value |
| Text.DecimalInjective | src/Lurker.cpp:262-265 | different counts render as different texts |
| Text.DecimalLength | src/Lurker.cpp:56 | for k ≥ 1, the `%zu` rendering has at most k digits exactly when the number is below 10^k |
| Text.ZeroPadded3 | src/Lurker.cpp:56 | `%03u` writes exactly three characters iff the value is below 1000, and those digits read back as the value |
| Text.SignedRoundTrip | src/Lurker.cpp:279-282 | the `%d` rendering of an int is a signed decimal that reads back as that int |
| Formatter.TimestampLayout | src/Lurker.cpp:50-58 | FormatTimestamp is defined exactly when milliseconds < 1000; its text is then 12 characters: the 8-character clock text, '.', and three digits reading back as the milliseconds, with no NUL and no ']' |
| Formatter.FormatDefined | src/Lurker.cpp:225-245 | every handler produces a line; only a message whose milliseconds overflow the 13-byte timestamp buffer has none |
| Formatter.LevelPolicy | src/Lurker.cpp:180-396 | level 2 exactly for the disconnect warning, ERROR exactly for unknown clear/sub subtypes, level 1 for everything else |
| Formatter.CutAt | src/Lurker.cpp:208 | decoder for the `]` that closes the `[%s]` opening at line 208 (no code of Lurker's): cutting at a character fails iff the character is absent; otherwise the text is put back together from the parts, and the first part lacks that character |
| Formatter.SplitTag | src/Lurker.cpp:208 | decoder for the `[%s]` opening at line 208 (no code of Lurker's): a line that decodes as tagged is `[tag]rest` with no ']' in the tag |
| Formatter.TaggedRoundTrip | src/Lurker.cpp:208 | for the decoder of the `[%s]` opening at line 208: `[tag]rest` decodes back to tag and rest when the tag holds no ']' |
| Formatter.ChannelTag | src/Lurker.cpp:203-396 | for a channel without ']', every `[%s]`-tagged line (all events but the warning, notices and messages) decodes to the channel's `%s` rendering |
| Formatter.EventTagged | src/Lurker.cpp:203-396 | the same events' lines open with '[' and are not banners |
| Formatter.MessageTag | src/Lurker.cpp:225-245 | for milliseconds below 1000 and a channel without ']', a chat line decodes to the tag "timestamp channel" and the body " name: content" |
| Formatter.DisplayNameShadowsUser | src/Lurker.cpp:228-233 | with a display name present, the raw user name does not affect the line |
| Formatter.UserNameFallback | src/Lurker.cpp:228-233 | with no display name, the line is the one the user name as display name gives |
| Formatter.ParseMembership | src/Lurker.cpp:203-223 | decoder a reader applies to the Join/Leave lines (no code of Lurker's): a recognised membership line is rebuilt exactly from the parsed channel, sign and user |
| Formatter.JoinRoundTrip | src/Lurker.cpp:203-212 | for a channel without ']', the Join line parses back as a join of that channel's and user's `%s` renderings |
| Formatter.LeaveRoundTrip | src/Lurker.cpp:214-223 | for a channel without ']', the Leave line parses back as a leave of that channel's and user's `%s` renderings |
| Formatter.JoinLeaveDistinct | src/Lurker.cpp:203-223 | for channels without ']', no Join line equals a Leave line (with a ']' in a channel, `[a] +x] -u` is both) |
| Formatter.HostOffIgnoresTarget | src/Lurker.cpp:267-272 | a host-off line depends only on the hosting channel: the target and viewer count are ignored |
| Formatter.HostOnShowsViewers | src/Lurker.cpp:260-266 | a host-on line ends with the viewer count in decimal followed by " viewers)" |
| Formatter.HostOnOffDiffer | src/Lurker.cpp:257-273 | a host-on line never equals a host-off line |
| Formatter.RoomModeParameter | src/Lurker.cpp:275-284 | the room-mode line ends with ": " and the parameter in signed decimal, which reads back as the parameter |
| Formatter.TimeoutReason | src/Lurker.cpp:306-314 | the timeout line ends with the duration, " seconds; reason: " and the reason, even when the reason is empty |
| Formatter.BanReason | src/Lurker.cpp:316-323 | the ban line ends with " has been banned from the channel; reason: " and the reason, even when the reason is empty |
| Formatter.UnknownClearShowsOnlyChannel | src/Lurker.cpp:325-331 | an unknown clear subtype's line depends only on the channel |
| Formatter.UnknownSubShowsOnlyChannel | src/Lurker.cpp:387-394 | an unknown sub subtype's line (Unknown, or any other value) depends only on the channel |
| Formatter.NoticeBanner | src/Lurker.cpp:247-255 | a notice line opens with the "** " banner |
| Formatter.StripAround | src/Lurker.cpp:247-255 | decoder for the fixed text around the notice fields (no code of Lurker's): a line it accepts is the opening, the text it returns, and the closing |
| Formatter.StripAroundRoundTrip | src/Lurker.cpp:247-255 | the text between an opening and a closing is given back exactly |
| Formatter.CutSeparator | src/Lurker.cpp:251 | decoder for the `: ` between the notice id and message (no code of Lurker's): the text is rebuilt from the two parts, and the first has no ':' |
| Formatter.CutSeparatorRoundTrip | src/Lurker.cpp:251 | text with no ':' before the first ": " is cut back into its two parts |
| Formatter.ParseNotice | src/Lurker.cpp:247-255 | decoder a reader applies to notice lines (no code of Lurker's): an accepted line is `** Server NOTICE id: message **` rebuilt from the parsed id and message, and the id has no ':' |
| Formatter.NoticeRoundTrip | src/Lurker.cpp:247-255 | a notice line parses back as the `%s` renderings of its id and message, when the id holds no ':' |
| Formatter.LineOpening | src/Lurker.cpp:180-396 | a line is a banner exactly for the disconnect warning and notices; every other line opens with '[' |
| Session.JoinCommands | src/Lurker.cpp:186-188 | one Join command per channel, in the channels' order |
| Session.JoinCommandsSendNoLogOut | src/Lurker.cpp:186-188 | joining channels sends no log-out command |
| Session.InitialValid | src/Lurker.cpp:107-124 | a new Lurker satisfies the invariant (not logged out, worker stopped) |
| Session.StartWorkerGuard | src/Lurker.cpp:139-145 | StartWorker leaves a running worker untouched; otherwise it clears stopWorker and starts the worker; it is idempotent and changes nothing else |
| Session.StopWorkerGuard | src/Lurker.cpp:150-159 | StopWorker leaves a stopped worker untouched; otherwise it sets stopWorker and the worker ends; it is idempotent and changes nothing else |
| Session.LogInJoinsInOrder | src/Lurker.cpp:184-190 | the LogIn callback publishes "Logged in." at level 1, appends one Join per channel in order after the earlier commands, and then starts the worker |
| Session.LogOutIdempotent | src/Lurker.cpp:192-201 | the LogOut callback is ignored once logged out; otherwise it stops the worker, publishes "Logged out." at level 1 and latches loggedOut; applying it twice equals applying it once |
| Session.EventLineIsNotLifecycle | src/Lurker.cpp:180-396 | no content callback publishes a line equal to a lifecycle announcement |
| Session.HandledValid | src/Lurker.cpp:180-396 | every callback keeps the invariant |
| Session.MainStepsValid | src/Lurker.cpp:407-466 | Configure, InitiateLogIn and InitiateLogOut keep the invariant |
| Session.LoggedOutAnnouncedOnce | src/Lurker.cpp:192-201 | over any sequence of callbacks the invariant holds, "Logged out." is published at most once, and loggedOut stays set |
| Session.CallbacksSendNoLogOut | src/Lurker.cpp:180-396 | callbacks never send a log-out command; only InitiateLogOut does |
| Session.NoLogOutStaysLoggedIn | src/Lurker.cpp:192-201 | only the LogOut callback sets loggedOut: without one, a Lurker that has not logged out still has not |
| Session.NoLogInKeepsWorkerStopped | src/Lurker.cpp:139-145 | only the LogIn callback starts the worker: without one, a stopped worker stays stopped |
| Session.NoLogOutKeepsWorkerRunning | src/Lurker.cpp:150-159 | only the LogOut callback stops the worker: without one, a running worker keeps running |
| Session.LogInStartsWorker | src/Lurker.cpp:184-190 | a LogIn callback, with no LogOut callback among the callbacks, leaves the worker running |
| Session.HandledAllAppend | src/Lurker.cpp:180-396 | handling two runs of callbacks one after the other is handling their concatenation |
| Session.Lurker.Destroy | src/Lurker.cpp:400 | destroying the Lurker terminates the process exactly when the worker thread (src/Lurker.cpp:119) is still joinable |
| Session.Lurker.AwaitLogOut | src/Lurker.cpp:468-475 | returns loggedOut and changes nothing |
| Session.Lurker.Configure | src/Lurker.cpp:455 | announces "Configured." at level 3 |
| Session.Lurker.InitiateLogIn | src/Lurker.cpp:458-461 | stores the channels and sends the anonymous log-in command |
| Session.Lurker.InitiateLogOut | src/Lurker.cpp:463-466 | announces "Exiting..." at level 3 and sends log-out with "Bye! BibleThump" |
| Session.Lurker.StartWorker | src/Lurker.cpp:139-145 | the new state is WorkerStarted of the old |
| Session.Lurker.StopWorker | src/Lurker.cpp:150-159 | the new state is WorkerStopped of the old |
| Session.Lurker.LogIn | src/Lurker.cpp:184-190 | the new state is LoggedIn of the old, with the channel loop carrying the commands invariant |
| Session.Lurker.LogOut | src/Lurker.cpp:192-201 | the new state is LoggedOut of the old |
| Session.Lurker.constructor | src/Lurker.cpp:402-405 | a new Lurker keeps the given clock and starts with no channels, not logged out, stopWorker clear, no worker thread and empty logs |
| Session.Lurker.Handle | src/Lurker.cpp:180-396 | one callback from the messaging interface gives Handled of the old state: LogIn, LogOut, or the event's formatted line |
| Session.Lurker.Report | src/Lurker.cpp:180-396 | publishes the event's formatted line |
| Session.Lurker.HandleAll | src/Lurker.cpp:180-396 | the callbacks in order give HandledAll of the old state |
| Program.ProcessCommandLineArguments | src/main.cpp:90-115 | the channels become the old ones followed by every argument after the program name, in order; the result is false iff that list is empty, and then exactly one ERROR "no channels given" is published, otherwise none |
| Program.MainFailsWithoutChannels | src/main.cpp:143-149 | main exits with EXIT_FAILURE, and without making a Lurker, exactly when no channel is named; otherwise the Lurker's channels are argv[1..] |
| Program.WaitLoopEnds | src/main.cpp:150-154 | the wait loop ends only when an interrupt was seen or AwaitLogOut reported log-out; while it goes on, neither has happened |
| Program.WaitLoopKeepsValid | src/main.cpp:150-154 | the wait keeps the invariant and sends no log-out command |
| Program.WaitLoopKeepsChannels | src/main.cpp:150-154 | the wait leaves the channels to join unchanged |
| Program.MainLogsOutOnce | src/main.cpp:143-158 | a run that has left the wait loop, whether it exits or is terminated, has sent exactly one log-out with the farewell, and a run still waiting none; "Logged out." is published at most once and the invariant holds |
| Program.WaitForExit | src/main.cpp:150-154 | the loop's final state and whether it ended are WaitLoop of the starting state |
| Program.RunMain | src/main.cpp:143-158 | the outcome, the published error and the Lurker's final state are those of Main: ProcessCommandLineArguments, then Configure and InitiateLogIn, then the wait loop, then InitiateLogOut, one final AwaitLogOut, and the return, where destroying the Lurker terminates the process if the worker still runs and EXIT_SUCCESS is returned otherwise |
| Program.WaitLoopNoLogOut | src/main.cpp:150-154 | without a LogOut callback, the wait loop leaves the Lurker logged in |
| Program.InterruptThenLogOutExitsCleanly | src/main.cpp:150-158 | when the LogOut callback first arrives during the final wait and no LogIn follows it, the run is never terminated, and a run that left the wait loop returns EXIT_SUCCESS with the worker stopped |
| Program.FinalLogOutStopsWorker | src/Lurker.cpp:192-201 | when the Lurker had not logged out before the final wait, a final wait whose first LogOut callback is followed by no LogIn callback leaves the worker stopped |
| Program.TerminatesWithoutFinalLogOut | src/main.cpp:150-158 | every run that leaves the wait loop with the worker running and gets no LogOut callback in the final wait ends in `std::terminate` |
| Program.WaitLoopInterruptedWhileRunning | src/main.cpp:150-154 | polls that bring a LogIn callback and never the LogOut callback before an interrupted poll end the wait loop with the worker running |
| Program.InterruptWithoutLogOutTerminates | src/main.cpp:143-158 | every run naming a channel in which a LogIn callback arrives before the interrupt, with no LogOut callback before it or during the final wait, ends in `std::terminate` when the Lurker is destroyed |

## Left out

- The mutex, the two condition variables, the worker thread and the timed waits are left out. The engine's callbacks are modelled as arriving one at a time, in a given order, during `AwaitLogOut`. The 250 ms timeout becomes one poll.
- The body of `Worker` (src/Lurker.cpp:166-176) is left out because it does nothing but read the clock. The model keeps only whether the worker runs and the `stopWorker` flag.
- `localtime` and `strftime("%T")` are left out: the clock is a parameter that returns eight digits and colons. The time zone and the value of the clock text are therefore not modelled.
- The subscriptions in `Configure`, the connection factory with its CA-certificate file and errors, the time keeper and `SetUser` are left out as library wiring. Only the "Configured." announcement is modelled.
- The Twitch messaging engine is left out. The commands Lurker sends it (log in, join, log out) are kept as a log, and its callbacks are the model's input.
- The filtering and output of diagnostics by the diagnostics sink is left out. The model keeps the published (level, text) pairs in order. It does not keep the order between that log and the command log.
- The value 10 for `ERROR` comes from the SystemAbstractions library. That library is not part of this model.
- Diagnostics chained from the engine into Lurker's sender are left out. They come from code outside the model.
- In `main`, `srand`, `signal`, `setbuf`, the stream reporter and `PrintUsageInformation` are left out. They are I/O or process set-up. The interrupt handler is modelled only as the flag each poll reports.
- Program.RunMain: a run is a finite sequence of polls. A run whose polls end before the loop exits is reported as `StillWaiting` rather than followed further.
- src/Lurker.hpp is not part of this model. Its declarations are matched by the class's methods.
- The destruction of Lurker::Impl's other members (the messaging interface, the diagnostics sender, the time keeper) is left out. Only the joinable worker thread's `std::terminate` is modelled.
- Session.Lurker.LogIn: a LogIn callback that arrives after log-out would restart the worker, exactly as the code does. No lemma excludes this.
- Formatter: the templates themselves appear only in the handler functions. The lemmas state how the lines decode and what they ignore; they do not restate each template.

Where the code and the design description differ, the model follows the code:
- Chat lines have no bits or action clause.
- Timeout and ban lines always include "; reason: ", even when the reason is empty.
- There are no raid or ritual handlers.
- Moderation, subscription and notice lines get the same level 1 as chat lines.
