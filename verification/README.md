# A verified model of vnctlsd

vnctlsd is a multi-process console dispatcher. A monitor owns the configuration and starts consoles, a worker runs one
thread per logged-in session and one hub per active console, and a bridge checks passwords. This project models the
state machines, codecs and decisions of those processes in Dafny and proves what they keep over whole runs. `dafny verify
dfyconfig.toml` checks the whole project.

How the model is laid out:

| file | models |
|---|---|
| `EscapeDecoder.dfy`, `LineEditor.dfy` | the two interactive byte loops, as methods proved against a fold over the input |
| `RateLimiter.dfy`, `PamBridge.dfy` | the limiter object, its reference without pruning, and the login step run by many connections |
| `Ipc.dfy`, `Rpc.dfy` | framing with passed descriptors over short reads, and the numbered request/reply protocol above it |
| `Hub.dfy`, `HubSteps.dfy` | the hub and registry objects, and one hub under all its threads |
| `Session.dfy`, `ConsoleSession.dfy`, `Worker.dfy` | the session table with enforcement, one undisturbed attachment on the real objects, and the worker under all its threads |
| `Values.dfy`, `Glob.dfy`, `StrFormat.dfy`, `Config.dfy`, `Acl.dfy`, `Resolve.dfy`, `Push.dfy` | file values of any shape and what Python's operations make of them, glob templates, `str.format` with its failures, the configuration store and its transport, access, the resolution both processes run, and reload with enforcement |
| `Logger.dfy` | record trimming and whole writes |
| `Prelude.dfy` | Option, Result, bytes and concatenation |

Objects whose methods update fields are classes, and each method's contract gives the whole new state by a function.
Threads are modelled as steps, one lock section or one visible action each; the hub steps apply the same functions
that the hub's methods are proved to compute. A run is any sequence of steps in any order: a step that is not enabled
changes nothing, so every interleaving is covered. Clock readings, what `recv`, `os.write` and `os.read` return, which
`sendall` fails, PAM's verdict, whether `shlex` can split a command, and what the operating system answers to a spawn
are parameters. What Python makes of a format field with more in its braces than a name (`{name:>10}`, `{name[0]}`) is
an arbitrary function, `StrFormat.RenderField`, and so is the length of a message on the wire, `Push.SizeOf` and
`Rpc.SizeOf`: every result holds whatever they are. Configuration and user files are trees of any shape below the top
level, and every operation on them raises where Python's does.

## Results that may surprise

- The monitor's loop catches little of what its requests can raise. A command that is a string instead of a dictionary,
  a section or definition of the wrong shape, a user whose `groups` are null, a template with a lone brace, `{}` or
  `{0}`, an unbalanced quote, a name template that captures a variable called `name`, a principal such as `"{"`: each
  ends the monitor with the first request that meets it. `Rpc.MonitorStopsIff` says exactly which requests do.
- The same shapes end the worker's listener thread at a SIGUSR2 that meets a session it cannot judge: nobody is dropped
  and no later push is heard. Revoking a user's access by blanking the user's `groups` therefore revokes nothing.
  A vanished socket whose console cannot be named ends the listener too (`Push.ListenerDiesIff`,
  `Push.GoneNameBreaksIff`, `Push.DeadListenerIsDeaf`).
- Giving a user one more group can take away all access, if that group's role is a list or a dictionary;
  `Acl.AccessIsMonotone` says that nothing else can.
- The console name a socket gives need not give back the socket's captures: with `{a}-{b}` the name `x-y-z` is always
  read as `x-y` and `z`, so `console x-y-z` is resolved with other variables. `StrFormat.NameGivesCapturesBack` says
  exactly when it does.
- If closing the pty fails after the reply was sent, the monitor replies twice, and the second reply poisons the
  worker's channel at its next call (`Rpc.SecondReplyPoisons`).
- An emptied configuration file is pushed but ignored, so the worker goes on admitting users the monitor would not
  (`Push.EmptiedFileIsIgnored`); a push of more than 65536 bytes is sent and refused; SIGHUP pushes no user map and an
  empty map is ignored. The exact conditions for staying
  in step are `Push.InStepIffNotEmpty` and `Push.UsersInStepIff`.
- Enforcement looks patterns up with an empty socket path: every session at a pattern or default console counts as
  removed (`Session.OnlyExplicitConsolesSurvive`). A downgrade to read-only is not acted on; `Session.SurvivorsThatExceed`
  says who keeps too much.
- A `[` in a template can make the `fnmatch` filter reject the very path the template spells
  (`Glob.BracketRejectsItself`); a `?` can admit a path with a newline too many, because `$` matches before one
  (`Glob.QuestionMarkAdmitsNewline`). `Glob.MatchIffFiltered` gives the exact set of matches for every template.
- The limiter lets through `max_failures` bad guesses only when attempts do not overlap: k overlapping attempts get
  k - 1 more, which is exact for every limit and every k (`PamBridge.BruteForceBound`, `PamBridge.BoundIsReached`).
- A reap whose clock reading is overtaken can lose a lockout; `RateLimiting.ReapUnnoticedIff` says exactly when it
  cannot be noticed.
- A console that keeps talking with nobody attached re-arms its timer with every chunk, so its teardown can be put off
  without bound (`HubSteps.TalkingConsoleStaysUp`).
- `ipc_send` accepts messages `ipc_recv` refuses (`Ipc.RoundTrip`).
- The bound on log records is exact: 17530 bytes of other fields always leave the first 4000 characters of the
  message, any more need not (`Logger.RecordKeepsMessage`, `Logger.BoundIsTight`).
- The prompt's idle message is not sent to a client that stays idle: `sock_readline` catches the receive timeout as an
  `OSError` (`LineEditor.SilenceIsNoLine`). Its handler is reached only when sending an echo times out
  (`LineEditor.IdleHandlerReachedIff`).

## Model

| member | source | states |
|---|---|---|
| EscapeDecoder.DecodeChunk | server/src/vnctlsd/worker.py:278-296 | the byte loop over one chunk gives the output, pending flag and detach of the decoder fold started with the flag it was given |
| EscapeDecoder.ReadWriteLoop | server/src/vnctlsd/worker.py:268-301 | for any chunks, the concatenated writes and the detach equal one decode of all bytes received before end of file; no empty write is made |
| EscapeDecoder.LoopMatchesGrammar | server/src/vnctlsd/worker.py:278-296 | the stateful loop computes the documented grammar (`~.` detaches, `~~` is a tilde), defined separately by lookahead, for every stream |
| EscapeDecoder.DecodeAppend | server/src/vnctlsd/worker.py:269-298 | decoding a stream cut anywhere is decoding its parts in turn |
| EscapeDecoder.ChunkingIsInvisible | server/src/vnctlsd/worker.py:273-298 | two ways of cutting one stream into chunks leave the decoder with the same bytes, flag and detach |
| EscapeDecoder.EscapeIsParity | server/src/vnctlsd/worker.py:280-296 | while attached, the pending flag is the parity of the run of tildes just read |
| EscapeDecoder.DetachesAtFirst | server/src/vnctlsd/worker.py:287-291 | the session detaches at the first `.` behind an odd maximal run of tildes, not before, and nothing after it is decoded |
| EscapeDecoder.DetachesIff | server/src/vnctlsd/worker.py:287-291 | a stream detaches if and only if it holds such a `.` |
| EscapeDecoder.QuoteRoundTrip | server/src/vnctlsd/worker.py:292-293 | doubling every tilde and decoding is the identity and never detaches |
| ConsoleSession.RunConsoleSession | server/src/vnctlsd/worker.py:262-313 | an undisturbed attachment adds exactly the decoded bytes to the console (none if read-only or done), leaves the hub as add then remove, patches the session only if it is still there, and arms exactly when nobody is left |
| LineEditor.OneKey | server/src/vnctlsd/worker.py:242-258 | one turn of the loop does the edit and the echo of its key |
| LineEditor.ReadLine | server/src/vnctlsd/worker.py:232-259 | for any schedule of receives, timeouts, errors and echo failures the outcome is the reference's; if no echo fails, line and echo are those of the pure edit of the keys received, the line at most `max_len` long and ended by Enter |
| LineEditor.ReadingIsEdit | server/src/vnctlsd/worker.py:234-259 | unless an echo raises, a line is returned exactly when the edit of the keys submits one, and it is that line |
| LineEditor.IdleHandlerReachedIff | server/src/vnctlsd/worker.py:236-352 | the caller sees a TimeoutError if and only if, at some key reached with all earlier echoes sent, the echo times out |
| LineEditor.SilenceIsNoLine | server/src/vnctlsd/worker.py:236-241 | a receive that times out anywhere in a line gives None, exactly as a closed connection there would |
| LineEditor.LineIsBounded | server/src/vnctlsd/worker.py:255-259 | no input makes the buffer or the line longer than `max_len` |
| LineEditor.TextIsTyped | server/src/vnctlsd/worker.py:255-258 | keys that are no Enter, erase or Ctrl-C are appended to the line and echoed as typed, up to the limit and no further |
| LineEditor.EnterSubmits | server/src/vnctlsd/worker.py:243-246 | a line that fits, ended by Enter, is submitted as typed, and the client sees it and a line break |
| LineEditor.TypedLineIsRead | server/src/vnctlsd/worker.py:232-259 | over a working connection the line read is the line typed |
| LineEditor.EraseUndoes | server/src/vnctlsd/worker.py:247-252 | an erase takes back the key before it, and does nothing on an empty line |
| LineEditor.FullOrInterrupted | server/src/vnctlsd/worker.py:253-255 | a full line takes no key and echoes none; Ctrl-C gives the line up |
| LineEditor.RestIsIgnored | server/src/vnctlsd/worker.py:243-259 | bytes behind the end of the line change neither line nor echo |
| LineEditor.KeyKeepsScreen | server/src/vnctlsd/worker.py:247-258 | replaying one key's echo turns the prompt and old buffer on the screen into the prompt and new buffer |
| LineEditor.ScreenShowsBuffer | server/src/vnctlsd/worker.py:232-259 | for any printable keys and erases the terminal shows prompt and buffer, cursor behind, blanks from there on |
| LineEditor.PromptNeverErased | server/src/vnctlsd/worker.py:247-252 | after no single echoed byte is a cell of the prompt changed |
| LineEditor.SubmittedIsShown | server/src/vnctlsd/worker.py:243-246 | the line Enter returns is what the screen showed behind the prompt |
| RateLimiting.RateLimiter.constructor | server/src/vnctlsd/auth.py:145-151 | the limiter starts empty with its policy |
| RateLimiting.RateLimiter.Limited | server/src/vnctlsd/auth.py:153-157 | the answer is whether the user's lock lies in the future |
| RateLimiting.RateLimiter.RecordFailure | server/src/vnctlsd/auth.py:159-171 | the user's entry becomes the pruned, extended and possibly locked one; no other user's changes |
| RateLimiting.RateLimiter.RecordSuccess | server/src/vnctlsd/auth.py:173-175 | the user is forgotten and nobody else |
| RateLimiting.RateLimiter.Reap | server/src/vnctlsd/auth.py:177-186 | exactly the stale entries go, in any order of the dictionary |
| RateLimiting.PruneThenCount | server/src/vnctlsd/auth.py:165-167 | pruning at an earlier time loses nothing a later window counts |
| RateLimiting.StepKeepsAgreement | server/src/vnctlsd/auth.py:153-186 | every operation keeps the limiter indistinguishable, for all users, from the reference that keeps every failure |
| RateLimiting.LimiterRefinesHistory | server/src/vnctlsd/auth.py:153-186 | with a monotone clock and a positive window, every run's answers are those of the full failure history |
| RateLimiting.ReapIsInvisible | server/src/vnctlsd/auth.py:177-186 | a reap inserted anywhere in a run changes no answer |
| RateLimiting.StepKeepsShort | server/src/vnctlsd/auth.py:165-171 | every operation keeps all failure lists below the limit |
| RateLimiting.LockLastsForLockout | server/src/vnctlsd/auth.py:153-175 | a failure that fills the list locks the user for exactly the lockout, any other changes no lock, and a success lifts it |
| RateLimiting.ReapUnnoticedIff | server/src/vnctlsd/auth.py:177-186 | no run from a given clock on can tell whether a reap took place, if and only if every entry the reap forgot has no failure in the window and no lock at that clock |
| RateLimiting.EarlyReapUnnoticed | server/src/vnctlsd/auth.py:177-186 | a reap whose reading is not later than that clock goes unnoticed |
| RateLimiting.ReapShowsWhenClockRunsBack | server/src/vnctlsd/auth.py:177-186 | under every policy with a limit of two or more, a reap dated over a window after the next failures loses a lockout (readings are taken before the lock) |
| PamBridge.Authenticate | bridge/vnctlsd-pam-bridge:287-337 | empty names, missing passwords and limited users are refused without a trace; a bad verdict records one failure, a good one clears the user |
| PamBridge.AuthenticateIsTwoSteps | bridge/vnctlsd-pam-bridge:313-337 | an undisturbed login is the check step followed by its verdict step |
| PamBridge.StepKeepsProgress | bridge/vnctlsd-pam-bridge:205-238 | every step of every connection keeps the count of failures in the interval against the list or the lock |
| PamBridge.BruteForceBound | bridge/vnctlsd-pam-bridge:205-238 | from any state, in an interval shorter than window and lockout, a user with at most k open attempts and no success fails at most max - 1 + k times, whatever else runs |
| PamBridge.SequentialBound | bridge/vnctlsd-pam-bridge:313-337 | attempts one after the other fail at most max times in such an interval |
| PamBridge.BoundIsReached | bridge/vnctlsd-pam-bridge:205-332 | for every limit, window and k there is a run at one instant, with at most k attempts open and no success, that fails exactly max - 1 + k times |
| Ipc.PackThenUnpack | server/src/vnctlsd/ipc.py:12-19 | the five header bytes give back every count below 2^8 and length below 2^32 |
| Ipc.UnpackThenPack | server/src/vnctlsd/ipc.py:12-60 | every five bytes are the header of what they decode to |
| Ipc.IpcSend | server/src/vnctlsd/ipc.py:16-28 | the frame is appended whole, descriptors on its first byte, or nothing is if the header cannot hold the sizes |
| Ipc.RecvBytes | server/src/vnctlsd/ipc.py:31-41 | exactly n bytes under any short reads, or end of file |
| Ipc.RecvHeader | server/src/vnctlsd/ipc.py:44-58 | exactly five bytes and the descriptors of the first, under any short reads, or end of file |
| Ipc.CloseExtra | server/src/vnctlsd/ipc.py:80-87 | the declared number of descriptors is kept in order and each surplus one is closed once |
| Ipc.IpcRecv | server/src/vnctlsd/ipc.py:44-96 | result, unread rest and closed descriptors depend on the stream alone, not on how reads cut it, error cases included |
| Ipc.RoundTrip | server/src/vnctlsd/ipc.py:16-96 | a sent message is received intact, whatever follows, if and only if it has at most 65536 bytes and 4 descriptors; otherwise the descriptors are refused first, then the length |
| Ipc.DeclaredAgainstArrived | server/src/vnctlsd/ipc.py:71-92 | the declared descriptors are taken and surplus ones closed; if fewer arrive the message is refused and read whole |
| Ipc.NextOfStream | server/src/vnctlsd/ipc.py:44-96 | receiving from a stream of messages takes the next one whole and stops on its boundary |
| Ipc.ReceiveAll | server/src/vnctlsd/ipc.py:16-96 | successive receives return the messages sent, in order, and leave what follows |
| Ipc.StreamSnoc | server/src/vnctlsd/ipc.py:16-28 | sending appends to the stream of messages |
| Ipc.StreamIsInjective | server/src/vnctlsd/ipc.py:12-28 | no two message sequences look alike on the wire |
| Ipc.TruncatedIsEof | server/src/vnctlsd/ipc.py:31-58 | a message cut short anywhere is reported as end of file, never as a message |
| Rpc.Dispatch | server/src/vnctlsd/monitor.py:134-330 | the branches produce exactly the replies of the specification, on the monitor's own stores |
| Rpc.MonitorStopsIff | server/src/vnctlsd/monitor.py:134-330 | the monitor's loop ends with a request if and only if it is a command whose section or (for a known action on a valid name) entry is no dictionary, or whose template is no text, raises other than KeyError or cannot be split; or a spawn that breaks while definition or access is resolved or, granted, in the same ways or by a captured variable called name |
| Rpc.CmdStopsIff | server/src/vnctlsd/monitor.py:134-200 | the command branch raises exactly under those conditions on the commands section, its entry and the template |
| Rpc.SpawnRunsIff | server/src/vnctlsd/monitor.py:209-284 | a spawn gets as far as its command text if and only if name, definition, type, access and template are all good |
| Rpc.ExactlyOneReply | server/src/vnctlsd/monitor.py:134-330 | a request that ends the monitor gets no reply; a granted spawn whose pty cannot be closed gets two; every other exactly one, of the paired type and with its number |
| Rpc.CommandIsAnswered | server/src/vnctlsd/monitor.py:143-200 | a command request is answered with the command's output if action, name and template are good, and with the reason why not otherwise |
| Rpc.OthersAreAnswered | server/src/vnctlsd/monitor.py:202-330 | a peer request is answered with the passwd name of a given uid; a refused or failing spawn with a reason and no descriptor |
| Rpc.MonitorProxy.Begin | server/src/vnctlsd/worker.py:31-39 | a poisoned proxy sends nothing; otherwise the number moves on modulo 2^32 |
| Rpc.MonitorProxy.Finish | server/src/vnctlsd/worker.py:41-48 | a reply is accepted exactly with the due number and type; anything else poisons |
| Rpc.EveryCallGetsItsReply | server/src/vnctlsd/worker.py:31-97 | for any number of calls that neither end the monitor nor leave a pty stuck and whose replies are short enough to be received, through every wrap-around, the i-th call gets the i-th request's reply and the proxy stays clean |
| Rpc.SpawnSucceedsIff | server/src/vnctlsd/worker.py:60-78 | the worker gets the pty the monitor opened exactly when the monitor grants the spawn and can open one |
| Rpc.SecondReplyPoisons | server/src/vnctlsd/monitor.py:305-318 | a doubled reply lets the spawn succeed and poisons the channel at the next call |
| Rpc.NothingAcceptedAfterMismatch | server/src/vnctlsd/worker.py:35-48 | against any reply stream, nothing is accepted after the first mismatch |
| Rpc.AcceptedIsExpected | server/src/vnctlsd/worker.py:31-48 | against any reply stream, what the j-th call accepts carries the j-th number and the type asked for |
| Hub.ConsoleHub.constructor | server/src/vnctlsd/hub.py:16-26 | a hub starts with no client, no timer, not done, its descriptor open |
| Hub.ConsoleHub.AddClient | server/src/vnctlsd/hub.py:28-33 | the client is attached with nothing sent yet and the held timer is cancelled if still running |
| Hub.ConsoleHub.RemoveClient | server/src/vnctlsd/hub.py:37-44 | only that client goes; the timer is to be armed exactly when nobody is left |
| Hub.ConsoleHub.ArmGrace | server/src/vnctlsd/hub.py:46-53 | the held timer is cancelled if still running and a new one is started and held |
| Hub.ConsoleHub.TeardownGuard | server/src/vnctlsd/hub.py:64-70 | a fired timer goes on exactly when no client is attached, and then no timer is held |
| Hub.ConsoleHub.Shutdown | server/src/vnctlsd/hub.py:56-62 | the hub is done and its descriptor closed |
| Hub.ConsoleHub.WriteInput | server/src/vnctlsd/hub.py:72-76 | accepted data is appended to the console's input; a failing write marks the hub done |
| Hub.ConsoleHub.SendAll | server/src/vnctlsd/hub.py:90-95 | every client gets the chunk once, whole or up to its failure, in any order, and exactly the failing ones are collected |
| Hub.ConsoleHub.Drop | server/src/vnctlsd/hub.py:96-98 | exactly the collected clients are deleted |
| Hub.ConsoleHub.Broadcast | server/src/vnctlsd/hub.py:89-100 | the survivors have the whole chunk appended, the lost ones a prefix of it, and the timer is to be armed exactly when nobody is left |
| Hub.ConsoleHub.Finish | server/src/vnctlsd/hub.py:102-108 | every client is forgotten |
| Hub.HubRegistry.GetOrCreate | server/src/vnctlsd/hub.py:134-146 | a live hub is returned and the new descriptor closed, or a new hub owns the descriptor and replaces a done one |
| Hub.HubRegistry.Lookup | server/src/vnctlsd/hub.py:148-151 | a hub is found exactly if it is stored and not done |
| Hub.HubRegistry.RemoveIfDone | server/src/vnctlsd/hub.py:153-157 | only a done hub of that name is dropped |
| Hub.HubRegistry.TeardownAll | server/src/vnctlsd/hub.py:164-168 | every stored hub is shut down and the registry emptied |
| HubSteps.InvAlways | server/src/vnctlsd/hub.py:28-114 | the timer, abandonment, stream and descriptor invariants hold after any interleaving of all threads |
| HubSteps.AtMostOneRunningTimer | server/src/vnctlsd/hub.py:28-70 | until a teardown passes its guard, at most one timer is running and it is the one held |
| HubSteps.OccupiedHubSurvives | server/src/vnctlsd/hub.py:64-70 | while somebody is attached in every state and nothing from outside ends the hub, no timer passes the guard and the hub stays up, whatever fires and whoever comes and goes |
| HubSteps.DoneOnlyBy | server/src/vnctlsd/hub.py:56-88 | a hub becomes done exactly by giving up after a passed guard, a shutdown, or a failing read or write |
| HubSteps.DoneHubIsClosed | server/src/vnctlsd/hub.py:78-114 | the reader of a done hub forgets every client and leaves the descriptor closed, and so does a shutdown that runs on |
| HubSteps.BroadcastLosesOnlyFailing | server/src/vnctlsd/hub.py:89-98 | after a broadcast exactly the clients whose socket did not fail are attached, in their mode and with the whole chunk |
| HubSteps.AbandonedHubIsDoomed | server/src/vnctlsd/hub.py:37-70 | a hub all clients have left, and not yet done, always has an arm on its way, a running or fired timer, or a passed guard |
| HubSteps.AbandonedHubComesDown | server/src/vnctlsd/hub.py:46-70 | left alone, these bring it down: in any order they run out after boundedly many steps and the hub is done |
| HubSteps.InternalStepsMakeProgress | server/src/vnctlsd/hub.py:46-70 | each arm, timer and teardown step shrinks the remaining work |
| HubSteps.TalkingConsoleStaysUp | server/src/vnctlsd/hub.py:78-100 | from any abandoned hub before a teardown, for any chunks however many, a run broadcasts each to nobody and arms anew each time; the hub is then still abandoned and not done and only the newest timer runs |
| HubSteps.LiveHubKeepsItsFd | server/src/vnctlsd/hub.py:56-114 | hub code never closes the descriptor of a hub that is not done |
| HubSteps.ClientSeesContiguousRun | server/src/vnctlsd/hub.py:28-100 | an attached client has been sent exactly the broadcasts since it was added, in order, no gap and no repeat |
| HubSteps.LostClientSawPrefix | server/src/vnctlsd/hub.py:89-98 | a client lost in a broadcast has all earlier ones and a prefix of that one |
| HubSteps.LaterClientSeesSuffix | server/src/vnctlsd/hub.py:89-100 | of two attached clients the later has seen a suffix of what the earlier saw; the same bytes if they came together |
| Session.SessionRegistry.Add | server/src/vnctlsd/session.py:19-31 | the record and the socket are stored under the id, in insertion order |
| Session.SessionRegistry.Update | server/src/vnctlsd/session.py:33-36 | only the given fields of a session that is still there change |
| Session.SessionRegistry.Remove | server/src/vnctlsd/session.py:38-41 | record and socket of that session go and no other |
| Session.FindEnforced | server/src/vnctlsd/session.py:61-76 | the definition enforcement uses: the one under the name, else the first pattern matching an empty path; an exception if the name is there without a definition and there are patterns, or on any shape the loop cannot use |
| Session.JudgeOne | server/src/vnctlsd/session.py:57-89 | one turn of the walk decides kept, console removed, access revoked or an exception as specified |
| Session.Walk | server/src/vnctlsd/session.py:56-89 | the loop raises exactly if judging some session does; else the lists are the judgements in order and every session is on exactly one of the two reports |
| Session.SessionRegistry.DropAll | server/src/vnctlsd/session.py:91-103 | exactly the stale sessions go, sockets with them; sessions and sockets keep equal domains |
| Session.SessionRegistry.KillStale | server/src/vnctlsd/session.py:47-105 | exactly the sessions judged kept remain, with record and socket unchanged, and killed and retained count every old session once; if judging one raises, nothing changes |
| Session.CrashesIff | server/src/vnctlsd/session.py:58-84 | judging a session raises exactly if it is at a console and the consoles section, the missing definition's patterns, or the access to the definition found break |
| Session.SurvivorsHaveAccess | server/src/vnctlsd/session.py:82-89 | whoever survives at a console has access to it under the current stores |
| Session.PromptSurvives | server/src/vnctlsd/session.py:58-60 | a session at the prompt, or without a console name, survives every enforcement unchanged, whatever the stores |
| Session.PromptIsRetained | server/src/vnctlsd/session.py:58-60 | it is on the retained report, without a console, and not on the killed one |
| Session.KilledBecause | server/src/vnctlsd/session.py:77-89 | a session at a console is removed exactly if no definition is found, revoked exactly if one is found and access is refused, kept exactly if it is granted |
| Session.OnlyExplicitConsolesSurvive | server/src/vnctlsd/session.py:61-81 | a session at a console survives if and only if there is a definition under its name and access to it is granted, unless some socket glob is empty |
| Session.SurvivorsThatExceed | server/src/vnctlsd/session.py:82-89 | the recorded mode plays no part in the judgement, and the survivors left with more access than they now have are exactly the read-write sessions whose users may now only watch |
| Session.EnforcementIsIdempotent | server/src/vnctlsd/session.py:47-105 | a second enforcement kills nobody |
| Worker.InvAlways | server/src/vnctlsd/worker.py:262-477 | registry, descriptor, hub, table and input invariants hold after any interleaving of sessions, hubs, enforcement and shutdown |
| Worker.SessionTableMatchesHubs | server/src/vnctlsd/worker.py:461-476 | a hub's client whose session is still listed is listed at state console, that hub's name and the same mode |
| Worker.PromptIsRecorded | server/src/vnctlsd/worker.py:468-476 | a listed session whose thread is back at the prompt is listed at the prompt and at no console |
| Worker.SessionsAreListed | server/src/vnctlsd/worker.py:338-341 | without enforcement exactly the running sessions are listed |
| Worker.DroppedStaysDropped | server/src/vnctlsd/session.py:33-41 | a dropped session never comes back to the table, whatever its thread still does |
| Worker.OneHubPerClient | server/src/vnctlsd/worker.py:262-313 | a client is attached to one hub at a time |
| Worker.OneLiveHubPerName | server/src/vnctlsd/hub.py:129-168 | of all hubs ever made under a name at most one is not done, and it is the one the registry finds |
| Worker.CreateMakesLive | server/src/vnctlsd/hub.py:134-146 | after a create there is a live hub under the name: the one there was, and the descriptor is closed, or a new one that owns it |
| Worker.RemoveForgetsDone | server/src/vnctlsd/hub.py:153-157 | exactly a done hub is forgotten |
| Worker.TeardownEndsAll | server/src/vnctlsd/hub.py:164-168 | tearing everything down leaves no hub live, registered or not |
| Worker.EveryFdHasOneFate | server/src/vnctlsd/hub.py:56-146 | every descriptor handed in is either closed at once or owned by exactly one hub, and open while that hub is not done |
| Worker.ConsoleInputIsDecodedPrefix | server/src/vnctlsd/worker.py:262-313 | a console's writes belong to its own attachments; each attachment's are the decode of a prefix of its client's bytes, none if read-only |
| Worker.NothingIsHeldBack | server/src/vnctlsd/worker.py:268-298 | a client whose writes all succeeded has had every received byte decoded when its thread is back in its loop |
| Worker.FedIsReceived | server/src/vnctlsd/worker.py:268-298 | a read-write attachment has been fed exactly the bytes its client's socket gave it over the run, in order |
| Worker.LeavesIff | server/src/vnctlsd/worker.py:271-313 | a thread stops serving its client exactly on a done hub, a closed socket, or the escape in what was received |
| Glob.RegexIsSound | server/src/vnctlsd/glob_patterns.py:18-36 | a regex match binds every placeholder to non-empty slash-free text that substitutes back to the path, up to one final newline |
| Glob.RegexIsComplete | server/src/vnctlsd/glob_patterns.py:18-36 | backtracking finds a match for every instance, with or without that newline |
| Glob.PrefilterKeepsInstances | server/src/vnctlsd/glob_patterns.py:16-32 | the fnmatch filter never rejects an instance of a template without `[` |
| Glob.WildcardsMatch | server/src/vnctlsd/glob_patterns.py:31-32 | in the filter `*` matches any text and `?` exactly one character |
| Glob.BracketsMatch | server/src/vnctlsd/glob_patterns.py:31-32 | in the filter brackets match one of their characters, or with `!` one that is not among them, and a range what lies between its bounds |
| Glob.GreedyTakesAll | server/src/vnctlsd/glob_patterns.py:18-36 | greedy captures never leave the last newline over when the path ends in the template's literal tail |
| Glob.MatchIffInstance | server/src/vnctlsd/glob_patterns.py:5-36 | for literals without `*`, `?`, `[`: a path matches if and only if it is an instance, and the captures substitute back to exactly it |
| Glob.MatchIffFiltered | server/src/vnctlsd/glob_patterns.py:5-36 | for any literals: a path matches if and only if the filter passes it and it is an instance up to one final newline |
| Glob.BracketRejectsItself | server/src/vnctlsd/glob_patterns.py:31-32 | a template with `[` can reject the path it spells |
| Glob.QuestionMarkAdmitsNewline | server/src/vnctlsd/glob_patterns.py:24-36 | a template with `?` can match a path that is no instance of it |
| Glob.NameMatchIff | server/src/vnctlsd/config.py:188-202 | a console name template matches exactly its instances and those with one final newline |
| Glob.EmptyPathNeverMatches | server/src/vnctlsd/session.py:67-76 | only an empty template matches the empty path |
| StrFormat.RenderIff | server/src/vnctlsd/acl.py:36-40 | pieces are filled in from the left: the first one that cannot be decides how formatting fails |
| StrFormat.FormatRaisesIff | server/src/vnctlsd/monitor.py:273-275 | formatting raises other than KeyError if and only if the first piece that cannot be filled in is a syntax error, a positional field or one Python chokes on; it gives a text if and only if all can |
| StrFormat.QuotedFormatsBack | server/src/vnctlsd/monitor.py:164-274 | a text with every brace doubled formats back to itself, whatever the variables |
| StrFormat.FormatOfClean | server/src/vnctlsd/monitor.py:164-274 | a template of plain placeholders gives the text with the values put in, or a KeyError if one is unknown |
| StrFormat.FieldWithExtra | server/src/vnctlsd/monitor.py:164-274 | a conversion or a format spec without braces belongs to the field it stands in |
| StrFormat.BadFieldsRaise | server/src/vnctlsd/monitor.py:164-274 | a brace on its own and a field with no name or a number for a name raise |
| StrFormat.FormatOfGlob | server/src/vnctlsd/worker.py:213-218 | with all placeholders known, formatting a glob equals substitution if it has no literal brace, and otherwise raises or falls short of it |
| Glob.MatchIsLongestReading | server/src/vnctlsd/glob_patterns.py:18-36 | of all readings of a name by a template the regex finds the one that no other is longer than at the first placeholder where they differ |
| StrFormat.NameGivesCapturesBack | server/src/vnctlsd/worker.py:211-218 | a name formatted from a socket's captures is read back as those captures if and only if the template has no literal brace, uses every capture, and no other reading of the name is longer |
| StrFormat.OneCaptureComesBack | server/src/vnctlsd/worker.py:211-218 | with one placeholder, the only capture, it always is |
| StrFormat.TwoCapturesMayNot | server/src/vnctlsd/config.py:188-202 | with two placeholders around a character, a second text that holds the character is never read back, whatever the texts |
| Config.PrecompileLoop | server/src/vnctlsd/config.py:11-25 | the loop compiles every pattern in order or fails at the first that does not compile |
| Config.ConsoleConfigStore.GetRaw | server/src/vnctlsd/config.py:76-91 | what is shipped has no private key at any depth; every public key keeps its value, stripped, and every private one is absent |
| Config.StripDictIsPublic | server/src/vnctlsd/config.py:82-88 | a stripped dictionary has no private key at any depth |
| Config.StrippedGet | server/src/vnctlsd/config.py:82-88 | looking a key up after stripping finds the stripped value of a public key and nothing for a private one |
| Config.ConsoleConfigStore.FindSocket | server/src/vnctlsd/config.py:104-125 | the two loops find the first explicit console with the socket, else the first compiled pattern that matches |
| Config.ExplicitSocketIff | server/src/vnctlsd/config.py:113-115 | the first explicit console with the socket is found, under its own name, if all before it are dictionaries |
| Config.NoExplicitSocket | server/src/vnctlsd/config.py:113-115 | without one, none is found |
| Config.DefaultExecIs | server/src/vnctlsd/config.py:175-186 | the fallback is the entry under defaults.console if that is not empty and is exec or names no type |
| Config.ConsoleConfigStore.FindName | server/src/vnctlsd/config.py:188-202 | the loop finds the first compiled pattern whose name regex matches |
| Config.NameScanBreaksIff | server/src/vnctlsd/config.py:188-202 | the name lookup raises if and only if a pattern that is no dictionary or has a foreign name regex comes before any that matches |
| Config.SocketScanBreaksIff | server/src/vnctlsd/config.py:117-125 | the socket lookup raises if and only if a pattern that cannot be asked for its filter, or has a foreign filter or a foreign regex behind a matching filter, comes before any that matches |
| Config.DefaultsBreakIff | server/src/vnctlsd/config.py:175-186 | the fallback raises exactly if the defaults section is no dictionary or its console entry is truthy and none |
| Config.CompiledPatternsLookUp | server/src/vnctlsd/config.py:11-202 | looking up compiled patterns finds the first pattern whose glob, as written, matches, by socket and by name, and raises on the same entries |
| Config.CompiledConfigLooksUp | server/src/vnctlsd/config.py:11-202 | every lookup in the compiled form of a public configuration, by socket or by name, is the lookup by the globs and names as written |
| Config.ConsoleConfigStore.Update | server/src/vnctlsd/config.py:93-102 | the stored tree becomes the compiled form, or nothing changes if compiling raises |
| Config.StripFixesExactlyPublic | server/src/vnctlsd/config.py:82-88 | stripping leaves a tree unchanged if and only if it has no private key at any depth |
| Config.CompiledStripsLikeRaw | server/src/vnctlsd/config.py:11-91 | compiling adds nothing that survives stripping |
| Config.TransportRoundTrip | server/src/vnctlsd/config.py:11-102 | shipping gives the raw tree back if and only if it has no private key, and recompiling then rebuilds the sender's form |
| Config.CompiledEntryLooksUp | server/src/vnctlsd/config.py:104-202 | a compiled pattern is looked up, by socket and by name, with the globs it was written with |
| Acl.UserMapStore.GetRoleForGroups | server/src/vnctlsd/config.py:273-296 | the loop finds the best role of the groups, or raises exactly if there are groups and the section is no dictionary, or a group or its role cannot be in a set |
| Acl.RoleIsMonotone | server/src/vnctlsd/config.py:273-296 | more groups never give a lower role unless one of them has a role that breaks, which more groups never repair |
| Acl.ScanIff | server/src/vnctlsd/acl.py:35-47 | the scan of a list is decided by the first principal that admits the user or raises, and finds nobody exactly if there is none |
| Acl.ScanBreaksIff | server/src/vnctlsd/acl.py:35-47 | a scan raises if and only if the value cannot be looped over or a bad principal comes before anyone is admitted |
| Acl.MembershipBreaksIff | server/src/vnctlsd/config.py:258-300 | asking for a user and the user's groups raises exactly on a map or users section of the wrong shape, or groups that cannot be looped over or be a set |
| Values.LastPairCounts | server/src/vnctlsd/config.py:302-304 | a user map written as a list of pairs is copied as the dictionary in which the last pair of a key counts |
| Acl.AccessBreaksIff | server/src/vnctlsd/acl.py:28-59 | resolving access raises if and only if membership breaks; or the user is known and the definition is no dictionary, or its lists (rw, or ro after an rw that admits nobody) or, without lists, the roles break |
| Acl.ListsDecide | server/src/vnctlsd/acl.py:49-57 | for a known user and a definition with lists: read-write if rw admits, else read-only if ro admits, else nothing, as long as no list breaks |
| Acl.AdmitsIff | server/src/vnctlsd/acl.py:35-46 | a principal without braces admits exactly if it is `*`, the user's name or one of the user's groups |
| Acl.TemplateAdmitsIff | server/src/vnctlsd/acl.py:35-46 | a principal with placeholders admits as the text with the captures put in, or as written if one is unknown |
| Acl.MembershipIsListed | server/src/vnctlsd/config.py:258-300 | in a well-formed map a user is known exactly if listed, with the groups listed |
| Acl.RolesDecide | server/src/vnctlsd/config.py:273-296 | without lists: read-write if some group has that role, else read-only if some has any role, else nothing |
| Acl.ListsAreMonotone | server/src/vnctlsd/acl.py:52-57 | decided by lists, more groups never lower access nor turn an answer into an exception |
| Acl.ScanIsMonotone | server/src/vnctlsd/acl.py:35-47 | more groups never undo a match nor turn an answer into an exception |
| Acl.AccessIsMonotone | server/src/vnctlsd/acl.py:28-59 | giving an existing user more groups lowers the access to a console if and only if that is decided by roles and the new groups' roles break; in the order exception, none, read-only, read-write |
| Acl.AccessIgnoresOrder | server/src/vnctlsd/acl.py:28-59 | order and repetition of groups do not matter |
| Acl.ListsOverrideRoles | server/src/vnctlsd/acl.py:52-57 | a definition with lists is decided without the roles |
| Acl.StarAdmitsEveryUser | server/src/vnctlsd/acl.py:30-54 | `*` in rw admits every user in the map and nobody else, unless a bad principal breaks the scan first |
| Acl.BestRoleWins | server/src/vnctlsd/acl.py:59-59 | without lists the access is the best role of any single group, as long as no role breaks |
| Resolve.DecideConsole | server/src/vnctlsd/worker.py:404-459 | the command's branches compute the worker's decision, with a hub that may come or go between its two lookups |
| Resolve.DefinedIs | server/src/vnctlsd/worker.py:412-418 | a definition under the name wins, with no variables; without one it is the first pattern that matches |
| Resolve.DecisionIff | server/src/vnctlsd/worker.py:404-471 | when the worker attaches, finds nothing, denies, has nothing to run, has to wait, asks for a spawn, or raises: an exact condition for each |
| Resolve.DefinedBreaksIff | server/src/vnctlsd/monitor.py:218-224 | looking a name up raises exactly if the consoles section is no dictionary, or there is no definition and the patterns cannot be looped over or break |
| Resolve.AuthorizeSpawn | server/src/vnctlsd/monitor.py:202-281 | the branches compute the monitor's verdict, every uncaught exception included |
| Resolve.RefusalIff | server/src/vnctlsd/monitor.py:209-271 | an exact condition for each of the monitor's refusals |
| Resolve.CommandIsFilledIn | server/src/vnctlsd/monitor.py:263-281 | the command run is the template with the captures and the name put in; a placeholder that is neither is refused |
| Resolve.WorkerAsksOnlyWhatMonitorGrants | server/src/vnctlsd/worker.py:409-456 | on equal stores, whenever the worker asks for a spawn the monitor resolves the same definition and variables, never refuses as not defined, not exec or denied, and decides a valid name by the command alone |
| Resolve.WorkerAsksForAllMonitorGrants | server/src/vnctlsd/monitor.py:217-261 | without a hub in the way, for valid names, the worker asks if and only if the monitor resolves an exec definition the user has access to; otherwise the monitor refuses on those grounds or raises |
| Resolve.SpawnRaisesIff | server/src/vnctlsd/monitor.py:209-281 | a spawn request raises before its command is split if and only if the name is valid and its definition cannot be resolved or is no dictionary, or is exec and access breaks, or is granted and its command is no text, captures name, or has a template that raises |
| Resolve.AttachModeIsAccess | server/src/vnctlsd/worker.py:420-471 | whoever is attached has exactly the access the mode says, by definition or, for an undefined live hub, by role |
| Push.HandleMessage | server/src/vnctlsd/worker.py:154-172 | the listener's branches on the real objects do what the step function says, the thread's death by an exception included |
| Push.ReloadTakes | server/src/vnctlsd/monitor.py:39-50 | a signal replaces each store by what its file compiles to and keeps it if the file does not load |
| Push.PushesAre | server/src/vnctlsd/monitor.py:50-91 | SIGHUP pushes the configuration alone, SIGUSR2 the configuration and then the request to enforce |
| Push.RevocationTakesEffect | server/src/vnctlsd/monitor.py:82-91 | a SIGUSR2 to a caught-up worker leaves exactly the sessions the reloaded stores keep, once its two pushes are read and if every session can be judged |
| Push.InvAlways | server/src/vnctlsd/monitor.py:39-91 | in every run each pushed message matches the monitor it was sent from, every ENFORCE_REQ directly follows its CONFIG_UPDATE, and unless a push was refused the worker holds the last configuration handled that was not empty |
| Push.EnforcementUsesMonitorStores | server/src/vnctlsd/monitor.py:39-91 | with no push refused before, handling an ENFORCE_REQ keeps exactly the sessions the monitor's stores at that signal would keep, however much is in flight; or all of them if judging one raises or the request is too long |
| Push.SocketGone | server/src/vnctlsd/worker.py:209-226 | the branch shuts down and forgets exactly the live hub the vanished socket names, and raises exactly if the socket cannot be named |
| Push.GoneNameIsFilledIn | server/src/vnctlsd/worker.py:213-218 | the console a vanished socket names is the pattern's console_name with the captures put in, or as written if one is unknown |
| Push.GoneNameBreaksIff | server/src/vnctlsd/worker.py:209-218 | naming a vanished socket raises if and only if its lookup does, or the definition's console_name is no text or a template that raises on the captures |
| Push.PushKillsListenerIff | server/src/vnctlsd/worker.py:154-172 | a push of the monitor ends the listener if and only if it is an ENFORCE_REQ short enough to be read and some session cannot be judged |
| Push.ListenerDiesIff | server/src/vnctlsd/worker.py:135-226 | among the monitor's pushes and the watcher's SOCKET_DISAPPEARED, the listener dies exactly on an enforcement that meets a session it cannot judge and on a vanished socket it cannot name |
| Push.DeadListenerIsDeaf | server/src/vnctlsd/worker.py:128-172 | once it is dead, no run of signals and session steps changes the worker's configuration or users |
| Push.CaughtUpWorkerAgrees | server/src/vnctlsd/monitor.py:82-91 | a worker that has handled everything up to a SIGUSR2 asks for no spawn the monitor refuses on access grounds |
| Push.InStepIffNotEmpty | server/src/vnctlsd/worker.py:154-157 | after a push the worker has the monitor's configuration if and only if that is at most 65536 bytes on the wire and not empty, or the worker already had it |
| Push.UsersInStepIff | server/src/vnctlsd/worker.py:160-165 | after a push the worker has the monitor's users if and only if an enforcement request that could be read carried a map that is not empty and is a dictionary in the monitor too, or it carried none that counts and they already agreed |
| Push.EmptiedFileIsIgnored | server/src/vnctlsd/worker.py:154-166 | after an emptied file and SIGUSR2, a session the monitor would drop is kept |
| Logger.EncodeEntry | server/src/vnctlsd/logger.py:28-56 | the written record is the first of whole, without traceback, cut at 4000, 1000, 200, 40, or ellipsis only, that is tried and fits |
| Logger.TrimmedOnlyIfNeeded | server/src/vnctlsd/logger.py:35-45 | a record that fits is written unchanged; any other is marked and loses its traceback, and nothing else if that is enough |
| Logger.CutIsLongest | server/src/vnctlsd/logger.py:47-56 | a message that has to be cut is cut at the longest of the four limits that fits, or to the ellipsis if none does |
| Logger.MessageReadsBack | server/src/vnctlsd/logger.py:28-36 | reading the escaped message as a JSON string (section 7 of RFC 8259) gives back exactly its UTF-16 code units |
| Logger.RecordIsOneLine | server/src/vnctlsd/logger.py:28-36 | whatever message and traceback hold, a record's only newline is its last character |
| Logger.RecordFits | server/src/vnctlsd/logger.py:28-56 | every record fits in 65536 bytes as soon as its other fields leave room for one ellipsis |
| Logger.RecordKeepsMessage | server/src/vnctlsd/logger.py:28-56 | with at most 17530 bytes of other fields every record fits and keeps at least the first min(len, 4000) characters |
| Logger.BoundIsTight | server/src/vnctlsd/logger.py:46-53 | with 17531 bytes or more a message of astral characters is cut to at most 1001 |
| Logger.WriteAll | server/src/vnctlsd/logger.py:17-25 | under any short writes, interrupts and failures the file grows by a prefix of the data, nothing twice, and by all of it exactly on normal return |
| Logger.AppendOnlyHandler.Emit | server/src/vnctlsd/logger.py:79-94 | each record is numbered once and appended whole exactly when the write completes |

## Left out

- PAM, ctypes, fork, exec, pty set-up, seccomp, landlock, setuid and signal delivery: foreign calls; a signal is an event that enqueues pushes.
- The Go client, the ssh bridge and the C relay loop: network plumbing with only easy properties.
- The watcher, socket validation and trusted-uid resolution: file system queries.
- `output.py` and the text of command output: the rendered text is an input of the dispatch.
- YAML, INI and JSON text: files arrive as finite trees and JSON transport is taken as faithful. Dictionary keys are strings and numbers are integers; dates and other kinds of YAML value are not modelled.
- What is read off a channel after `ipc_recv` has refused a message, on the push channel and on the RPC channel alike: the results speak of runs up to that point.
- A send or a reply that fails because the other end is gone: both processes are taken to be up.
- Inside `str.format`: what attributes, indices, conversions and format specs of a known name come to (left open by `StrFormat.RenderField`), and decimal digits outside ASCII in a field name.
- Unicode identifiers in placeholders, and `fnmatch` bracket expressions with reversed ranges.
- `shlex`: whether a command text can be split is a parameter.
- Signal handlers that nest: a handler's reload and pushes are one step, where CPython may run SIGHUP's handler inside SIGUSR2's between reading the configuration and sending it, which leaves a stale CONFIG_UPDATE last.
- Short `os.write` on a console: a write is taken whole or fails.
- Ipc.IpcRecv: assumes no descriptor is attached to header bytes two to five, as `ipc_send` never does; on a stream that breaks this, which descriptors arrive depends on how the header is cut.
- Short `sendmsg`: a message that carries descriptors is sent whole.
- Descriptor numbers: every descriptor has its own identity, so reuse of a number and a second `close` of a hub's descriptor are not modelled.
- Wall-clock times of a teardown: a timer is running, cancelled, fired or over.
- Access changing between a decision and the attachment that follows it: the code does not guarantee anything there.
- The registries' snapshots, the `list` and status commands and the session's `started` time: read-only reports.
- Push.ListenerDiesIff: does not cover SOCKET_APPEARED, whose validation asks the file system and the password database, and can raise too, for instance on a `trusted_uid` that is a number.
- What an echo that fails part way leaves on the client's screen.
- The farewell message sent to the clients of a hub that ends: it comes after the last broadcast and is not console data.
- Interleavings on class objects: the concurrent results are about steps on values (`HubSteps`, `Worker`, `PamBridge`), which use the same functions the objects' methods are proved to compute; two threads inside one method body at once are not modelled otherwise.
- Session.OnlyExplicitConsolesSurvive: assumes no pattern has an empty socket glob, which is the only kind that could match an empty path.
- Glob.MatchIffInstance: literals with `*`, `?` or `[` are excluded because the property fails for them; `Glob.MatchIffFiltered` covers them.
