# AIHelper in Dafny

AIHelper (`ah`) is a command-line tool and an MCP server. This project models the
parts of it that are protocols, codecs and rewriters, and proves what they promise
over every run or every input:

- the job registry and the race between `job.cancel`, the detached worker, expiry
  and eviction (`Jobs`, `JobProtocol`, `JobHistory`, `JobCalls`), the execution ids and
  the per-session index that cancellations use (`Executions`), the shutdown tracker
  and its waiters (`Shutdown`), and the event channel with its flush barriers
  (`Events`);
- plugin settings shared by handles with stale copies, under a lock file with a
  staleness bound (`PluginSettings`, `SettingsProtocol`);
- the Windows command line of the service launcher against the Microsoft rules for
  splitting it (`CommandLine`), the git porcelain parsers against a printer
  (`GitStatus`, `GitPrinting`, `GitGrammar`), the managed block of a rules file (`Rules`);
- the `run check` splitter and the secrets redactor over argv, each against a
  grammar of its command lines (`Argv`, `Passthrough`, `RunCheckGrammar`, `Redact`,
  `RedactGrammar`), the edit distance behind suggestions (`EditDistance`),
  the binary sniff (`Utf8Sniff`), and the canonical spelling of JSON schemas with
  what schemas accept (`Schema`, `SchemaMeaning`).

`Wrappers`, `Numerals` and `StringOrder` hold what several of these share.
`dafny verify dfyconfig.toml` checks everything.

## How to read it

An object whose methods update its fields is a class. Its methods are proved against
the transitions that the protocol modules interleave at the granularity of the
source's critical sections, or, where one call is several such steps (a settings
update, a shutdown), a lemma says that the steps taken alone do what the method does.
Clock readings, executor answers, I/O outcomes and observed results are parameters of
the steps, so every theorem is for all of them. Loops stay loops and are proved equal
to a recursive reading, about which the laws are then proved.

Some promises hold only under a condition. Each has the condition stated, as
something that can be checked beforehand, and a lemma showing that it is needed:

- The quoted program name of the launcher splits back only without a quote and, when
  it must be quoted, without a trailing backslash (`CommandLineRoundTrip`).
- A second strip finds nothing only when no marker followed the removed block
  (`StripLeavesNothing`).
- The header of `scripts/catalog_delta.py` says that both spellings of a nullable
  field accept the same documents. The code folds more than that: the fold keeps the
  meaning exactly under `FoldIsSafe` (`FoldExact`), which comes down to what the
  branch says of null where only annotations are overwritten (`ApartFoldExact`,
  `EnumRejectsNull`); a sibling `type` is overwritten (`SiblingTypeIsOverwritten`).
  `TextSafe` is a condition on the text alone (`TextSafeIsSafe`).
- `crates/ah-persist/src/lib.rs` promises one writer at a time. Whoever waits for a
  lock file reads its time, then the clock, and if they are 300 seconds apart removes
  the lock file that is there by then. Updates are kept as long as no such removal hits
  the lock of a transaction under way (`NoLostUpdates`); one that does can cost an
  update whenever the settings load (`UnlinkLosesIff`). None hits while no transaction
  crashes, and the age of its lock file and a waiter's time between its two readings
  stay below the bound together (`TimelyRunsKeepUpdates`). That is exact
  (`BoundsAreExact`): transactions that are short are not enough, because a waiter that
  stops between its readings removes the lock of a later one (`SlowWaiterLosesUpdate`).
  After a crash, two waiters in two processes can lose an update without any delay
  (`RacingWaitersLoseUpdate`), though not if each removed only the lock file that it
  looked at (`SeenRunsKeepUpdates`), within bounds that are exact too
  (`SeenBoundsAreExact`), because writing the marker renews the time of the lock file
  (`RenewedLockLosesUpdate`).
- `extract_last_cwd` does not skip the values of other options. What it answers is told
  exactly for every line (`RenderedScan`, `CwdTaken`), and when that is the last written
  `--cwd` (`CwdTakenIff`); `LookalikeIsTaken` is a line on which it is not.
- Version 2 of the git status format drops ignored paths, version 1 keeps them, and
  they agree exactly on lists without any (`BothFormatsAgree`). A branch named
  `(detached)` is read as a detached head (`BranchRoundTrip`).
- The doc comment of `strip` speaks of the one blank line that separated the block.
  The code removes the whole run of line breaks on both sides, and the model follows
  the code (`StripUndoesUpsert`).

## Model

| member | source | states |
|---|---|---|
| `Jobs.JobIdTextInjective` | crates/ah-mcp/src/jobs.rs:116 | the text of a job id determines its nonce and sequence number, so a table keyed by ids is one keyed by texts |
| `Jobs.JobIdTextReads` | crates/ah-mcp/src/jobs.rs:116 | the text is job- and the two numbers in lower-case hexadecimal, each padded to sixteen digits |
| `Jobs.Verdict` | crates/ah-mcp/src/jobs.rs:171-195 | a worker's verdict is never Running, is Succeeded exactly when the response says so, Cancelled exactly for a cancelled execution and TimedOut exactly for a timed-out one, with the response itself or the diagnostic of that error |
| `Jobs.OldestCompleted` | crates/ah-mcp/src/jobs.rs:338-348 | finds the physically completed record that is least by completion time and then by sequence; none exactly when none has completed |
| `Jobs.JobRegistry.constructor` | crates/ah-mcp/src/jobs.rs:100-108 | an empty table, the first sequence number, within its capacity |
| `Jobs.JobRegistry.TakeSequence` | crates/ah-mcp/src/jobs.rs:115 | hands out the next number and advances the counter by one |
| `Jobs.JobRegistry.CleanupLocked` | crates/ah-mcp/src/jobs.rs:318-324 | a record stays, unchanged, if and only if it has not physically completed or the clock is before its completion plus the time to live |
| `Jobs.JobRegistry.Reserve` | crates/ah-mcp/src/jobs.rs:110-145 | the eviction loop ends in a table that is the expired one with at most one oldest completed record less and the new record in it, Running, with the given tool and execution and nothing else set; refusal exactly when nothing can be evicted |
| `Jobs.JobRegistry.Rollback` | crates/ah-mcp/src/jobs.rs:147-149 | removes the reservation's record and nothing else |
| `Jobs.JobRegistry.RecordLifecycle` | crates/ah-mcp/src/jobs.rs:151-163 | the first half of attach: only that record's lifecycle changes |
| `Jobs.JobRegistry.TakeSnapshot` | crates/ah-mcp/src/jobs.rs:234-249 | reports tool, status, draining and response of a record that is present and not expired, and NotFound in every other case |
| `Jobs.JobRegistry.CancelTarget` | crates/ah-mcp/src/jobs.rs:257-267 | the reading half of cancel: NotFound exactly for an absent job, a target exactly for a Running one |
| `Jobs.JobRegistry.RecordCancellation` | crates/ah-mcp/src/jobs.rs:268-284 | the writing half of cancel: a record that is still Running becomes Cancelled, with the cancellation diagnostic of its execution, draining exactly if its lifecycle is; nothing else changes |
| `Jobs.JobRegistry.CompleteLogical` | crates/ah-mcp/src/jobs.rs:287-304 | status, response and draining of a record that is still Running become those of the verdict; nothing else changes |
| `Jobs.JobRegistry.CompletePhysical` | crates/ah-mcp/src/jobs.rs:306-316 | ends draining, stamps the completion once, then expires at the second clock reading exactly the records whose time to live is over |
| `JobProtocol.StepKeepsInv` | crates/ah-mcp/src/jobs.rs:110-324 | every atomic step of every caller keeps the invariant: capacity, consistent records, a live record for each start in progress |
| `JobProtocol.ReachableInv` | crates/ah-mcp/src/jobs.rs:110-324 | in every reachable state under every interleaving each record is consistent (a response exactly when not Running, draining only when Cancelled or TimedOut, physically completed only when terminal and not draining) and the table is within capacity |
| `JobProtocol.StepKeepsVerdict` | crates/ah-mcp/src/jobs.rs:221-304 | one step leaves a terminal status and response as they are, or removes the record for good |
| `JobProtocol.VerdictIsFinal` | crates/ah-mcp/src/jobs.rs:221-304 | the first terminal writer wins: across any run the status and response of a job that left Running never change until its record is gone, and then the id never returns |
| `JobProtocol.OnlyOwnerRemovesLive` | crates/ah-mcp/src/jobs.rs:110-149 | a record not physically completed leaves in a step if and only if the step is its own rollback, or the completion that stamps it with the time to live already over |
| `JobProtocol.AttachAlwaysFindsItsJob` | crates/ah-mcp/src/jobs.rs:164-166 | in every run the snapshot that attach expects to find is there |
| `JobProtocol.ReserveEvictsOldest` | crates/ah-mcp/src/jobs.rs:117-124 | a reservation loses at most one retained record, only at capacity, and then the least by (completion time, sequence) |
| `JobProtocol.RefusedOnlyWhenAllLive` | crates/ah-mcp/src/jobs.rs:125-129 | a reservation is refused if and only if every slot is held by a job whose starter or worker is still at hand |
| `JobHistory.RecordMoves` | crates/ah-mcp/src/jobs.rs:110-316 | what each step does to each record that it leaves in the table, field by field: which step sets the lifecycle, the completion time, and the verdict of a Running job, and to what |
| `JobHistory.RecordAppears` | crates/ah-mcp/src/jobs.rs:110-145 | a record appears only by the reservation of its own number, Running, with the tool and execution of that start |
| `JobHistory.RecordLeavesIff` | crates/ah-mcp/src/jobs.rs:110-324 | a step takes a record away if and only if it is its rollback, the record has expired, or the table is full and it is the least of the unexpired completed ones |
| `JobHistory.JobHasItsStart` | crates/ah-mcp/src/jobs.rs:110-145 | in every run each job in the table was started under its number with the tool and the execution it shows |
| `JobHistory.VerdictHasItsWriter` | crates/ah-mcp/src/jobs.rs:171-304 | in every run each verdict in the table was written by one earlier step of its worker or of an accepted cancellation, which found the job Running; a cancellation names the execution of the job |
| `JobHistory.AcceptedWasTold` | crates/ah-mcp/src/jobs.rs:251-284 | whoever writes a cancellation has been told by the executor that it accepted that execution |
| `JobHistory.AcceptedCancelSettles` | crates/ah-mcp/src/jobs.rs:251-284 | after an accepted cancellation has been recorded the job is never Running again, so no reply says so |
| `JobCalls.JobAlone` | crates/ah-mcp/src/jobs.rs:110-232 | a job from its start to the return of its handler, with nobody in between, ends as a record of its tool, execution, lifecycle, verdict and time, which nobody holds any more |
| `JobCalls.RollbackAlone` | crates/ah-mcp/src/jobs.rs:147-149 | a start that gives its reservation back leaves only the number used |
| `JobCalls.CancelAlone` | crates/ah-mcp/src/jobs.rs:251-285 | a cancellation that the executor accepts, with nobody in between, replies with the job cancelled |
| `JobCalls.CancelDoesNothing` | crates/ah-mcp/src/jobs.rs:251-285 | one that is refused, or of a job with a verdict, leaves the job as it is |
| `JobCalls.CancelFindsNothing` | crates/ah-mcp/src/jobs.rs:260-264 | one of an unknown or expired job is over at once |
| `JobCalls.ExpiresInTime` | crates/ah-mcp/src/jobs.rs:318-324 | a reader finds a completed job if and only if less than the time to live has passed |
| `Executions.ProtocolInjective` | crates/ah-mcp/src/mapping.rs:441-446 | numbers and strings of any content give different protocol request ids |
| `Executions.IdTexts` | crates/ah-mcp/src/server.rs:194-200 | the text of an execution id: the tag and text of its request, or of a job, and its number in decimal |
| `Executions.RenderInjective` | crates/ah-mcp/src/server.rs:194-200 | the text of an execution id determines request, kind and number, whatever the client put into its request id |
| `Executions.Session.constructor` | crates/ah-mcp/src/server.rs:120-128 | a new session lists nothing |
| `Executions.Session.Begin` | crates/ah-mcp/src/server.rs:436-455 | appends the id to the list of its own request; other requests keep theirs |
| `Executions.Session.Finish` | crates/ah-mcp/src/server.rs:517-532 | removes the id from its list, and the list from the index when it becomes empty |
| `Executions.WithoutOne` | crates/ah-mcp/src/server.rs:517-532 | the other ids of the list stay, in their order |
| `Executions.Session.CancelRequest` | crates/ah-mcp/src/server.rs:418-434 | asks for every listed execution of the request, and says true exactly when one accepted |
| `Executions.StepKeepsInv` | crates/ah-mcp/src/server.rs:436-532 | each begin, push and drop in any session keeps every index equal to its live guards |
| `Executions.ReachableInv` | crates/ah-mcp/src/server.rs:418-532 | in every reachable state each session lists exactly its live guards, once each, under their own request, with no empty list |
| `Executions.IssuedIdsDistinct` | crates/ah-mcp/src/server.rs:194-200 | all execution ids issued in a run, direct and detached and across sessions, are pairwise different texts |
| `Executions.CancelTargetsOwnRequest` | crates/ah-mcp/src/server.rs:418-434 | in every reachable state a cancellation asks for exactly that session's live executions of that request |
| `Executions.CallAlone` | crates/ah-mcp/src/server.rs:436-532 | one call, with nobody in between, is listed last of its request under the next number, and leaves no trace in the index |
| `Executions.OthersAlone` | crates/ah-mcp/src/server.rs:194-200 | a new session lists nothing, and a job takes the next number |
| `Shutdown.ShutdownTracker.constructor` | crates/ah-mcp/src/shutdown.rs:39-45 | not begun, nobody notified |
| `Shutdown.ShutdownTracker.Begin` | crates/ah-mcp/src/shutdown.rs:47-51 | the first call sets the start time and notifies; later calls change nothing |
| `Shutdown.ShutdownAlone` | crates/ah-mcp/src/transport.rs:111-123 | the interleaved steps of one begin_shutdown, taken without interruption, do what BeginShutdown does |
| `Shutdown.ShutdownTracker.Remaining` | crates/ah-mcp/src/shutdown.rs:53-57 | the grace period before the start, then what is left of it, and zero once start plus grace has passed |
| `Shutdown.HttpLifecycleController.constructor` | crates/ah-mcp/src/transport.rs:97-109 | nothing started, closed or cancelled |
| `Shutdown.HttpLifecycleController.BeginShutdown` | crates/ah-mcp/src/transport.rs:111-123 | the first call begins, closes and cancels; every other call changes nothing and says so |
| `Shutdown.StepKeepsInv` | crates/ah-mcp/src/shutdown.rs:38-74 | every step of every waiter, shutdown caller and transport keeps the invariant |
| `Shutdown.ReachableInv` | crates/ah-mcp/src/shutdown.rs:38-74 | every reachable state satisfies it: a parked waiter is woken or the notification is still to come |
| `Shutdown.NoLostWakeup` | crates/ah-mcp/src/shutdown.rs:59-74 | once shutdown has begun, either its notification is still being sent or no waiter is parked unwoken |
| `Shutdown.WaiterNeverStuck` | crates/ah-mcp/src/shutdown.rs:59-74 | from then on every waiter that has not expired can move, or sleeps until start plus grace |
| `Shutdown.WaiterStepsBounded` | crates/ah-mcp/src/shutdown.rs:59-74 | and it takes a bounded number of its own steps to get there |
| `Shutdown.RemainingNeverGrows` | crates/ah-mcp/src/shutdown.rs:53-57 | along any run the remaining time never increases |
| `Shutdown.TimeoutOnlyAfterGrace` | crates/ah-mcp/src/transport.rs:315-330 | a transport reports a timeout only when start plus grace has passed |
| `Shutdown.CancelledImpliesClosed` | crates/ah-mcp/src/transport.rs:111-123 | a cancelled token means that the tracker has begun and the executor is closed |
| `Shutdown.OneShutdownWins` | crates/ah-mcp/src/transport.rs:111-123 | of all callers of begin_shutdown at most one is told that it won, and once all have returned one of them was |
| `Shutdown.WaiterParks` | crates/ah-mcp/src/shutdown.rs:59-74 | before the start a waiter enables its future and then cannot move |
| `Shutdown.NotifyWakes` | crates/ah-mcp/src/shutdown.rs:47-51 | the notification wakes every parked and enabled waiter, and of the futures just made those that it reached |
| `Shutdown.WokenTimesOut` | crates/ah-mcp/src/transport.rs:315-330 | a woken waiter sleeps until start plus grace, and then its transport reports the timeout |
| `Shutdown.SleeperWaits` | crates/ah-mcp/src/shutdown.rs:61-64 | a sleeper moves if and only if start plus grace has come |
| `Shutdown.TransportComesFirst` | crates/ah-mcp/src/transport.rs:323-329 | the result of a transport that is ready comes before the timeout |
| `Shutdown.OtherAlone` | crates/ah-mcp/src/shutdown.rs:98-104 | a transport that shuts down by itself begins, notifying if it is the first, closes and leaves, and cancels nothing |
| `Events.EventDispatcher.constructor` | crates/ah-mcp/src/events.rs:32-34 | an empty channel of the given capacity |
| `Events.EventDispatcher.TrySend` | crates/ah-mcp/src/events.rs:61-77 | a message is taken, last in the queue or by the waiting worker, exactly when a live worker's queue has room, or there is no capacity and the worker is waiting; then it is the last in flight, and otherwise nothing changes |
| `Events.EventDispatcher.Take` | crates/ah-mcp/src/events.rs:38 | the worker takes the oldest message, which is the step of the model |
| `Events.EventDispatcher.Finish` | crates/ah-mcp/src/events.rs:39-50 | delivering or acknowledging is the step of the model; a panic of the sink is caught, so it is the same step |
| `Events.EventDispatcher.Drain` | crates/ah-mcp/src/events.rs:38-52 | hands every queued event to the sink in order and acknowledges every barrier |
| `Events.StepKeepsInv` | crates/ah-mcp/src/events.rs:31-93 | every step of callers, worker and flushes keeps order, capacity and the standing of barriers |
| `Events.EventsConserved` | crates/ah-mcp/src/events.rs:31-93 | in every reachable state the accepted events are the delivered ones followed by those in flight, in order, and the queue is within capacity |
| `Events.AcceptedOnlyGrows` | crates/ah-mcp/src/events.rs:61-77 | accepted events are never withdrawn and barriers never move |
| `Events.ConfirmedFlushDelivered` | crates/ah-mcp/src/events.rs:79-93 | a flush that returned true has seen every event accepted before it handed to the sink |
| `Events.DispatchAccepts` | crates/ah-mcp/src/events.rs:61-77 | an event is accepted, last in line, exactly when the channel has room for it, and dropped otherwise |
| `Events.FlushStarts` | crates/ah-mcp/src/events.rs:79-91 | a flush waits, its barrier last in line, exactly when it has time and the channel has room, and otherwise returns false |
| `Events.WaitingFlushCanConfirm` | crates/ah-mcp/src/events.rs:79-93 | from every reachable state the worker alone can come to the barrier of a waiting flush, which is then confirmed with every accepted event delivered |
| `Events.FlushGivesUp` | crates/ah-mcp/src/events.rs:79-93 | a waiting flush can give up at any time, and can be confirmed if and only if its barrier has been reached |
| `CommandLine.AppendQuoted` | src/bin/ah-mcp-service.rs:169-204 | appends the quoted value, and fails exactly on a NUL |
| `CommandLine.AppendEscaped` | src/bin/ah-mcp-service.rs:186-202 | the backslash-counting loop writes the escaped form |
| `CommandLine.QuotedWhen` | src/bin/ah-mcp-service.rs:177-184 | quotes are put around exactly the values that are empty or hold a space, a tab or a quote |
| `CommandLine.CommandLine` | src/bin/ah-mcp-service.rs:158-167 | fails exactly when a NUL stands in the program or an argument; otherwise its only NUL is the terminator |
| `CommandLine.EscapedReadsBack` | src/bin/ah-mcp-service.rs:186-202 | inside quotes what was escaped reads back, whatever the pending backslashes |
| `CommandLine.QuotedReadsBack` | src/bin/ah-mcp-service.rs:169-204 | any argument, quoted or not, reads back as itself before a blank or the end |
| `CommandLine.ArgumentsRoundTrip` | src/bin/ah-mcp-service.rs:162-165 | splitting the written arguments by the Microsoft rules returns exactly the list, for every list |
| `CommandLine.CommandLineRoundTrip` | src/bin/ah-mcp-service.rs:158-167 | the whole line splits back into program and arguments if and only if the program has no quote and, when quoted, no trailing backslash (argv[0] knows no escapes) |
| `CommandLine.LauncherLineRoundTrip` | src/bin/ah-mcp-service.rs:136-138 | so the launcher's own line, of a quote-free path ending in ah.exe, always splits back |
| `CommandLine.QuotedProgramIsLost` | src/bin/ah-mcp-service.rs:160 | a program name for which it does not |
| `CommandLine.QuotedSize` | src/bin/ah-mcp-service.rs:169-204 | a quoted argument takes at most 2n + 2 units |
| `Rules.Find` | crates/ah-ai/src/rules.rs:38-39 | the first occurrence, or none anywhere |
| `Rules.ManagedMarkersAreGood` | crates/ah-ai/src/rules.rs:7-8 | the real markers have the shape that the laws ask of markers |
| `Rules.LocateInserted` | crates/ah-ai/src/rules.rs:37-45 | a well-formed block behind marker-free text is what is located, whatever follows it |
| `Rules.UpsertWrites` | crates/ah-ai/src/rules.rs:48-74 | fails exactly on unpaired markers, and otherwise writes the block between the two sides |
| `Rules.UpsertInstalls` | crates/ah-ai/src/rules.rs:54-64 | into text without markers: behind the text and one blank line, or at the start of an empty file, and ended by a newline |
| `Rules.UpsertReplaces` | crates/ah-ai/src/rules.rs:66-73 | between the texts around it the old block is replaced and Updated reported, or Unchanged for the same block |
| `Rules.UpsertReports` | crates/ah-ai/src/rules.rs:48-74 | Installed if and only if no marker stands in the text, and an error if and only if markers stand there that enclose no block |
| `Rules.UpsertKeepsOutside` | crates/ah-ai/src/rules.rs:48-74 | in the result the located block is the given one and all text outside it is what it was, even where user text ends in part of a marker |
| `Rules.UpsertIdempotent` | crates/ah-ai/src/rules.rs:66-68 | a second upsert of the same block reports Unchanged and returns the same text |
| `Rules.UpsertOverwrites` | crates/ah-ai/src/rules.rs:69-73 | upserting a second block gives what upserting it alone gives |
| `Rules.StripUndoesUpsert` | crates/ah-ai/src/rules.rs:77-92 | stripping after installing into marker-free text gives that text with its trailing CR/LF run replaced by one newline, or nothing |
| `Rules.StripRejoins` | crates/ah-ai/src/rules.rs:77-92 | what stripping leaves: the two sides without the line breaks next to the block, one blank line apart, ended by a newline, or the one side that there is |
| `Rules.StripReports` | crates/ah-ai/src/rules.rs:77-80 | NotPresent if and only if no marker stands in the text, and an error if and only if markers stand there that enclose no block |
| `Rules.StripKeepsVisible` | crates/ah-ai/src/rules.rs:77-92 | stripping keeps every character outside the block, in order, except newlines |
| `Rules.StripLeavesNothing` | crates/ah-ai/src/rules.rs:77-92 | a second strip reports NotPresent if and only if no marker stood behind the removed block |
| `Rules.RenderedIsWellFormed` | crates/ah-ai/src/rules.rs:116-170 | a body without an end marker renders to a block that the laws apply to, with each marker on a line of its own |
| `GitStatus.SplitOnce` | crates/ah-domains/src/git_status.rs:200-203 | splits around the first separator, or reports that there is none |
| `GitStatus.ReadField` | crates/ah-domains/src/git_status.rs:111-120 | the cursor loop reads what the next NUL ends, and fails exactly without one |
| `GitStatus.ParsePorcelainV1` | crates/ah-domains/src/git_status.rs:62-92 | the cursor loop parses as the recursive reading does, errors included |
| `GitStatus.ParseV1Concat` | crates/ah-domains/src/git_status.rs:62-92 | version 1 parsing distributes over concatenation behind any accepted input |
| `GitStatus.ParseV1Terminated` | crates/ah-domains/src/git_status.rs:111-120 | accepted input is empty or ends in a NUL |
| `GitStatus.ParsePorcelainV2` | crates/ah-domains/src/git_status.rs:28-60 | the version 2 loop parses as the recursive reading does, errors included |
| `GitStatus.ParseV2Concat` | crates/ah-domains/src/git_status.rs:28-60 | version 2 parsing continues behind accepted input from the snapshot it left |
| `GitStatus.ParseV2Terminated` | crates/ah-domains/src/git_status.rs:111-120 | accepted input is empty or ends in a NUL |
| `GitPrinting.V1RoundTrip` | crates/ah-domains/src/git_status.rs:62-92 | parsing the version 1 print of any well-formed entry list returns it |
| `GitPrinting.EntryFromRecord` | crates/ah-domains/src/git_status.rs:143-162 | one version 2 record reads back as its entry, whatever the skipped fields hold |
| `GitPrinting.V2RoundTrip` | crates/ah-domains/src/git_status.rs:28-60 | parsing the version 2 print of any well-formed entry list appends all of it but the ignored paths |
| `GitPrinting.CountsRoundTrip` | crates/ah-domains/src/git_status.rs:185-198 | ahead and behind counts within 64 bits read back |
| `GitPrinting.BranchRoundTrip` | crates/ah-domains/src/git_status.rs:122-141 | the branch headers read back, detached or not, with or without upstream and counts; exactly, if and only if the branch is not itself named (detached) |
| `GitPrinting.BothFormatsAgree` | crates/ah-domains/src/git_status.rs:28-92 | the whole version 2 output reads back, and both versions give the same entries if and only if no path is ignored |
| `GitPrinting.CountStatuses` | crates/ah-domains/src/git_status.rs:94-109 | each count is the number of entries of its kind |
| `GitGrammar.V1Exact` | crates/ah-domains/src/git_status.rs:62-92 | version 1 output is read as a list of entries if and only if it is that list printed |
| `GitGrammar.V1Refuses` | crates/ah-domains/src/git_status.rs:62-92 | which error each refused record gives: too short, or a missing NUL |
| `GitGrammar.HeadersRead` | crates/ah-domains/src/git_status.rs:122-141 | a header of any other key with a value says nothing, and one without a value is refused |
| `GitGrammar.CountsRead` | crates/ah-domains/src/git_status.rs:132-136 | counts with their signs are taken, whatever follows them |
| `GitGrammar.CountsRefused` | crates/ah-domains/src/git_status.rs:185-198 | counts without their sign, that are no number of 64 bits, or that are missing are refused |
| `GitGrammar.EntryTaken` | crates/ah-domains/src/git_status.rs:143-162 | a record with all its fields and a two-letter status gives that status, dots as spaces, and the rest as its path |
| `GitGrammar.EntryRefused` | crates/ah-domains/src/git_status.rs:148-153 | every other record is refused |
| `GitGrammar.RecordsRead` | crates/ah-domains/src/git_status.rs:28-60 | which records there are, by their first letters and with how many fields; every other one is refused |
| `EditDistance.ComputeDistance` | src/cli/suggest.rs:111-128 | the two-row loop computes the recursive Levenshtein distance |
| `EditDistance.RowIsDistance` | src/cli/suggest.rs:114-126 | each table entry is the distance of the two prefixes |
| `EditDistance.DistanceIsShortestScript` | src/cli/suggest.rs:111-128 | the distance is the cost of a cheapest insert, delete and substitute script |
| `EditDistance.DistanceZeroIffEqual` | src/cli/suggest.rs:111-128 | zero exactly for equal texts |
| `EditDistance.DistanceSymmetric` | src/cli/suggest.rs:111-128 | symmetric |
| `EditDistance.TriangleInequality` | src/cli/suggest.rs:111-128 | triangle inequality, by composing scripts |
| `EditDistance.DistanceBounds` | src/cli/suggest.rs:111-128 | between the difference of the lengths and the longer length |
| `Argv.SkipHostOptions` | src/cli/passthrough.rs:137-145 | the loop stops at the first token that is not a host option |
| `Argv.SkipHostLocal` | src/cli/passthrough.rs:137-145 | where it stops depends on nothing behind that token |
| `Passthrough.FindLayout` | src/cli/passthrough.rs:86-135 | the scan finds the layout that the recursive reading gives |
| `Passthrough.LayoutShape` | src/cli/passthrough.rs:86-135 | domain, prefix end and child start are in order and within the vector |
| `Passthrough.LayoutLocal` | src/cli/passthrough.rs:86-135 | replacing everything behind the first child token leaves the layout as it is |
| `Passthrough.ExtractLastCwd` | src/cli/passthrough.rs:163-190 | the scan gives the last --cwd before the child, or fails on one without a value; without a child it reads the whole line |
| `Passthrough.CwdLocal` | src/cli/passthrough.rs:163-190 | nothing in the child's part changes it |
| `Passthrough.CwdByPositions` | src/cli/passthrough.rs:169-189 | what the scan answers, by positions: the last value or --cwd= text before the first -- that is no value itself, and an error exactly when a value is due at the end |
| `Passthrough.AnswersUnique` | src/cli/passthrough.rs:169-189 | there is one such answer |
| `Passthrough.ToStringsReads` | src/cli/passthrough.rs:75-84 | succeeds exactly when all tokens are UTF-8, and keeps each one |
| `Passthrough.Masked` | src/cli/passthrough.rs:65-70 | keeps the length and the prefix, and numbers the placeholders |
| `Passthrough.MaskedText` | src/cli/passthrough.rs:68-70 | the placeholders are numbered from zero in decimal |
| `Passthrough.Prepare` | src/cli/passthrough.rs:57-73 | on success the child's slots are masked in place and the argv is returned; on failure, or without a layout, nothing changes |
| `Passthrough.MaskedKeepsLayout` | src/cli/passthrough.rs:65-70 | the masked vector has the same layout |
| `Passthrough.NormalisedKeepsSplit` | src/cli/passthrough.rs:62-64 | writing -- before the child splits where the original did |
| `Passthrough.PreparedIsNormalised` | src/cli/passthrough.rs:62-72 | the prepared argv is, token by token, prefix, -- and the original child suffix |
| `RunCheckGrammar.RenderedLayout` | src/cli/passthrough.rs:86-135 | any command line put together from host options, run, host options, check, options and child is split back exactly there |
| `RunCheckGrammar.LayoutIffRendered` | src/cli/passthrough.rs:86-135 | and a command line has a layout if and only if it can be put together so |
| `RunCheckGrammar.OptionIffOpens` | src/cli/passthrough.rs:137-161 | an option is read exactly where a token spells a listed name, alone or with = and a value |
| `RunCheckGrammar.RenderedScan` | src/cli/passthrough.rs:163-190 | for every line put together so, exactly what the scan answers, told from its options alone |
| `RunCheckGrammar.CwdTaken` | src/cli/passthrough.rs:163-190 | where no other value is the bare word --cwd, the scan takes the last directory among written --cwd options and lookalike values, up to a value that looks like the end |
| `RunCheckGrammar.CwdTakenIff` | src/cli/passthrough.rs:163-190 | there the last written --cwd is taken if and only if one directory is both the last written anywhere and the last written or resembled before a value that looks like the end, or there is neither |
| `RunCheckGrammar.RenderedCwd` | src/cli/passthrough.rs:163-190 | so it is taken on lines without such values, and never one of the child's |
| `RunCheckGrammar.LookalikeIsTaken` | src/cli/passthrough.rs:184-186 | a line without any --cwd on which the value of --timeout-secs is taken for one |
| `RunCheckGrammar.OtherLinesCwd` | src/cli/passthrough.rs:163-190 | on every line that is not put together so, that answer is the one for the whole line |
| `Redact.SecretActionIndex` | src/cli/redact.rs:62-83 | the two loops find it |
| `Redact.RedactSecretCommand` | src/cli/redact.rs:8-59 | the in-place loop rewrites the arguments as the recursive walk does, and nothing on a line without an action |
| `Redact.RedactionKeepsPrefix` | src/cli/redact.rs:8-59 | the length and everything up to the action are kept |
| `Redact.StepIdempotent` | src/cli/redact.rs:19-58 | a rewritten argument is left alone, with the same flags after it |
| `Redact.RedactionIdempotent` | src/cli/redact.rs:8-59 | redacting twice is redacting once |
| `Redact.FollowerIsHidden` | src/cli/redact.rs:25-31 | the argument after an unknown option never shows, even one that looks like an option |
| `Redact.LogShowsExactly` | src/cli/redact.rs:8-59 | two command lines give the same output if and only if they agree up to the action and, behind it, differ only in what is hidden |
| `RedactGrammar.RedactedIsHidden` | src/cli/redact.rs:8-83 | of any command line put together from its parts the redactor shows the same parts with private values, private assignments and later arguments hidden, and nothing else changed |
| `RedactGrammar.ActionIffTyped` | src/cli/redact.rs:62-83 | a command line has an action if and only if it is put together from such parts, the last option perhaps without its value |
| `RedactGrammar.OtherLinesUnchanged` | src/cli/redact.rs:9-12 | every other command line comes out as it went in |
| `Utf8Sniff.ValidIffUtf8` | crates/ah-domains/src/safety.rs:91-94 | the validator accepts exactly the encodings of sequences of scalar values |
| `Utf8Sniff.TextIffPrefixOfText` | crates/ah-domains/src/safety.rs:83-95 | a prefix is not called binary if and only if it is the beginning of some NUL-free UTF-8 text |
| `Utf8Sniff.TruncatedTextIsText` | crates/ah-domains/src/safety.rs:83-95 | no truncation of NUL-free UTF-8 text is called binary |
| `Utf8Sniff.BinaryStaysBinary` | crates/ah-domains/src/safety.rs:83-95 | reading on never turns a binary prefix into text |
| `PluginSettings.KeyIdempotent` | src/plugin_settings.rs:148-150 | trimming and lower-casing twice is doing it once |
| `PluginSettings.NormalizeReads` | src/plugin_settings.rs:132-150 | which name a spelling stands for: what is between the blanks, each letter A to Z moved 32 codes up; nothing is an empty name, and any other character an invalid one |
| `PluginSettings.EveryTextHasACore` | src/plugin_settings.rs:148-150 | every text is such a spelling |
| `PluginSettings.CharacterCodes` | src/plugin_settings.rs:138-141 | blanks and domain characters by their code points |
| `PluginSettings.LoadFileReads` | src/plugin_settings.rs:25-69 | a missing or blank file is empty, a store of version 1 holds the names its entries stand for, and each other file gives its own error |
| `PluginSettings.NormalizeFixpoints` | src/plugin_settings.rs:132-146 | normalisation always lands on a fixed point, and the fixed points are the non-empty lower-case names |
| `PluginSettings.LoadAfterSave` | src/plugin_settings.rs:123-129 | loading what was saved gives back the saved set |
| `PluginSettings.LoadIsNormal` | src/plugin_settings.rs:25-69 | every loaded name is normal |
| `PluginSettings.Mutate` | src/plugin_settings.rs:84-104 | a mutation reports a change exactly when the set differs |
| `PluginSettings.MutationIsSeen` | src/plugin_settings.rs:79-104 | after a mutation exactly the names of its key, in any spelling, answer differently |
| `PluginSettings.Settings.DisableDomain` | src/plugin_settings.rs:84-87 | inserts the normalised name, or fails and changes nothing |
| `PluginSettings.Settings.EnableDomain` | src/plugin_settings.rs:89-92 | removes the normalised name, or fails and changes nothing |
| `PluginSettings.Settings.ClearDomains` | src/plugin_settings.rs:98-104 | empties the set and reports whether that was a change |
| `PluginSettings.Settings.Update` | src/plugin_settings.rs:106-121 | the result depends on the reloaded file and not on the handle's copy; the copy is replaced only on success and the file only when something changed |
| `SettingsProtocol.StepKeepsInv` | src/plugin_settings.rs:106-121 | every step of every handle keeps mutual exclusion and the file equal to the replay, if it removes no lock of a transaction under way |
| `SettingsProtocol.NoLostUpdates` | src/plugin_settings.rs:106-121 | after any run in which no waiter removes the lock of a transaction under way, the stored set is the replay of the successful mutations in commit order, however stale the handles were |
| `SettingsProtocol.TimelyRunsKeepUpdates` | crates/ah-persist/src/lib.rs:37-47 | that is so when no transaction crashes, and the age of a lock file under way and the time of a waiter from reading the file time to reading the clock stay below 300 seconds together |
| `SettingsProtocol.BoundsAreExact` | crates/ah-persist/src/lib.rs:178-191 | a bound on those ages and one on that time keep every update of every run without crashes in transactions if and only if they add up to at most 300 seconds |
| `SettingsProtocol.SeenRunsKeepUpdates` | crates/ah-persist/src/lib.rs:178-191 | crashes or not, updates are kept when every removal hits the lock file that was looked at and the two bounds add up to at most 300 seconds, or twice the first is at most 301 |
| `SettingsProtocol.SeenBoundsAreExact` | crates/ah-persist/src/lib.rs:178-191 | and for such removals no other bounds do |
| `SettingsProtocol.CommittedHandleMatchesStore` | src/plugin_settings.rs:119-120 | under the same condition a successful handle ends up remembering exactly what is stored |
| `SettingsProtocol.MemoryChangesOnlyByCommit` | src/plugin_settings.rs:106-121 | nothing but a successful update changes what a handle remembers |
| `SettingsProtocol.StoredNamesAreNormal` | src/plugin_settings.rs:52-63 | every name in a file that loads stays a fixed point of normalisation |
| `SettingsProtocol.TransactionIsUpdate` | crates/ah-persist/src/lib.rs:37-47 | the steps of one transaction, uninterrupted, do what Update does |
| `SettingsProtocol.UnlinkLosesIff` | crates/ah-persist/src/lib.rs:178-191 | from any state that keeps the invariant, a removal can cost an update with no further removal if and only if it hits the lock of a transaction under way, in any phase, and the settings load |
| `SettingsProtocol.SlowWaiterLosesUpdate` | crates/ah-persist/src/lib.rs:179-188 | for any two names and any such ages and times that reach the bound together, a run without crashes in which the waiter looks at one lock file, removes the next and an update is lost |
| `SettingsProtocol.RenewedLockLosesUpdate` | crates/ah-persist/src/lib.rs:131-138 | the same with the removal hitting the lock file that was looked at, before its marker renewed its time |
| `SettingsProtocol.LateWriterLosesUpdate` | crates/ah-persist/src/lib.rs:178-191 | a run without crashes and with a waiter that loses no time, for any two names, in which a transaction outlives the bound and an update is lost |
| `SettingsProtocol.RacingWaitersLoseUpdate` | crates/ah-persist/src/lib.rs:178-191 | a run in which nobody takes any time, for any two names, in which two waiters on the lock of a crashed transaction lose an update |
| `StringOrder.LeqReads` | scripts/catalog_delta.py:51 | strings are compared by the code where they first differ, and a beginning comes before what it begins |
| `StringOrder.SortUnique` | scripts/catalog_delta.py:51 | sorting depends only on which strings are listed, and leaves an ascending list alone |
| `Schema.SortedKeepsItems` | scripts/catalog_delta.py:51-52 | a sorted list has the same members |
| `Schema.SortableIff` | scripts/catalog_delta.py:51-52 | sorting raises unless any two items of the list are strings |
| `Schema.FoldIsCanonical` | scripts/catalog_delta.py:65-84 | folding canonical fields leaves nothing more to fold |
| `Schema.ResultIsCanonical` | scripts/catalog_delta.py:47-61 | whatever does not raise ends in a canonical form |
| `Schema.CanonicalIdempotent` | scripts/catalog_delta.py:47-61 | canonicalising twice is canonicalising once, and its fixed points are exactly the canonical forms |
| `SchemaMeaning.FoldKeepsMeaning` | scripts/catalog_delta.py:65-84 | a safe fold accepts the same documents |
| `SchemaMeaning.ApartFoldExact` | scripts/catalog_delta.py:65-84 | where branch and siblings share annotations only, a fold is safe if and only if the siblings reject null, or the branch is not the null type and its other keywords let null through |
| `SchemaMeaning.PlainFoldExact` | scripts/catalog_delta.py:65-84 | with annotation siblings the branch alone decides |
| `SchemaMeaning.TypeSpecificFoldIsSafe` | scripts/catalog_delta.py:65-84 | a branch of a non-null type with type-specific keywords, sharing annotations only with its siblings, is safe to fold |
| `SchemaMeaning.FoldExact` | scripts/catalog_delta.py:65-84 | a fold accepts the same documents if and only if it says the same of null and what the branch accepts satisfies the siblings it overwrites |
| `SchemaMeaning.CanonicalKeepsMeaning` | scripts/catalog_delta.py:47-84 | a schema whose folds are safe and its canonical form accept the same documents |
| `SchemaMeaning.EqualSpellingsAcceptTheSame` | scripts/catalog_delta.py:47-84 | so equal canonical forms mean equal accepted documents |
| `SchemaMeaning.TextSafeIsSafe` | scripts/catalog_delta.py:47-84 | a schema whose folds have, as text, a branch of a non-null type with type-specific keywords that shares annotations only with its siblings is safe, whatever its unlisted keywords mean that let null through |
| `SchemaMeaning.TextSpellingsAcceptTheSame` | scripts/catalog_delta.py:47-84 | so for such schemas equal canonical forms mean equal accepted documents |
| `SchemaMeaning.RequiredOrderIsNoise` | scripts/catalog_delta.py:7-8 | the order of required does not show in the canonical form |
| `SchemaMeaning.NullableSpellingsAgree` | scripts/catalog_delta.py:9-10 | both spellings of a nullable schema, in either order of the branches, have one canonical form |
| `SchemaMeaning.SiblingTypeIsOverwritten` | scripts/catalog_delta.py:82-83 | a sibling type is overwritten, and null becomes accepted: not a safe fold |
| `SchemaMeaning.EnumRejectsNull` | scripts/catalog_delta.py:79-83 | a branch with an enum without null is not safe to fold |

## Left out

- JobProtocol.OnlyOwnerRemovesLive: takes the stamp and the expiry pass of one physical completion as one step, because they share a critical section.
- The u64 counters for jobs and executions do not wrap here; they would after 2^64 steps.
- Events, telemetry and completion hooks that a finished job dispatches; only the registry's own state is followed.
- The executor's admission, deadlines and draining: its answers are free parameters.
- A session that closes while its calls run: `Drop` of a server cancels them, and the index is not used again.
- Shutdown: signals, the stdio reader and the HTTP routes that call `begin_shutdown`.
- GitStatus.ParsePorcelainV1: paths stay bytes, because the lossy decoding to text is not injective; the trimmed two-letter status string is not kept beside the two letters.
- GitStatus.ParsePorcelainV2: likewise; error values stand for the messages.
- Rules.RenderedIsWellFormed: the prose lines of the block are an arbitrary body without an end marker.
- Reading, writing and deleting rules files.
- Passthrough.ExtractLastCwd: gives the token, not the resolved directory.
- RunCheckGrammar.CwdTakenIff: asks that no other value be the bare word `--cwd`, which makes the scan take the next token; `RunCheckGrammar.RenderedScan` covers those lines too.
- Events.EventDispatcher.TrySend: the receiver is gone only if its thread was never started, since nothing else drops it.
- Argv tokens that are not UTF-8 carry any lossy reading, rather than one computed from their bytes.
- Utf8Sniff.ValidIffUtf8: the standard library's validator is modelled from its documented results, since it is not part of the repository.
- File metadata, size limits and symlink decisions around the sniff.
- PluginSettings.LoadAfterSave: the ascending order of the saved list is not kept; only its members are.
- The JSON text of the settings file: a file is what parsing it yields.
- The in-process mutex beside the lock file, which only forbids interleavings that the theorems allow; the losing runs are of handles in different processes.
- SettingsProtocol.NoLostUpdates: one round of the waiting loop is a step that creates the lock file, or three that read its time, read the clock and remove a lock file; a timeout of the loop is no step at all.
- SettingsProtocol.BoundsAreExact: file times and readings of the clock come from one clock that never goes back.
- Schema.CanonicalIdempotent: sorting a list of numbers or of lists, which Python orders and JSON Schema does not allow in `required` or `type`, counts as raising.
- SchemaMeaning.CanonicalKeepsMeaning: the keywords of a node beyond the listed ones, references included, have together any fixed meaning that depends on their own values and the document, and those values must be untouched by canonicalising; so `unevaluatedItems` and `unevaluatedProperties`, which also read listed keywords, are not followed.
- SchemaMeaning.FoldExact: asks that no keyword of the merged node read others beside it than before (`Decoupled`).
- SchemaMeaning.EqualSpellingsAcceptTheSame: the same limits on keywords.
- Loading, diffing and printing catalogs.
- Suggestion candidates and their ranking, and the launcher's retry loop: short selections over parts that are not modelled.
- The command trees, catalogs, plugins, secret vault, updater and HTTP transport.
