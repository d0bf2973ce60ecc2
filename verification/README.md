# Verification models of the Noderax agent

This project models the parts of the Noderax agent in which state, loops and interleavings decide what
happens, and proves what they are meant to keep. To verify all of it, call `dafny verify dfyconfig.toml` here.

- **Log scanning** (`LogLines`, `LogReaders`, `LogScanner`, `LogMonitor`, `LogAnomalies`). A file is a sequence
  of bytes. The sliding-window tail shifts an array in place; the offset reader is a loop over its budgets; `scanFile`
  chooses between them. A monitored log is a run of appends, replacements and scans, where each scan gets the
  cursor of the one before and limits of its own, and the file may grow or be replaced between its `stat` and
  its read.
- **Tasks** (`TaskProtocol`, `LogSink`, `Polling`). Dispatchers, one handler for each accepted dispatch, and
  control watchers take steps in any order; so do the two output scanners, the handler and the log sink of one
  task. The claim loop runs against any sequence of answers. A run is any list of steps, and a step that is not
  enabled changes nothing, so the theorems speak of every interleaving.
- **Outbound queue** (`OutboundQueue`). Any number of producers and writers on a bounded channel, with the
  counter updated after the channel operation and the high-water mark raised by compare-and-swap.
- **Terminal sessions** (`TerminalSessions`, `PtyPump`). The session map as a step machine; the output pump
  as a function of what it receives and as a class with the shared read buffer and the payload arrays.
- **Releases** (`Changelog`, `ReleaseText`, `Catalog`). The changelog parser and the notes printer that it reads
  back; changelogs as people write them; the catalog merge, with its order.
- **Packages** (`PackageRequest`, `PackageSearch`, `PackageLines`). The request file written in Go and read by a
  shell helper; the one-pass search parser against a two-phase reading, and what each line of the output is.
- **Root access** (`RootAccess`). Desired, applied and persisted profile over snapshots, failures, restarts.
- **Bounded texts** (`BoundedText`), and the string operations the others need (`Text`).

Code that loops or changes state is a method or a class, proved against a function; what the source promises
is then proved about that function. Time, the network, processes and the file system appear as parameters or as
steps that may or may not happen.

Where the code does something else than its design suggests, the code was followed and the difference is
a theorem:

- a file rewritten in place is noticed if and only if the next `stat` finds it shorter than the cursor
  (`LogAnomalies.RewriteIsNoticedIff`); when it is not, what was returned from the first line of the tail to the
  cursor is a stretch of the file, then and after any appends and scans, if and only if the rewrite kept these
  bytes (`LogAnomalies.RewriteIsHarmlessIff`; `RegrownFileLosesItsStart` is a run in which it did not);
- lines appended between `stat` and a tail are returned by the tail and are to come again: none are if and only
  if nothing was appended or the last line is too long for the tail
  (`LogAnomalies.AppendedDuringTailIsRepeated`); over a whole run, what has been returned twice is the stretch
  from the later of the stored offset and the tail's start to the lesser of the cursor and the end that the tail
  saw (`LogMonitor.BackfillThenRepeats`);
- many scans return what one would if and only if no scan but the last ended inside a line
  (`LogMonitor.SameAsOneScan`; `LogAnomalies.SplitLineIsTwoEntries` is a family in which they do not);
- a line can be handed to TaskLog after the context has ended, if and only if it ended between the sink's test
  and its call (`LogSink.LateAttemptIff`);
- the depth counter can exceed the queue's capacity by the number of writers (`OutboundQueue.CapacityIsExceeded`);
- a late context watcher can stop a newer session of the same ID (`TerminalSessions.LateWatcherStopsSuccessor`);
- package names with white space inside are changed on the helper path (`PackageRequest.InnerSpaceIsLost`);
- the one-pass search parser differs from the two-phase reading exactly when a first detail line is empty after
  trimming (`PackageSearch.OnePassIsTwoPhaseIff`; `FormFeedMakesADifference` shows outputs where it is);
- the agent allows the operational right that a helper without operational binaries does not grant
  (`RootAccess.AgentAndHelperAgree`; `AllowedButNotGranted` is a reachable case);
- booking "off" without a helper is the one way a clean state stops naming the installed profile
  (`RootAccess.TruthfulUnlessBooked`; `BookedOffIsUntruthful` is a run of it);
- the truncation marker says less than is missing (`BoundedText.MarkerUnderstates`).

## Model

| member | source | states |
|---|---|---|
| LogLines.CutGluedIff | internal/logscan/scanner.go:401-438 | Pieces read one after the other are the lines of the bytes they make up if and only if all but the last end in a newline; a piece cut short shows in the count alone |
| LogLines.ChunksGlue | internal/logscan/scanner.go:409-410 | The raw lines from an offset on concatenate to the rest of the file, and all but the last end in a newline |
| LogLines.GreedyIsLongest | internal/logscan/scanner.go:401-418 | A prefix of the lines is within the line and byte budgets if and only if it is no longer than the one the greedy reader takes |
| LogLines.TailStart | internal/logscan/scanner.go:355-380 | The suffixes within both budgets are exactly those that start at or after the place found |
| LogLines.TrimCRLFMeaning | internal/logscan/scanner.go:425 | For every line: its message is the line without the newlines and carriage returns at its end, and nothing else is missing |
| LogLines.TokenMeaning | internal/logscan/scanner.go:342-343 | For every line: the token is the line without one newline at its end and then one carriage return, and is charged with its bytes and one more |
| LogLines.TooLongMeaning | internal/logscan/scanner.go:332 | A line is too long for the tail if and only if it has a mebibyte or more, its newline not counted |
| LogReaders.Clamp | internal/logscan/scanner.go:186-197 | The result is the allowed value nearest to the one asked for, zero asking for the default |
| LogReaders.NormalizeLimits | internal/logscan/scanner.go:170-184 | Whatever is asked for, each limit is between one and its hard maximum, so the window has room for a line |
| LogReaders.NormalizedLimits | internal/logscan/scanner.go:170-197 | Each limit on its own: zero gives its default, less than zero one, too much its maximum, anything else is kept |
| LogReaders.ReadFileFromOffset | internal/logscan/scanner.go:383-447 | The offset reader returns bytes, truncation and next offset of the greedy prefix of the remaining lines, with entry k the message of raw line k, or the cancellation (always, if the context had ended before) or seek error |
| LogReaders.ShiftIn | internal/logscan/scanner.go:343-346 | Copying the window down by one and writing the last slot drops the oldest line and appends the new one |
| LogReaders.FillWindow | internal/logscan/scanner.go:334-353 | The window holds the last min(backfill, n) lines seen, every write is in bounds, and an oversized line or a cancellation is an error |
| LogReaders.TrimWindow | internal/logscan/scanner.go:355-380 | Dropping lines from the front stops at the longest suffix within both budgets and returns its size |
| LogReaders.TailFileEntries | internal/logscan/scanner.go:312-381 | The tail returns the tokens of the last raw lines that fit, the bytes they are charged with, and "truncated" if they are fewer than the window |
| LogScanner.ScanFile | internal/logscan/scanner.go:199-310 | Which reader runs, which cursor is stored and which reset is reported, for every mode, cursor and file; a scan that is not cancelled is a function of these |
| LogScanner.CursorCounts | internal/logscan/scanner.go:228-309 | Exactly when a cursor is resumed, reported as rotated or truncated, refused or ignored, and what a resumed scan then reports |
| LogScanner.FreshScanReports | internal/logscan/scanner.go:211-262 | What a scan from the tail reports: it fails exactly on a line that is too long; counts, bytes, tokens, cursor and truncation otherwise |
| LogScanner.GreedyReadIsLongest | internal/logscan/scanner.go:401-446 | One resumed scan consumes the longest prefix of the remaining lines within both budgets, and is truncated if and only if its offset is short of the file size |
| LogScanner.TailIsLongest | internal/logscan/scanner.go:334-380 | The tail is the longest suffix of the last `backfill` lines within both budgets, truncated if and only if shorter than that window |
| LogScanner.ReadersAgree | internal/logscan/scanner.go:312-447 | On complete lines without carriage returns the tail equals the offset read from size minus bytesRead under the same budgets, and that read ends at the size |
| LogScanner.TailIsEmptyIff | internal/logscan/scanner.go:355-380 | On complete lines the tail is empty if and only if there is no line or the last one alone exceeds the byte budget |
| LogScanner.PreviewAndResumeAgree | internal/logscan/scanner.go:211-244 | A preview and a monitor scan resumed at its start report the same lines, counts and cursor |
| LogScanner.StallPointMeaning | internal/logscan/scanner.go:413-416 | The stall point is the end of the file if and only if every remaining line fits the byte budget |
| LogScanner.DrainStalls | internal/logscan/scanner.go:401-446 | Repeated scans of a fixed file never pass the first oversized line and after enough scans stand at its start |
| LogScanner.DrainReachesEnd | internal/logscan/scanner.go:401-446 | Repeated scans reach the end of a fixed file if and only if every remaining line fits the byte budget |
| LogMonitor.StepKeepsInv | internal/logscan/scanner.go:199-310 | Every append, replacement and scan, also one during which the file grows or is replaced, keeps: consumed lines make up file[base..cursor], entries are their messages, the backfill is the tokens of the last lines that the first scan read |
| LogMonitor.ExactlyOnce | internal/logscan/scanner.go:292-309 | Over every run, with limits that vary and a file that may grow or be replaced during a scan, while the cursor tracks its file, the raw lines consumed concatenate to the file between first and last offset, with no gap and no repeat |
| LogMonitor.SameAsOneScan | internal/logscan/scanner.go:383-447 | The entries of all resumed scans are those of one unlimited scan if and only if no scan but the last ended inside a line; it holds if the file ends in a newline whenever a scan reaches its end |
| LogMonitor.UnlimitedRead | internal/logscan/scanner.go:383-447 | Limits no smaller than the file make one read return every remaining line, untruncated |
| LogMonitor.BackfillThenExactlyOnce | internal/logscan/scanner.go:246-309 | With complete lines, and nothing appended during the first scan, the first tail and all later scans together return every line from the first kept on, once and in order |
| LogMonitor.BackfillThenRepeats | internal/logscan/scanner.go:206-309 | With complete lines, whatever was appended during the first scan: over every run the tail has returned its lines and the later scans theirs, in order, and both have exactly the stretch from the later of the stored offset and the tail's start to the lesser of the cursor and the end that the tail saw |
| LogAnomalies.RewriteIsNoticedIff | internal/logscan/scanner.go:264-290 | A rewrite under the same inode, with whatever was appended to it since, is reported as a truncation by the next scan that returns if and only if the file is then shorter than the cursor; a scan that notices starts again from the tail, one that does not resumes |
| LogAnomalies.RotationDuringScanIsNoticed | internal/logscan/scanner.go:206-290 | After a scan during which the file was rotated, the next one reports the rotation and starts again from the tail, unless it meets an oversized line |
| LogAnomalies.RewriteIsHarmlessIff | internal/logscan/scanner.go:264-309 | After a rewrite under the same inode to at least the cursor, and any appends and scans, the bytes returned from the tail's first line to the cursor are the file from there to the cursor if and only if the rewrite kept those that there were before it |
| LogAnomalies.RegrownFileLosesItsStart | internal/logscan/scanner.go:264-309 | A run of the harmful case: a line of the rewritten file is never returned, and what was returned is no stretch of the file |
| LogAnomalies.AppendedDuringTailIsRepeated | internal/logscan/scanner.go:206-262 | For files of complete lines without carriage returns and all limits: which lines the tail returns and which the scans after it are still to return, and that they have none in common if and only if nothing was appended after `stat` or the last line exceeds the byte budget |
| LogAnomalies.AllOfItIsRepeated | internal/logscan/scanner.go:206-309 | With limits that allow it everything appended in between is returned twice |
| LogAnomalies.SplitLineIsTwoEntries | internal/logscan/scanner.go:409-437 | Every line written in two pieces with a scan after each makes the scans return something else than one scan of the same bytes |
| LogAnomalies.ScansDoDiffer | internal/logscan/scanner.go:409-437 | A run from a new file in which that happens |
| TaskProtocol.OneHandlerPerTask | internal/tasks/service.go:151-172 | At most one live handler per task ID under every interleaving, its ID is marked running, and a marked ID always has someone who will unmark it |
| TaskProtocol.DispatchDecides | internal/tasks/service.go:151-172 | A task not marked is marked, counted and given a handler; one that is marked is refused and nothing else changes |
| TaskProtocol.WatcherMarks | internal/tasks/service.go:487-528 | The control watcher marks its own task, and a context that has ended stays ended |
| TaskProtocol.ProtocolPerTask | internal/tasks/service.go:334-428 | The events of one task ID always follow the protocol accept, start, complete, release, and only then dispatch again |
| TaskProtocol.CompletedBeforeAcceptedAgain | internal/tasks/service.go:334-391 | Between an accepted event and the next dispatch of the same ID its handler has attempted the completion |
| TaskProtocol.EventsOfHandler | internal/tasks/service.go:334-428 | A handler sends Accepted once, Started at most once, then Completed; one that is gone has sent exactly one completion, or nothing when events were off |
| TaskProtocol.HandlerCanFinish | internal/tasks/service.go:334-485 | No handler is stuck: from every state its own steps lead it to its end |
| TaskProtocol.NoneSkipped | internal/tasks/service.go:338-342 | While realtime events are never switched off, no handler gives up without events |
| TaskProtocol.CompletionStatus | internal/tasks/service.go:459-464 | Each completion status if and only if its error and whether a cancellation was seen call for it; without identity always "failed" |
| TaskProtocol.CommandDecides | internal/tasks/service.go:455-464 | Whatever happens after the executor has returned, the completion is on its error, and a cancellation marked before is seen |
| TaskProtocol.IdentityIsRead | internal/tasks/service.go:344 | While the credentials stay, a handler has an identity if and only if the agent has |
| TaskProtocol.NoneRuns | internal/tasks/service.go:338-342 | While realtime events stay off, every handler that does anything gives up |
| TaskProtocol.GroupEmptyMeansDone | internal/tasks/service.go:100-110 | The wait group counts the counted dispatches and unfinished handlers; when it is zero every handler is gone |
| TaskProtocol.StepKeepsInv | internal/tasks/service.go:536-552 | Every step of any thread keeps the ownership of the running set and the place of each handler in the protocol |
| LogSink.Ledger | internal/tasks/service.go:611-624 | Every line offered is accepted or counted dropped, the channel never holds more than 512, and the lines attempted are a prefix of those accepted |
| LogSink.DropsIffFull | internal/tasks/service.go:611-624 | A line is dropped if and only if 512 are waiting, and else is the last of the channel |
| LogSink.ShortLogsAreKept | internal/tasks/service.go:611-624 | Over every run, a task that logs at most 512 lines loses none |
| LogSink.DrainedMeansAllAttempted | internal/tasks/service.go:626-656 | When the sink is done and the context has not ended, every accepted line was attempted |
| LogSink.NoLogAfterClose | internal/tasks/executor.go:244-269 | No line is offered after Close, and the channel is closed once, because Execute waits for both scanners |
| LogSink.AtMostOneLateLog | internal/tasks/service.go:635-656 | At most one TaskLog call is made, and at most one returns, after the context has ended |
| LogSink.AttemptedAfterEnd | internal/tasks/service.go:639-648 | After the end of the context nothing is handed to TaskLog but the one line for which the sink had found it live |
| LogSink.LateAttemptIff | internal/tasks/service.go:639-648 | A line can still be handed over after the end if and only if the context ended between the sink's test and its call |
| LogSink.OneLineIsLate | internal/tasks/service.go:639-648 | A run in which that happens |
| LogSink.SinkCanFinish | internal/tasks/service.go:635-656 | From every reachable closed state the sink alone can run to its end, and has then attempted every accepted line if the context stayed on |
| LogSink.LogsAreSentOn | internal/tasks/service.go:455-457 | A whole life in which the lines of the handler and of both scanners are sent on in order and the task is completed |
| OutboundQueue.DepthAccounts | internal/realtime/client.go:862-898 | The counter is the queue length plus writers before their decrement minus producers before their increment; messages leave in the order in which they came |
| OutboundQueue.OfferedMessage | internal/realtime/client.go:862-885 | A message offered is queued if there is room; if not, the critical path waits and the best-effort path counts a drop; nothing else is dropped |
| OutboundQueue.OffersAreCounted | internal/realtime/client.go:862-885 | Over every run, each message offered is sent or counted as dropped |
| OutboundQueue.QuietCountersAreExact | internal/realtime/client.go:887-898 | With no thread under way the counter is the queue length and the high-water mark is the largest value it ever had, at most capacity plus writers |
| OutboundQueue.RetriesAreBounded | internal/realtime/client.go:889-897 | No call of the compare-and-swap loop fails more often than the high-water mark is high |
| OutboundQueue.RetryOnlyAfterRaise | internal/realtime/client.go:889-897 | A failed compare-and-swap means the mark is strictly above what the thread had read |
| OutboundQueue.CapacityIsExceeded | internal/realtime/client.go:810-820 | The bound is tight: for every capacity and number of writers there is a run in which the counter is the capacity plus the writers |
| OutboundQueue.StepKeepsInv | internal/realtime/client.go:810-898 | Every step of every thread keeps the accounts, and the mark never falls |
| TerminalSessions.MapHoldsLiveSessions | internal/terminal/manager.go:162-172 | A session is registered and not yet deregistered if and only if the map has it, itself, under its ID |
| TerminalSessions.DeleteRemovesOnlyItself | internal/terminal/manager.go:301-303 | The delete on exit removes the session's own entry and leaves every other live session findable |
| TerminalSessions.StartRegistersOnce | internal/terminal/manager.go:162-172 | A start registers its session if no live one has the ID, and changes nothing if one has |
| TerminalSessions.StopReachesTheSession | internal/terminal/manager.go:248-267 | A stop kills the session that its ID named at the lookup, leaves its reason there, and touches no other |
| TerminalSessions.ExitTellsTheReason | internal/terminal/manager.go:288-309 | The exit reports the last stop's reason as it was when the reader was gone, or the outcome of the process if there was none |
| TerminalSessions.EventsOfSession | internal/terminal/manager.go:269-310 | Outputs, then at most one error, then at most one exit; an exit was sent exactly by those past that point; Opened may come at any time |
| TerminalSessions.SessionSpeaks | internal/terminal/manager.go:182-188 | Opened, outputs and a reader's error are each an event while they may come |
| TerminalSessions.SessionCanFinish | internal/terminal/manager.go:269-310 | No session is stuck: from every reachable state its own steps lead it to its end, with its exit reported |
| TerminalSessions.OneExitAndNothingAfter | internal/terminal/manager.go:284-309 | A terminated session has emitted exactly one exit, and nothing of its own after it but possibly Opened |
| TerminalSessions.WatcherFindsItself | internal/terminal/manager.go:270-278 | What a context watcher finds by ID, whenever it comes to its lookup, is its own session if and only if that is still registered |
| TerminalSessions.LateWatcherStopsSuccessor | internal/terminal/manager.go:270-310 | A schedule in which the watcher of an ended session has found its successor to stop |
| PtyPump.PumpConserves | internal/terminal/manager.go:340-379 | At every moment emitted bytes followed by pending bytes are the bytes received in order; nothing is pending after the return |
| PtyPump.PumpIsBounded | internal/terminal/manager.go:340-379 | Pending stays under 1024 bytes and every emission has 1 to 1023 + 4096 bytes |
| PtyPump.DoneIffFailed | internal/terminal/manager.go:370-377 | The pump returns at the first failed read and not before |
| PtyPump.WhenItFlushes | internal/terminal/manager.go:357-372 | A tick, a failure and 1024 pending bytes send all that is pending; less is kept |
| PtyPump.SmallReadsCoalesce | internal/terminal/manager.go:357-368 | Reads below the threshold between two ticks are one emission |
| PtyPump.Stream.Read | internal/terminal/manager.go:324-338 | The reader overwrites its one buffer and no payload handed over before changes |
| PtyPump.Stream.FlushPending | internal/terminal/manager.go:340-355 | A flush hands over a new array with the pending bytes and keeps the earlier ones |
| PtyPump.Stream.Receive | internal/terminal/manager.go:361-377 | One result takes the pump to the state that the specification gives for it |
| PtyPump.Stream.Run | internal/terminal/manager.go:312-380 | Under every schedule of reader, pump and ticker: payloads, pending and bytes in flight are the bytes delivered, with the bounds above, and all of it is handed over on return |
| Text.TrimSpaceMeaning | cmd/release-metadata/main.go:237-239 | Trimming cuts white space off both ends and nothing else |
| Text.TrimSpaceIs | cmd/release-metadata/main.go:237-239 | Whatever text without white space at its ends stands between white space is what trimming leaves |
| Text.SpaceCodes | cmd/release-metadata/main.go:238 | What counts as white space, by code points |
| Text.LinesBack | cmd/release-metadata/main.go:222 | Text written line by line splits back into its lines, each without one carriage return at its end |
| Changelog.ParseChangelogRelease | cmd/release-metadata/main.go:216-294 | The loop with its break and its closure computes the parse, section by section |
| Changelog.RenderReleaseNotesMarkdown | cmd/release-metadata/main.go:348-372 | The builder loop writes the heading, the sections and their items, with an empty line between sections |
| Changelog.NotesText | cmd/release-metadata/main.go:348-372 | The notes as text: the heading with the version, an empty line, each title and its items, an empty line between sections |
| Changelog.ItemsText | cmd/release-metadata/main.go:362-366 | The items as text, one a line behind a dash |
| Changelog.ParsedSectionsAreGood | cmd/release-metadata/main.go:226-305 | Every parsed section has a trimmed non-empty title and at least one item, and every item is trimmed, non-empty and of one line |
| Changelog.PrintThenParse | cmd/release-metadata/main.go:348-372 | Printing such sections under a header of a one-line version and parsing returns them |
| Changelog.ParsePrintParse | cmd/release-metadata/main.go:216-372 | Fixed point: for every changelog and version that parse, the printed notes under the version's header parse to the same sections |
| Changelog.OnlyOwnRelease | cmd/release-metadata/main.go:241-252 | What stands before a release's header and from the next release header on has no influence on what is parsed for it |
| ReleaseText.ReadsRelease | cmd/release-metadata/main.go:226-284 | For every version, any text behind its header, other releases around it, bullets of both kinds, continuation lines, untitled bullets and stray lines: the parse is exactly the sections written |
| ReleaseText.ReadsReleaseText | cmd/release-metadata/main.go:216-294 | The same of the file, with either line ending |
| Catalog.MergeCatalog | cmd/release-metadata/main.go:405-439 | The result holds the new manifest and the first of every other version, whatever the timestamps, and with parsing timestamps it is the specified merge |
| Catalog.MergedIsCanonical | cmd/release-metadata/main.go:405-439 | With parsing timestamps: distinct versions, in order, and exactly the new manifest and the first occurrence of every other version |
| Catalog.SortedMeans | cmd/release-metadata/main.go:422-436 | An earlier place means a later instant, or the same instant and a greater version |
| Catalog.LessMeans | cmd/release-metadata/main.go:432-435 | The order of strings: the first difference decides, and a beginning is less than what it begins |
| Catalog.SortedIsUnique | cmd/release-metadata/main.go:422-436 | A sorted catalog of distinct versions is determined by its elements |
| Catalog.MergeIsIdempotent | cmd/release-metadata/main.go:405-439 | Merging the same manifest twice changes nothing |
| Catalog.MergeCommutes | cmd/release-metadata/main.go:405-439 | Manifests of different versions can be merged in either order |
| Catalog.MixedTimestampsCycle | cmd/release-metadata/main.go:427-435 | For all strictly ordered versions: with a timestamp that does not parse the comparison goes round in a circle |
| PackageRequest.NormalizePackageNames | internal/tasks/executor.go:825-851 | Accepted are all names, trimmed and in order, if and only if there is one and none is blank or begins with a dash; these are normalized lists, as the two paths are compared on; else the first bad name is reported |
| PackageRequest.WritePackageMutationRequest | internal/tasks/executor.go:878-934 | The file is the trimmed operation and the trimmed names that are not blank, one a line |
| PackageRequest.PackageLinesMeaning | internal/tasks/executor.go:897-909 | The lines of the file are those names that are not blank, trimmed, in order |
| PackageRequest.LastLineIsRead | internal/agentctl/commands.go:1448 | Every line is read, the last also without its newline |
| PackageRequest.GrammarMeaning | internal/agentctl/commands.go:1460 | The grammar by code points: small letters and digits, and behind the first character also plus, minus, dot and colon |
| PackageRequest.StripSpacesMeaning | internal/agentctl/commands.go:1455 | White space is taken out wherever it stands, and nothing else |
| PackageRequest.RunHelper | internal/agentctl/commands.go:1445-1492 | The shell loop with its positional arguments and exits computes what the helper runs |
| PackageRequest.HelperEnds | internal/agentctl/commands.go:1445-1492 | How the helper ends for every request and host: which arguments it runs, or which exit code it gives, and in what order it looks |
| PackageRequest.HelperRebuildsArgs | internal/agentctl/commands.go:1445-1487 | For every non-empty list of names in the grammar the helper runs the arguments of the direct command, order and length preserved |
| PackageRequest.PathsAgreeIff | internal/tasks/executor.go:740-754 | For every normalized list both paths run the same arguments if and only if every name is in the helper's grammar |
| PackageRequest.HelperAgreesOrRefuses | internal/agentctl/commands.go:1453-1467 | For names without white space inside, the helper runs exactly the direct command or exits with 64 |
| PackageRequest.InnerSpaceIsLost | internal/agentctl/commands.go:1453-1456 | A concrete name that passes normalization and is another name on the helper path |
| PackageRequest.UpdateIsPassedOn | internal/tasks/executor.go:774-785 | `apt-get update` goes through the request file unchanged |
| PackageSearch.ParsePackageSearch | internal/tasks/executor.go:1224-1281 | The loop with its pending record and last flush computes the one-pass reading; the result is missing exactly when output that is not blank gave no package |
| PackageSearch.OnePassDescribes | internal/tasks/executor.go:1231-1273 | The one pass gives every header the details up to the next header, and loses no record |
| PackageSearch.OnePassIsTwoPhaseIff | internal/tasks/executor.go:1224-1281 | For every output the one pass equals the two-phase reading if and only if no package has several details of which the first is empty; the number of packages always agrees |
| PackageSearch.OnePassIsTwoPhase | internal/tasks/executor.go:1224-1281 | Without form feeds, vertical tabs and other odd white space the parser is the two-phase reading |
| PackageLines.FieldsAre | internal/tasks/executor.go:1238 | Whatever words are written with white space before, between and after them come back |
| PackageLines.EveryTextIsWritten | internal/tasks/executor.go:1238 | And every text is written like that |
| PackageLines.BeforeSlashMeaning | internal/tasks/executor.go:1243 | The name is the longest part of the word without a slash |
| PackageLines.LineOfWords | internal/tasks/executor.go:1236-1250 | A line of words is a package with its name, version and, if there is a third word, architecture; a line of one word is nothing |
| PackageLines.PackageLine | internal/tasks/executor.go:1236-1250 | Name, perhaps a slash and suites, version and architecture are read as such |
| PackageLines.PackageLineWithoutArchitecture | internal/tasks/executor.go:1236-1250 | And without an architecture |
| PackageLines.NoiseLine | internal/tasks/executor.go:1230-1233 | The two noise texts, whatever follows them, and blank lines are nothing |
| PackageLines.IndentedLine | internal/tasks/executor.go:1251-1253 | An indented line is a detail, its text trimmed at both ends |
| PackageLines.PackageWithDetails | internal/tasks/executor.go:1251-1265 | A package gets the details up to the next, joined by single blanks |
| PackageLines.OtherLines | internal/tasks/executor.go:1231-1251 | A package line starts a package; lines that are nothing, and details before any package, are passed over |
| PackageSearch.FormFeedMakesADifference | internal/tasks/executor.go:1252-1260 | For every package line and indented line, with a blank and a form feed between them the two readings differ |
| RootAccess.Manager.HandleDesiredSnapshot | internal/rootaccess/manager.go:63-90 | One snapshot takes memory, file and host to the state the specification gives |
| RootAccess.Manager.ApplyProfile | internal/rootaccess/manager.go:116-174 | When an apply succeeds, what it records and what becomes installed, for every host and outcome |
| RootAccess.MemoryIsPersisted | internal/rootaccess/manager.go:176-225 | In every reachable state a restart changes nothing, and after any apply the file holds what is in memory |
| RootAccess.LoadedMeans | internal/rootaccess/manager.go:176-196 | What a restart loads, for every state of the file |
| RootAccess.PassedOverIff | internal/rootaccess/manager.go:63-80 | Exactly when a snapshot is passed over, and every other one is applied once |
| RootAccess.AppliedMeans | internal/rootaccess/manager.go:116-174 | What an apply leaves behind on each kind of host: profile, time, error text |
| RootAccess.HelperErrorText | internal/rootaccess/manager.go:160-167 | A failed helper's error and its output without the white space around it are recorded |
| RootAccess.RestartsDoNotMatter | internal/rootaccess/manager.go:38-50 | Restarts can be left out of any run without changing where it leads |
| RootAccess.SuccessSettlesFailureRetries | internal/rootaccess/manager.go:72-89 | A success makes the same snapshot a no-op, also after a restart; a failure is retried on the next snapshot |
| RootAccess.TruthfulUnlessBooked | internal/rootaccess/manager.go:116-174 | A clean state keeps naming the installed profile if and only if the step does not book "off" without a helper while another profile is installed |
| RootAccess.BookedOffIsUntruthful | internal/rootaccess/manager.go:137-145 | A run of two snapshots in which that happens |
| RootAccess.CleanNamesInstalled | internal/rootaccess/manager.go:63-174 | Over every run on a host that has its helper a clean state names the profile last installed |
| RootAccess.AgentAndHelperAgree | internal/agentctl/commands.go:1624-1728 | The agent allows a right for a profile if and only if the helper's rules grant it, with one exact exception: the operational right where the helper finds no operational binary; nothing is granted that is not allowed |
| RootAccess.AllowedButNotGranted | internal/agentctl/commands.go:1624-1728 | A reachable clean state in which the exception occurs |
| RootAccess.NamedRights | internal/rootaccess/manager.go:236-256 | Which rights each profile allows, by name |
| RootAccess.ProfileIsItsRights | internal/rootaccess/manager.go:236-256 | Two profiles that the helper takes and that allow the same rights are one |
| RootAccess.CleanAllowsWhatIsGranted | internal/rootaccess/manager.go:236-256 | Over every such run a clean agent allows a right if and only if the rules last installed grant it, the operational one where the helper finds a binary |
| Polling.PollTasks | internal/tasks/service.go:198-303 | For every script: the loop runs up to the first iteration that ends it; every action of the log, each claim, snapshot, dispatch and sleep, is placed and measured; the tasks dispatched are those claimed, in order; it ends unauthorized if and only if the last iteration met two auth errors with a live context, and cancelled if and only if that was done or cut a sleep short; at most two claims an iteration |
| Polling.BackoffFormula | internal/tasks/service.go:209-296 | The backoff is min(2^k, 15) seconds, k counting network errors since the last successful claim |
| Polling.ActionsAre | internal/tasks/service.go:213-302 | The log of a run, action by action: which iteration does what at which place, the delay after a network error being min(2^e, 15) seconds with e the network errors before since the last successful claim |
| Polling.DispatchedIsClaimed | internal/tasks/service.go:292-301 | Every task claimed is dispatched, once and in order, and no other |
| Polling.ClaimsAreCounted | internal/tasks/service.go:226-260 | One claim for each started iteration and one more for each auth error, so never more than two |
| Polling.WithQueuedStateRetry | internal/tasks/http_events.go:155-190 | Only a queued-state conflict is repeated, at most three times while the context is live, and the last answer is returned |
| BoundedText.DecimalReadsBack | internal/realtime/client.go:1052 | The decimal digits of a number denote it |
| BoundedText.MarkerSays | internal/realtime/client.go:1052 | The marker reads as in the source, with the number of its argument in decimal digits, no leading zero |
| BoundedText.TruncationLength | internal/realtime/client.go:1044-1063 | The result has exactly min(length, limit) runes, is cut if and only if there were more, and a second application changes nothing |
| BoundedText.TruncationShape | internal/realtime/client.go:1044-1063 | A cut text is a true prefix, the marker and a true suffix, halves differing by at most one rune, or a prefix when the marker does not fit |
| BoundedText.MarkerUnderstates | internal/realtime/client.go:1051-1062 | The marker's number falls short of the missing runes by its own length |
| BoundedText.NormalizeTaskLogLine | internal/tasks/http_events.go:119-153 | A line of at most 5000 runes is kept; a longer one is its beginning and the suffix, 5000 runes in all |

## Left out

- Log scanning: errors of opening, seeking and reading other than a negative offset, the journal reader, and the fields LastReadAt, Warnings and Identifier.
- LogScanner.ReadersAgree: holds for files without carriage returns, since the two readers trim lines that end in several of them differently.
- LogMonitor.ExactlyOnce: says nothing of a cursor whose file was rewritten, until the next scan that starts from the tail; RewriteIsHarmlessIff does for rewrites between scans, and none is claimed for one under the same inode during a scan.
- Concurrent parts (dispatchers and handlers, log sink, outbound queue, session map) are step machines on values and not classes with threads: Dafny has no goroutines, and every interleaving is what matters there. Aliasing of these structures is not modelled.
- TaskProtocol: error texts and outputs of completions, panics in a handler, the timeout of `Service.Run` while it waits for handlers. Context errors are taken to come from an ended context.
- LogSink: time; the three-second limit of Close is a step that may happen at any moment.
- OutboundQueue: what the writer does with a message after it has received it, encoding errors, pings, `SnapshotStats`.
- TerminalSessions: choosing and starting a shell, sizes, input and resizing, the killing itself; whether the process reacts is left to the steps.
- PtyPump: base64 (section 4 of RFC 4648) and failures of the event calls; payloads are the decoded bytes.
- Catalog.MergedIsCanonical: requires timestamps that parse, because without that the comparison is no order (MixedTimestampsCycle). `sort.SliceStable` is a stable insertion sort here.
- Changelog: reading the file; checksums, artifacts and the JSON files of a release.
- Texts are sequences of runes, so invalid UTF-8 and byte lengths are not modelled; `NormalizeTaskLogLine` and the truncation count runes in the source as well.
- PackageRequest: creating, renaming and removing the request file, sudo, and the locale of `tr` and `grep`.
- PackageSearch: the log callback. The package list parser and the output capture with its size limit would be easier members of the same kind.
- RootAccess: concurrent snapshots and failing state writes (no lock spans apply and record), JSON of the state file, and the text of the sudoers rules; whether the helper finds an operational binary is one flag of the host.
- Polling: contents of the claim request, refreshed auth headers, and a missing root-access controller, which leaves out the snapshot action.
- Lifecycle event identifiers, reconnect backoff and jitter, metrics, configuration, installation and updates: straight-line code or I/O.
