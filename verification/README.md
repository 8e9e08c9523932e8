# Micromux: a verified model

Micromux runs a project's services, keeps their logs in bounded rings, lets terminals attach to a running
session, and lets agents page through what happened. Most of its difficulty is in copies of ordered,
cursor-addressed data that have to agree: a ring of log lines, an attach client's mirror of it, a view's cache
of that, and merged pages with cursors to resume from. This project models those parts in Dafny and proves what
they are for. `dafny verify dfyconfig.toml` checks all of it.

| file | models |
|---|---|
| `LogBuffer.dfy` | the bounded ring of log lines and its eviction loops |
| `Replication.dfy` | one log stream over time: appends, replacements, evictions, clears |
| `Mirror.dfy` | the attach client's copy of a log and how a refresh brings it up to date |
| `MirrorPages.dfy` | what each answer of a refresh makes of that copy, whatever the server does between answers |
| `MirrorRuns.dfy` | whole runs of that copy, with starting over, clears and hydration, and what the view makes of them |
| `MirrorStore.dfy` | its roster of services, and which logs an acknowledged restart drops |
| `LogCopies.dfy` | one service's copied log with what is known about it: the log it is of, and what is out of date |
| `Handoff.dfy`, `HandoffRuns.dfy` | the whole attach protocol, logs included: sync, subscribe, sync again, drain notifications; runs that lose something |
| `ViewCache.dfy` | the view's cache of formatted lines, over the ring and over the mirror |
| `EventMerge.dfy`, `EventOrder.dfy` | the merged listing of events: pages, limits and cursors; which events a page shows, in what order |
| `LogMerge.dfy`, `LogOrder.dfy` | the merged listing of log records, cuts between records, context of matches; its order |
| `MergeQueues.dfy` | what both k-way merges share |
| `Interpolation.dfy`, `Dotenv.dfy` | dotenv files: scanners, references and expansion |
| `DotenvReading.dfy`, `DotenvWriting.dfy` | what any line and file means; writing what reads back |
| `RowWindow.dfy` | showing some rows of a long wrapped text |
| `HealthLoop.dfy` | the healthcheck loop, its announcements and their latency |
| `BoundedReader.dfy`, `Utf8Codec.dfy`, `Utf8Text.dfy` | reading probe output in chunks; UTF-8 |
| `StartToken.dfy` | session start tokens drawn by concurrent calls |
| `Prelude.dfy` | shared vocabulary |

Code that changes state step by step is modelled as classes and methods with loops. Each is proved against a
specification function or relation, and the lemmas are about those. What such a function computes is said once more
without it, from the inputs alone: which tasks a batch calls for (`Handoff.BatchTasksAre`), when a refresh ends
(`Mirror.RefreshEndsExactly`), what order a merge has (`EventOrder.MergesExactly`, `LogOrder.MergesExactly`), what a
reference stands for (`Interpolation.ReferenceStands`), and so on. Concurrency is modelled as a state machine whose
runs interleave every step.

## How the parts connect

A ring's operations are steps of a `Replication.Server` (`RingRunEvolves`). `MirrorPages.Tracks` is what holds of a
mirrored log between any two requests, through any server moves (`TracksOn`), and every answer keeps it
(`AnswerTracks`); its `behind` names the records that refreshes left out of date. `RefreshLogs` is the loop over such
answers, and `MirrorRuns` follows whole runs of it. The mirror's own history evolves in turn, so that one lemma about
the view's cache, `PassRestoresCache`, covers both sources: the ring over any run (`PassAfterRingRun`) and the mirror
over any run without a clear (`PassWithoutClears`); with clears, `PassAfterAnyRun` and `PassAfterMirrorRun` say
exactly when.

`Handoff` runs the protocol over these very logs, request by request, with every server step in between.
`NoLostChange` says of every key in every connected state of every interleaving that it is as on the server, is going
to be refreshed, is among those whose news was dropped, or was damaged by a refresh. `NothingLost` names the steps
that drop news or do damage, and shows that without them every settled mirror is the server, its logs line for line.

## Where a stated property does not hold

The model follows the code. Each case has a lemma that exhibits an input, and the condition under which the property
does hold.

- No transition can be lost, says the comment on the handoff (crates/micromux-tui/src/remote.rs:427-428). News is
  dropped with a notice when a refresh gets an unexpected answer (`HandoffRuns.SwallowedErrorLosesChange`) or a
  notification cannot be read (`HandoffRuns.SkippedFrameLosesChange`), and does not come between the end of the
  subscription and noticing it (`HandoffRuns.EndedSubscriptionLosesChange`). A hydration of two requests leaves a
  record outdated that is replaced and followed in between, although the change is announced and refreshed
  (`HandoffRuns.HydrationLosesChange`). A service that is removed and added again before the client lists services
  keeps its entry: its health is not announced, and its log, which begins anew, is asked for beyond the old cursor
  (`HandoffRuns.RecreatedServiceLosesChange`). `Handoff.GuaranteedExactly` and `Handoff.SettledIsExact` give the
  condition for every connected and every settled state; `SwallowKeepsExactly`, `SkipFrameKeepsExactly`,
  `MoveKeepsExactly`, `ApplyKeepsExactly` and `HydrationKeepsExactly` give it for each step.
- The cache is the source after a pass. When a restarted service's logs are cleared and hydrated between two passes,
  the server's tail may begin before the cached window, and the lines before it never get into the cache:
  `MirrorRuns.RehydratedReachesBack`, with the exact condition in `MirrorRuns.PassAfterMirrorRun`.
- A completed refresh leaves the mirror caught up. Behind a tail that goes without the oldest records, the refresh
  asks only for records beyond the newest one: when that one is replaced and followed by another before the second
  request, its old text stays (`Mirror.HydrationLeavesStaleRecord`). `Mirror.RefreshCatchesUpExactly` has the exact
  condition for one refresh, and `MirrorRuns.RunKeepsMirrored` for whole runs. The same happens behind an empty
  truncated first answer, which the loop does not reject (`Mirror.EmptyFirstAnswerLeavesStaleRecord`); the shipped
  server never gives one (crates/micromux-control/src/server/unix.rs:878-906).
- A page of the session-wide event listing is a front of the full merge when each service's page is as long as the
  limit allows. Pages cut shorter lose nothing but may reorder: `EventMerge.ShortPageReorders`, with the exact
  condition in `EventMerge.CallIsFrontExactly`, and one on the pages and the limit alone in
  `EventMerge.LatePagesAreFront`.
- Merging services that are each in time order gives time order only if no record straddles the start of another
  service's: `LogMerge.TwoTimesInOneRecordUnsort`, with the exact condition in `LogMerge.MergeSortsExactly`.
- `HealthcheckSpec::retries` documents a latency that leaves out the cleanup after a probe's timeout:
  `HealthLoop.CleanupExceedsBound`. `HealthLoop.LatencyExactly` says how long the announcement does take, which is
  within the documented bound when the probes, cleanup included, together take at most `retries` timeouts.
- A comment is documented to start at the first `#` that white space precedes (crates/micromux/src/env.rs:124-128). A
  `#` right behind the blanks after `=` is taken for the value: `DotenvWriting.CommentBehindBlankIsValue`, with the
  exact condition in `DotenvWriting.PlainCommentExactly`.
- Start tokens are unique below the last 64-bit number only: `StartToken.LastNumberRepeats`, and
  `StartToken.TokensUnique` for all others.

The viewer cuts a row offset within one line to 65535 rows. `RowWindow.CutShowsExactly` says when that would show and
`RowWindow.TallLineShowsRowBefore` has an input, but no line gets that tall: appended log lines are cut to 16 KiB
(crates/micromux/src/model.rs:37,1306), and a live terminal's rows are lines of their own
(crates/micromux/src/scheduler/pty.rs:1448-1455).

## Model

| member | source | states |
|---|---|---|
| Utf8Text.TrimToLastBytesIsLongestSuffix | crates/micromux/src/model/memory.rs:7-23 | trimming keeps the longest whole-character suffix within the byte limit |
| Utf8Text.TrimToLastBytesIdempotent | crates/micromux/src/model/memory.rs:7-23 | trimming twice is trimming once |
| Utf8Text.TruncateToFirstBytesIsLongestPrefix | crates/micromux/src/model/memory.rs:27-39 | truncating keeps the longest whole-character prefix within the byte limit |
| LogBuffer.RingHoldsLongestSuffix | crates/micromux/src/model/memory.rs:55-81 | after any appends the ring holds exactly the longest suffix of the trimmed history that fits both limits |
| LogBuffer.LongestFittingAbsorbs | crates/micromux/src/model/memory.rs:55-81 | evicting early loses nothing that evicting late would keep |
| LogBuffer.PushedKeeps | crates/micromux/src/model/memory.rs:55-81 | a push keeps both limits, trimmed lines and ascending numbers |
| LogBuffer.PushedMeans | crates/micromux/src/model/memory.rs:55-81 | a push keeps the longest whole-character end of the line that the byte limit allows, behind as many of the lines before as both limits allow |
| LogBuffer.LastReplacedMeans | crates/micromux/src/model/memory.rs:87-94 | a replacement puts the end of the new line in the place of the newest whenever the ring may hold a line, behind as many of the lines before as fit; any other changes nothing |
| LogBuffer.TotalBytesIsEncoded | crates/micromux/src/model/memory.rs:47-81 | the bytes counted against the limit are those of the encoded text |
| LogBuffer.RunsKeepRing | crates/micromux/src/model/memory.rs:55-112 | any run of append, replace, clear and reconfigure keeps limits, trimming and strictly ascending numbers |
| LogBuffer.ReconfigureSameRetention | crates/micromux/src/model/memory.rs:96-103 | reconfiguring to the limits in force changes nothing |
| LogBuffer.ClearedBeforeIsFilter | crates/micromux/src/model/memory.rs:105-112 | clearing keeps exactly the lines numbered from the given one on |
| LogBuffer.LinesSinceIsFilter | crates/micromux/src/model/memory.rs:120-127 | the binary search answers exactly the lines beyond the cursor |
| LogBuffer.MemoryLogBuffer.Push | crates/micromux/src/model/memory.rs:55-81 | both eviction loops together reach the longest fitting suffix, with an exact byte count |
| LogBuffer.MemoryLogBuffer.Append | crates/micromux/src/model/memory.rs:83-85 | the new contents are those of the abstract append |
| LogBuffer.MemoryLogBuffer.ReplaceLast | crates/micromux/src/model/memory.rs:87-94 | replaces the newest line if it has the given number, else changes nothing |
| LogBuffer.MemoryLogBuffer.Reconfigure | crates/micromux/src/model/memory.rs:96-103 | the new contents are the old ones replayed into an empty ring |
| LogBuffer.MemoryLogBuffer.ClearBeforeNextSeq | crates/micromux/src/model/memory.rs:105-112 | drops the old front and keeps the byte count exact |
| LogBuffer.MemoryLogBuffer.Lines | crates/micromux/src/model/memory.rs:114-118 | an end of the contents, as long as asked for or as there are lines |
| Replication.RingAppendIsStep | crates/micromux/src/model/memory.rs:83-85 | appending to the ring is one step of a log stream, whatever it evicts |
| Replication.RingReplaceIsStep | crates/micromux/src/model/memory.rs:87-94 | so is replacing the newest line, and ignoring a replacement that misses |
| Replication.RingClearIsStep | crates/micromux/src/model/memory.rs:105-112 | a clear only moves the start of what is retained |
| Replication.RingRunEvolves | crates/micromux/src/model/memory.rs:83-112 | any run of these without new limits keeps all numbers and all but the newest record |
| Replication.RunEvolves | crates/micromux/src/model/memory.rs:83-112 | any run of a log stream's steps keeps all numbers and all but the newest record |
| Mirror.MirroredEvolves | crates/micromux-tui/src/remote.rs:560-624 | no server change can make more than the newest copied record out of date, beside what already was |
| Mirror.MirroredBetweenRefreshes | crates/micromux-tui/src/remote.rs:560-624 | after a refresh and any server run, the next refresh may start |
| Mirror.CaughtUpMeans | crates/micromux-tui/src/remote.rs:560-624 | a caught-up mirror is ascending, at most 200 long, ends on the server's newest record, and agrees wherever both hold a number |
| Mirror.CaughtUpGapFree | crates/micromux-tui/src/remote.rs:560-624 | no visible record between two mirrored ones is missing |
| Mirror.RequestLogPage | crates/micromux-tui/src/remote.rs:626-650 | the contract of an answer: a prefix of the retained records beyond the cursor, or the newest tail |
| Mirror.PageAppendedHolds | crates/micromux-tui/src/remote.rs:652-672 | a page that continues the copy leaves consecutive records and brings its own numbers up to date |
| Mirror.PageAppendedMeans | crates/micromux-tui/src/remote.rs:652-672 | older lines are ignored, the newest is replaced where the page has its number, all others follow, and the last two hundred are kept, with the cursor at the newest |
| Mirror.FirstContinues | crates/micromux-tui/src/remote.rs:565-598 | every first answer that does not retail continues the copy |
| Mirror.TailCaughtUp | crates/micromux-tui/src/remote.rs:587-597 | starting over from the server's tail catches up |
| Mirror.MirrorEntry.AppendLogPage | crates/micromux-tui/src/remote.rs:652-672 | refetched newest line replaced, newer lines pushed, older ignored, 200 kept |
| Mirror.MirrorEntry.ReplaceLogTail | crates/micromux-tui/src/remote.rs:674-679 | the copy becomes what the tail makes of an empty one |
| Mirror.CaughtUpShowsRetained | crates/micromux-tui/src/remote.rs:560-624 | whatever went before the client asked for it, a caught-up mirror ends on the server's newest record and holds, with its text, every retained record from its first on |
| Mirror.NextRefreshMayStart | crates/micromux-tui/src/remote.rs:560-624 | and the next refresh may start after any server moves, whatever earlier ones left behind |
| Mirror.MirrorEntry.RefreshLogs | crates/micromux-tui/src/remote.rs:560-624 | with the server moving on between requests or forgetting the service: every answer is to the request that the ones before call for, it ends as `RefreshEndsExactly` says, and leaves what `RefreshCatchesUpExactly` says |
| Mirror.RefreshEndsExactly | crates/micromux-tui/src/remote.rs:599-623 | a refresh gives up exactly on a later answer that goes on and holds nothing, or where the service is gone; otherwise it copies every answer until one is the whole rest, or the tail where it has to start over |
| Mirror.RefreshCatchesUpExactly | crates/micromux-tui/src/remote.rs:560-624 | a completed refresh is caught up exactly if the record that was not asked for again was not replaced and nothing is stale of what earlier ones left; however it ends, every other copied record is right |
| Mirror.CaughtUpExceptExactly | crates/micromux-tui/src/remote.rs:599-623 | a mirror caught up but for some records is caught up exactly if the server retains none of those with another text |
| Mirror.EmptyFirstAnswerLeavesStaleRecord | crates/micromux-tui/src/remote.rs:599-623 | an input: an empty truncated first answer, after which a replaced newest record keeps its old text |
| Mirror.HydrationLeavesStaleRecord | crates/micromux-tui/src/remote.rs:599-623 | an input: a shortened tail, after which a record that is replaced and followed keeps its old text, with the cursor beyond it |
| MirrorPages.TracksOn | crates/micromux-tui/src/remote.rs:560-624 | whatever the server does, only the newest copied record can be added to what is out of date |
| MirrorPages.AnswerTracks | crates/micromux-tui/src/remote.rs:560-624 | after every answer, and whatever came before it, all copied records that the server retains are right but for those left behind; after the last one the mirror is caught up but for those |
| MirrorPages.ShowsExactly | crates/micromux-tui/src/remote.rs:560-624 | such a mirror is as it should be exactly if none of those is stale |
| MirrorPages.OnlyHydrationsOutdate | crates/micromux-tui/src/remote.rs:599-623 | behind a shortened answer to a mirror that holds anything, no server move replaces the newest copied record |
| MirrorStore.HydratesNewAndCleared | crates/micromux-tui/src/remote.rs:522-558 | exactly the new ids, whose entries start empty, and those whose acknowledged generation the listing has passed are hydrated, each once |
| MirrorStore.RunTracks | crates/micromux-tui/src/remote.rs:522-558 | over every run an entry remembers the largest generation acknowledged since it appeared or was cleared |
| MirrorStore.ClearsExactlyAfterRestart | crates/micromux-tui/src/remote.rs:522-558 | after every run, the roster takes the server's order and an entry's logs go exactly when its generation passes all outstanding acknowledged ones |
| MirrorStore.WithoutIsFilter | crates/micromux-tui/src/remote.rs:575-578 | forgetting a service leaves the others in their order |
| MirrorStore.MarkedRemembers | crates/micromux-tui/src/remote.rs:758-771 | marking keeps the maximum of what was remembered and what is acknowledged |
| MirrorStore.ServiceRoster.ReconcileServices | crates/micromux-tui/src/remote.rs:522-558 | the loop over snapshots computes the reconciled store and the hydration list |
| MirrorStore.ServiceRoster.MarkPendingLogClears | crates/micromux-tui/src/remote.rs:758-771 | marks every acknowledged service that is mirrored |
| Handoff.CoalescedHearsTheSame | crates/micromux-tui/src/remote.rs:95-111 | coalescing keeps every change once |
| Handoff.CoalesceChanges | crates/micromux-tui/src/remote.rs:98-106 | every change once, in the order of the first occurrences |
| Handoff.BatchTasksCover | crates/micromux-tui/src/remote.rs:465-492 | whatever a batch is told about, it refreshes |
| Handoff.BatchTasksAre | crates/micromux-tui/src/remote.rs:465-492 | for every batch: the roster first and once exactly if some change is of status, roster or unknown kind; logs and health exactly of the services with such changes, once and in the order of the news; nothing for events and heartbeats |
| Handoff.AnnouncedIsHeard | crates/micromux/src/model.rs:1408-1502 | a server that announces a changed snapshot as status or as an unknown kind, whoever comes or goes as roster, and contents as what they are, is heard of everything but the contents of a service added again |
| Handoff.SyncTasksCover | crates/micromux-tui/src/remote.rs:435-447 | a full sync refreshes logs and health of every listed service, in order, and nothing else |
| LogCopies.TookKeeps | crates/micromux-tui/src/remote.rs:560-624 | every answer keeps what is known of a copied log, also across a service that was added again |
| LogCopies.RightExactly | crates/micromux-tui/src/remote.rs:560-624 | where the last refresh was about the log as it is and the copy is of that log alone, it is right exactly if nothing left behind is stale |
| LogCopies.StagesAreRefresh | crates/micromux-tui/src/remote.rs:560-624 | the requests that the protocol makes one by one for a log are those of the loop in `RefreshLogs`, and end with them |
| Handoff.StepKeeps | crates/micromux-tui/src/remote.rs:333-447 | every step of server and client keeps the protocol's invariant, between the requests of a refresh too |
| Handoff.RunKeeps | crates/micromux-tui/src/remote.rs:333-447 | the invariant holds in every interleaving, across reconnects |
| Handoff.NoLostChange | crates/micromux-tui/src/remote.rs:421-433 | in every connected state of every interleaving, a key that differs from the server is queued, still to be asked for, answered as the server is, among those whose news was dropped, or damaged by a refresh |
| Handoff.GuaranteedExactly | crates/micromux-tui/src/remote.rs:421-433 | so everything that differs is going to be refreshed exactly if every dropped or damaged key that differs is |
| Handoff.NothingLost | crates/micromux-tui/src/remote.rs:421-433 | runs without the steps that drop news or do damage keep the guarantee in every connected state, and every settled mirror is the server |
| Handoff.SwallowKeepsExactly | crates/micromux-tui/src/remote.rs:375-381 | a swallowed answer keeps the guarantee exactly if every key of the rest of the batch that differs is queued |
| Handoff.SkipFrameKeepsExactly | crates/micromux-tui/src/remote.rs:371-390 | a skipped notification keeps it exactly if every differing key that it concerned is queued otherwise |
| Handoff.MoveKeepsExactly | crates/micromux-tui/src/remote.rs:384-390 | a server change keeps it exactly if everything that it made differ unannounced is going to be refreshed, also when an answer has come in before |
| Handoff.ApplyKeepsExactly | crates/micromux-tui/src/remote.rs:465-492 | the use of an answer can break it only for what the answer is about, and for the roster |
| Handoff.HydrationKeepsExactly | crates/micromux-tui/src/remote.rs:599-623 | the last answer of a refresh of logs keeps it exactly if no record left behind is stale, or the logs are going to be refreshed |
| Handoff.DamageDiffersExactly | crates/micromux-tui/src/remote.rs:599-623 | logs whose last refresh was about the log as it is differ from it exactly if a record left behind is stale |
| Handoff.SettledIsExact | crates/micromux-tui/src/remote.rs:421-433 | with nothing queued or under way, the mirror is the server, logs line for line, exactly if no dropped or damaged key differs |
| HandoffRuns.SwallowedErrorLosesChange | crates/micromux-tui/src/remote.rs:375-381 | a run in which an unexpected answer is swallowed ends settled and without a service |
| HandoffRuns.SkippedFrameLosesChange | crates/micromux-tui/src/remote.rs:371-390 | so does one in which a notification is skipped |
| HandoffRuns.EndedSubscriptionLosesChange | crates/micromux-tui/src/remote.rs:384-390 | so does one in which the subscription ends, until that is noticed |
| HandoffRuns.HydrationLosesChange | crates/micromux-tui/src/remote.rs:599-623 | a run in which everything is announced and nothing dropped ends settled, with an outdated record from a hydration of two requests |
| HandoffRuns.RecreatedServiceLosesChange | crates/micromux/src/model.rs:1408-1427 | a run in which a service is added again under its id ends settled, with the health and the logs of the service that is gone |
| ViewCache.PassRestoresCache | crates/micromux-tui/src/render.rs:829-856 | a cache that was its source is its source again after one dirty pass |
| ViewCache.PassRestoresExactly | crates/micromux-tui/src/render.rs:829-856 | whatever is cached and whatever the mirror holds, the pass restores the cache exactly if the lines it does not ask for again are right already |
| ViewCache.PassAfterRingRun | crates/micromux-tui/src/render.rs:829-856 | so over any appends, replacements, evictions and clears of the ring in between |
| ViewCache.PassAfterPages | crates/micromux-tui/src/remote.rs:198-223 | so over any pages appended to the mirror in between, even such as no server sends |
| ViewCache.RegressedCursorRepopulates | crates/micromux-tui/src/remote.rs:203-213 | a cursor at or beyond the newest mirrored number replaces the whole cache in the same pass |
| ViewCache.PageAdvancesMirror | crates/micromux-tui/src/remote.rs:652-672 | any page only advances the mirror's own history |
| ViewCache.TailAdvancesMirror | crates/micromux-tui/src/remote.rs:674-679 | so does starting over from a tail of higher numbers |
| ViewCache.EvolvesAdvances | crates/micromux/src/model/memory.rs:120-127 | any run of a stream slides the window of what is retained |
| ViewCache.ServiceView.RenderLogs | crates/micromux-tui/src/render.rs:829-856 | the two loops compute the synchronised cache, and only when dirty |
| ViewCache.ChainShowsServer | crates/micromux-tui/src/render.rs:829-856 | through ring, mirror and cache, and with the server moving on during the refresh, every shown number that it retains shows its text, and no retained number between two shown ones is missing |
| MirrorRuns.RetailIsNewer | crates/micromux-tui/src/remote.rs:580-597 | whenever the client has to start over, the tail it gets is newer than everything it held |
| MirrorRuns.RunKeepsMirrored | crates/micromux-tui/src/remote.rs:522-624 | over every run of refreshes, tails, clears and server moves, whatever the server does between answers, all copied records that it retains are right but for the newest and those that refreshes left behind; after a completed one the mirror is as it should be exactly if none of the latter is stale |
| MirrorRuns.RefreshLeavesNothing | crates/micromux-tui/src/remote.rs:599-623 | only hydrations leave records behind: a refresh of a mirror that holds anything adds none |
| MirrorRuns.PassWithoutClears | crates/micromux-tui/src/remote.rs:198-223 | over any run without a clear, whatever the server does between answers, one dirty pass makes the cache the mirror |
| MirrorRuns.PassAfterAnyRun | crates/micromux-tui/src/remote.rs:198-223 | over any run whatsoever, exactly if the two windows agree where the pass does not ask again |
| MirrorRuns.RehydratedPass | crates/micromux-tui/src/remote.rs:536-540 | after a clear and any hydration, a pass restores the cache exactly if the mirror's window does not start before the cached one, or either is empty |
| MirrorRuns.PassAfterMirrorRun | crates/micromux-tui/src/remote.rs:198-223 | so over every run of steady refreshes, tails, clears and server moves, between any two points, exactly if the window does not start before the cached one |
| MirrorRuns.RehydratedReachesBack | crates/micromux-tui/src/remote.rs:536-540 | a run in which the hydrated tail reaches further back than the cache, which never gets the line |
| EventMerge.MergeServiceEvents | crates/micromux-mcp/src/tools/events.rs:28-110 | the page, cursors and truncation flag are those of some greedy merge |
| EventMerge.MergeGroups | crates/micromux-mcp/src/tools/events.rs:50-81 | the loop merges by time and then service, taking each queue from the front |
| EventMerge.ReturnedCursors | crates/micromux-mcp/src/tools/events.rs:112-121 | the largest returned number of each service |
| EventMerge.MergeKeepsServices | crates/micromux-mcp/src/tools/events.rs:50-81 | each service comes out as it went in |
| EventMerge.MergesUnique | crates/micromux-mcp/src/tools/events.rs:50-81 | there is only one greedy merge |
| EventMerge.MergeExists | crates/micromux-mcp/src/tools/events.rs:50-81 | there is one for all queues |
| EventMerge.PageIsFrontOfMerge | crates/micromux-mcp/src/tools/events.rs:83-90 | merging the first n events of each service gives the first n of the merge of everything |
| EventMerge.MergeOfRest | crates/micromux-mcp/src/tools/events.rs:83-90 | the merge of what is left is what is left of the merge |
| EventMerge.CallConserves | crates/micromux-mcp/src/tools/events.rs:92-103 | whatever fronts the pages hold, returned events and the rest beyond the cursor make up what there was |
| EventMerge.CallIsFront | crates/micromux-mcp/src/lib.rs:2475-2519 | one call returns the front of the merge of everything remaining and its cursors leave the rest |
| EventMerge.PagingIsTransparent | crates/micromux-mcp/src/lib.rs:2475-2519 | pages put end to end are the merge of everything remaining, and the process ends |
| EventMerge.TailThenFollow | crates/micromux-mcp/src/tools/events.rs:94-99 | whatever a tail page shows of a service ends on the newest of the snapshot, and following delivers exactly what is newer |
| EventOrder.NothingFollowedYet | crates/micromux-mcp/src/lib.rs:2475-2519 | without cursors, following starts at the beginning |
| EventMerge.FrontOfMergeExactly | crates/micromux-mcp/src/tools/events.rs:83-90 | for pages of any length, what is merged from them is a front of the full merge exactly if nothing comes out after the first event that a used-up page omits |
| EventMerge.CallIsFrontExactly | crates/micromux-mcp/src/lib.rs:2475-2519 | so a call returns the front of everything remaining exactly then, whatever lengths its pages have |
| EventMerge.ShortPagesAreFront | crates/micromux-mcp/src/lib.rs:2475-2519 | in particular when no page that stops short is used up before the last returned event; then its cursors leave the rest |
| EventMerge.LatePagesAreFront | crates/micromux-mcp/src/lib.rs:2475-2519 | which the pages and the limit alone tell: no truncated page is used up before the last event that fits |
| EventMerge.ShortPageReorders | crates/micromux-mcp/src/lib.rs:2492-2503 | an input: pages shorter than the limit that are not a front of the merge |
| EventOrder.MergesExactly | crates/micromux-mcp/src/tools/events.rs:50-81 | a list is the merge exactly if it keeps every service as it is, and no event is newer than what another service then has next, nor as old and of a later name |
| Prelude.StringLessEqMeans | crates/micromux-mcp/src/tools/events.rs:57-73 | names compare by the first code point in which they differ, and a front comes first |
| EventOrder.MergeSortsExactly | crates/micromux-mcp/src/tools/events.rs:50-81 | the merge is in order of time, and of names at equal times, exactly if every service is in order of time |
| EventOrder.PageIsCut | crates/micromux-mcp/src/tools/events.rs:83-110 | a call returns as much as fits of the merge of its pages, the oldest or for a tail page the newest; it is flagged exactly if it or a page left something out |
| EventOrder.PageOfService | crates/micromux-mcp/src/tools/events.rs:83-90 | of every service a call returns the front of its page, for a tail page the end |
| EventOrder.TailIsEndOfMerge | crates/micromux-mcp/src/tools/events.rs:83-90 | where services are in order of time, merging the last n events of each gives the last n of the merge of everything |
| EventOrder.TailPageIsNewest | crates/micromux-mcp/src/lib.rs:2475-2519 | so a tail page shows the newest events of the whole session |
| EventOrder.TruncatedExactly | crates/micromux-mcp/src/tools/events.rs:105-109 | a call is truncated exactly if its cursors leave something to fetch |
| LogMerge.MergePreservingServiceOrder | crates/micromux-mcp/src/logproc.rs:624-678 | the loops compute a greedy merge of whole records |
| LogMerge.MergeGroups | crates/micromux-mcp/src/logproc.rs:635-676 | its loop takes the whole record at the least head each time |
| LogMerge.MergesUnique | crates/micromux-mcp/src/logproc.rs:624-678 | there is only one such merge |
| LogMerge.MergeIsOrderedPermutation | crates/micromux-mcp/src/logproc.rs:624-678 | the output is a permutation that keeps every service's order |
| LogMerge.MergeKeepsRecordsWhole | crates/micromux-mcp/src/logproc.rs:657-671 | entries of a record that arrive adjacent leave adjacent |
| LogMerge.MergeSortsExactly | crates/micromux-mcp/src/logproc.rs:624-684 | the output is in time order exactly when every service is and no record straddles the start of another service's |
| LogMerge.TwoTimesInOneRecordUnsort | crates/micromux-mcp/src/logproc.rs:657-671 | one record that spans two times can break the time order |
| LogOrder.MergesExactly | crates/micromux-mcp/src/logproc.rs:624-684 | a list is the merge exactly if it keeps every service as it is and records whole, and every record comes no later than what another service then has next, by source time where there is one and by name at equal times |
| LogOrder.MergesInOrderExactly | crates/micromux-mcp/src/logproc.rs:624-684 | the same of the entries as they come in |
| LogMerge.TruncatePreservingRecordBoundaries | crates/micromux-mcp/src/logproc.rs:546-573 | keeps everything where it fits and nothing for a limit of nothing; otherwise the limit and on to the end of the record there, which is the shortest such front that splits no record |
| LogMerge.TailPreservingRecordBoundaries | crates/micromux-mcp/src/logproc.rs:517-544 | the same from the end: the limit and back to the start of the record there |
| LogMerge.CutsSplitNoRecord | crates/micromux-mcp/src/logproc.rs:517-573 | for every limit, both cuts keep as many entries as they may, or all there are, and move on only to keep a record whole |
| LogMerge.TruncatedCursorSkipsNothing | crates/micromux-mcp/src/logproc.rs:546-573 | what is dropped of a service has numbers above everything returned of it |
| LogMerge.ApplyGrepContext | crates/micromux-mcp/src/logproc.rs:493-508 | keeps, in order and once, exactly the positions within the context of a match |
| Interpolation.InterpolateTracking | crates/micromux/src/env.rs:308-378 | the scan substitutes tokens that do not depend on the environment, and notes unbound names in order |
| Interpolation.WrittenReadsBack | crates/micromux/src/env.rs:308-378 | any tokens can be written down and are read back one for one |
| Interpolation.BareForms | crates/micromux/src/env.rs:318-375 | what a bare name, a lone dollar sign and an unclosed brace are read as |
| Interpolation.DoubledStandsForItself | crates/micromux/src/env.rs:327-331 | a text with doubled dollar signs stands for itself in every environment and misses nothing |
| Interpolation.ReferenceStands | crates/micromux/src/env.rs:333-371 | behind any written text, a reference in any of its three forms stands for the value of its name, or for nothing where that is unbound, and is missed exactly then, unless it names nothing; what comes before and after is what it would be alone |
| Interpolation.LiteralStands | crates/micromux/src/env.rs:318-375 | any other character stands for itself, as do two dollar signs for one and one that begins no reference |
| Dotenv.StripValueInlineComment | crates/micromux/src/env.rs:123-161 | both scans end at the first closing quote or the first comment |
| Dotenv.UnescapeDoubleQuotedValue | crates/micromux/src/env.rs:163-184 | the loop computes the unescaped text |
| DotenvWriting.QuotedValueMeans | crates/micromux/src/env.rs:186-204 | blanks around quotes do not count; single-quoted text comes out of the expansion as it stands, double-quoted text is unescaped |
| DotenvWriting.PlainValueMeans | crates/micromux/src/env.rs:186-204 | any other value means itself without the blanks around it |
| Dotenv.ParseDotenv | crates/micromux/src/env.rs:206-233 | the loop folds the meanings of the lines, and stops at the first in error |
| Dotenv.ParsedFailsAtFirst | crates/micromux/src/env.rs:206-233 | a file is accepted exactly when every line is; otherwise the first offender and its number are reported |
| Dotenv.EnvMap.Insert | crates/micromux/src/env.rs:92-94 | looking up the key gives the value and looking up any other key what it gave before; keys stay unique and in place, a new one comes last |
| Dotenv.EnvMap.Extend | crates/micromux/src/env.rs:100-102 | the other map's bindings are inserted in order |
| Dotenv.ExpandEnvValuesTracking | crates/micromux/src/env.rs:271-286 | each binding sees the base and the expanded bindings before it |
| Dotenv.LaterSeesEarlier | crates/micromux/src/env.rs:271-286 | a binding that refers to an earlier key gets its expanded value, whatever the base holds; the base counts where no earlier binding has the key, and where neither has it is reported |
| Dotenv.SeenAt | crates/micromux/src/env.rs:271-286 | what each binding sees: the keys before it as expanded, all others as in the base |
| Dotenv.PrefixExpandsToPrefix | crates/micromux/src/env.rs:271-286 | later keys never influence earlier ones |
| DotenvWriting.EscapedUnescapes | crates/micromux/src/env.rs:163-184 | escaping is undone |
| DotenvWriting.QuotedHasNoComment | crates/micromux/src/env.rs:123-148 | a written value is not mistaken for one with a comment |
| DotenvWriting.QuotedMeans | crates/micromux/src/env.rs:186-204 | a written value means its text with doubled dollar signs |
| DotenvWriting.LineMeans | crates/micromux/src/env.rs:209-229 | a written line binds its key to that |
| DotenvWriting.DecoratedLineMeans | crates/micromux/src/env.rs:105-148 | also with `export` in front and anything behind the closing quote |
| DotenvWriting.WrittenFileReadsBack | crates/micromux/src/env.rs:206-286 | any ordered map of identifiers to texts is written, parsed and expanded to itself, under every base environment |
| DotenvWriting.CommentBehindBlankIsValue | crates/micromux/src/env.rs:149-160 | an input: a comment behind a blank is read as the value |
| DotenvWriting.PlainCommentExactly | crates/micromux/src/env.rs:149-160 | exactly when a plain value is read as the comment is documented |
| DotenvReading.EscapesMean | crates/micromux/src/env.rs:163-184 | what each escape stands for behind any written text, and that any other backslash stays, also at the end |
| DotenvReading.WhitespaceIs | crates/micromux/src/env.rs:105-157 | white space is the twenty-five code points with the Unicode property |
| DotenvReading.LinesMean | crates/micromux/src/env.rs:209 | lines end at line feeds, with a carriage return right before one |
| DotenvReading.BindsNothingExactly | crates/micromux/src/env.rs:211-226 | a line is skipped exactly if blank or behind a hash, and rejected, with its number, exactly if it has no equals sign or nothing but `export` and blanks before it |
| DotenvReading.PlainLineMeans | crates/micromux/src/env.rs:105-229 | any other plain line binds its key to the text behind the equals sign, without blanks and comment, with or without `export` |
| DotenvReading.LastLineWins | crates/micromux/src/env.rs:206-233 | a file binds a key as the last line does that binds it, and not if none does |
| DotenvReading.KeysInOrder | crates/micromux/src/env.rs:206-233 | keys come in the order of the lines that bind them first |
| DotenvReading.ExtendedMeans | crates/micromux/src/env.rs:100-102 | extending a map: the other's bindings win, and its new keys follow in their order |
| RowWindow.RenderedLineIndex.Rebuild | crates/micromux-tui/src/render.rs:1095-1111 | the running total is the number of rows before each line |
| RowWindow.RenderedLineIndex.SourceWindow | crates/micromux-tui/src/render.rs:1119-1142 | the lines and local offset that two binary searches select show the rows of the full rendering, for short lines and for every local offset below the cut, and no line is drawn that shows nothing |
| RowWindow.LogView.Render | crates/micromux-tui/src/render.rs:1183-1216 | clamps the offset and shows, of the full rendering, as many rows from there as fit; following the tail shows its last rows |
| RowWindow.WindowIsSlice | crates/micromux-tui/src/render.rs:1119-1142 | without the cut to sixteen bits the window always shows the rows of the full rendering |
| RowWindow.ShortLinesShown | crates/micromux-tui/src/render.rs:1119-1142 | lines of at most 65535 rows are shown right at every offset |
| RowWindow.CutShowsExactly | crates/micromux-tui/src/render.rs:1138-1141 | where no two rows look the same, the cut shows the right ones exactly when it is harmless |
| RowWindow.TallLineShowsRowBefore | crates/micromux-tui/src/render.rs:1138-1141 | an input: the last of 65537 rows of one line |
| HealthLoop.Loop.RecordProbeFailure | crates/micromux/src/health_check.rs:509-538 | the flag and counter follow the history; the event goes out on the failing transition only |
| HealthLoop.Loop.Run | crates/micromux/src/health_check.rs:549-630 | the events are exactly those the delivered rounds call for, with their times |
| HealthLoop.UnhealthyMeans | crates/micromux/src/health_check.rs:509-538 | unhealthy exactly when the last max(1, retries) rounds all failed |
| HealthLoop.EventsAre | crates/micromux/src/health_check.rs:549-630 | exactly the rounds with a signal have an event |
| HealthLoop.DeliveredExactly | crates/micromux/src/health_check.rs:549-630 | the loop ends early only at an interrupted pause, a cancelled probe or refused news, and gets through every round before |
| HealthLoop.EventsExactly | crates/micromux/src/health_check.rs:549-630 | every pass and every streak that reaches the threshold has its event, in order, after the start delay, the probes and the pauses so far; no other round has one |
| HealthLoop.UnhealthyAtThreshold | crates/micromux/src/health_check.rs:509-538 | the announcement comes at the threshold-th failure of a streak and nowhere else |
| HealthLoop.HealthyBetween | crates/micromux/src/health_check.rs:585-609 | between two announcements of unhealthy lies one of healthy |
| HealthLoop.LatencyExactly | crates/micromux/src/spec.rs:152-157 | an announcement takes as long as the probes of its streak and the pauses between them |
| HealthLoop.LatencyBound | crates/micromux/src/spec.rs:152-157 | the documented bound, for probes that end within the timeout |
| HealthLoop.CleanupExceedsBound | crates/micromux/src/spec.rs:152-157 | time beyond the timeout exceeds the documented bound |
| Utf8Codec.LossyReadsBack | crates/micromux/src/health_check.rs:700-703 | lossy decoding reads every encoded text back |
| Utf8Codec.LossyOfBroken | crates/micromux/src/health_check.rs:700-703 | bytes after a text decode on their own |
| Utf8Codec.LossyFront | crates/micromux/src/health_check.rs:700-703 | how any bytes are read: a front that encodes a character as it; otherwise one replacement for the longest front that could become one, or for one byte |
| BoundedReader.Reader.ReadBoundedLine | crates/micromux/src/health_check.rs:664-704 | consumes exactly one line, holds at most 16 KiB and three bytes, and answers by the stream alone |
| BoundedReader.Reader.ReadAll | crates/micromux/src/health_check.rs:641-662 | reads every line; an error loses the line it interrupts |
| BoundedReader.LineIsCut | crates/micromux/src/health_check.rs:664-704 | a line of UTF-8 text is answered as its longest whole-character front within the cap |
| BoundedReader.ChunksDoNotMatter | crates/micromux/src/health_check.rs:664-704 | however a text is split into chunks, its lines come out the same |
| BoundedReader.TextLinesMean | crates/micromux/src/health_check.rs:692-703 | those lines: without line feed and one carriage return, cut to the longest front within 16 KiB |
| BoundedReader.ErrorLosesOneLine | crates/micromux/src/health_check.rs:641-662 | an error loses the line that it interrupts, and nothing before or after |
| StartToken.StepKeeps | crates/micromux-control/src/server.rs:72-85 | every load, exchange and failure keeps the order of stored tokens |
| StartToken.TokensRise | crates/micromux-control/src/server.rs:66-85 | in every interleaving tokens rise in commit order, and are equal only at the last number |
| StartToken.TokensUnique | crates/micromux-control/src/server.rs:66-85 | two calls never return the same token except the last number |
| StartToken.LaterCallsGetLaterTokens | crates/micromux-control/src/server.rs:66-85 | a call that begins after another returned gets a later token |
| StartToken.TokenIsLeast | crates/micromux-control/src/server.rs:66-85 | a token is the least number that is at least the time at which its call began and above the one stored before, or the last number |
| StartToken.LastNumberRepeats | crates/micromux-control/src/server.rs:74 | at the last number a token is handed out again |

## Left out

- MirrorEntry.RefreshLogs: the server changes finitely often during one refresh; against one that never rests, neither
  the loop nor the model's is sure to end.
- MirrorRuns.PassAfterMirrorRun: between the answers of one refresh the server evicts nothing that is still to be asked
  for, and replaces nothing behind a shortened tail. `PassWithoutClears` and `PassAfterAnyRun` do without both.
- Mirror.RequestLogPage: a record too large for one response is shortened by the server
  (crates/micromux-control/src/server/unix.rs:905-963); the model's answers hold records whole.
- MirrorStore.ServiceRoster.ReconcileServices: says which entries result only for distinct ids, which a listing of a
  map of services has.
- Handoff.NoLostChange: the contents of health are version numbers, and so are the parts of a snapshot that only get
  copied. The server is assumed to announce every change of a service that stays in the roster.
- HealthLoop.Loop.Run: sends and pauses take no time of their own; a send that waits would delay what follows.
- RowWindow.LogView.Render: layout, borders and colours are not modelled, and the layout library is a function from a
  line and a width to rows.
- ViewCache.ServiceView.RenderLogs: formatting is an arbitrary function of the line, and rebuilding the styled text is
  left out.
- LogMerge.ApplyGrepContext: matching is an arbitrary predicate on entries.
- Sockets, framing, timeouts, scheduling and publishing to subscribers are not modelled; requests and answers are steps.
- Unsigned numbers are unbounded except in `StartToken`; where the code saturates, the model does not reach the limit.
- Reconfiguring the ring is proved for the ring alone: downstream caches are not promised agreement across it.
- Parsing of log records into entries, levels and fields is not modelled; entries are inputs.
- Reading files, the size limit of environment files and path expansion are left out.
- Selector matching, response conversion, sidebar state and reconnect backoff are not modelled: each is one function
  of its inputs, with no state that others depend on.
