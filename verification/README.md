# Reasonix desktop: verified models

A Dafny 4.11 model of the parts of the Reasonix desktop backend whose correctness does not
show in any single function: the windowed history pager, the stores and schedulers that
several processes or goroutines share, and the operations that promise to be all or nothing.
`dafny verify dfyconfig.toml` checks the whole project.

## The history pager

`HistorySliceForTab` serves bounded pages of a transcript. Each page converts only a window of
provider messages into history rows, but must look as if it had been cut out of one pass over
the whole transcript. The comment that introduces it promises that concatenating pages
reproduces the full conversion exactly (desktop/history_slice.go:49-52).
For a single run this holds if and only if every page renders every message it covers as the
full conversion does (`PagerExact.RunExactIff`). `Pager.PagesReproduceFullConversion` proves it
for all runs of a transcript that is safe to cut:

- *Planner state.* A page replays the prefix with a state-only pass. It reaches the state of the
  full pass at every cut if and only if each message is in step in the state the full pass meets
  it in (`Pager.PrimedIsFullIff`). A user-role steer is not, although the comment of the pass asks
  for lock-step (desktop/app.go:5537-5542), when a planner display is queued under its own text;
  nor is a user-role pending-readiness row that finds one or lifts a suppression.
- *Tool results.* The look-ahead stops at the first result behind the window, the full map keeps
  the last one. They agree on all windows if and only if the results of a call are settled
  around it (`ToolResults.WindowsAgreeIff`).
- *Times.* A window asks for persisted times only when it holds an untimed authored message.
  The rows agree in all windows if and only if every rendered message that receives a time is
  authored (`Pager.TimesAgreeIff`).
- *Cursor.* A source accepts its own cursors if and only if its revision is known or 0
  (`Pager.OwnCursorAcceptedIff`).

`Pager.CutSafe` collects the first three. Each is exact for what it speaks of (states, lookups,
times) and together they suffice for the rows; a difference in state or lookups that no later row
shows does no harm, which is why the exact law of a run is stated on rows. `PagerLimits` gives,
for each of the three, a session that meets the other two and a complete run of pages that does
not join to the full conversion. Ordinary transcripts are cut-safe
(`PagerSources.OrdinaryIsCutSafe`), and over all sources and budgets of a session the exact
condition is that every window renders each message that fits the largest page over it alike
(`PagerSources.AllRunsExactIff`).

A page counts the chunks of every oversized field of its window, and that loop does not stop on
every text: a request returns if and only if every field of the rows of its window splits
(`PageSpec.PageReturnsIff`), which well-formed UTF-8 always does. Runs consist of requests that
return. Nothing is assumed about the text helpers (steer recognition,
display resolution, previews): they are arbitrary functions in `HistoryModel.Rules`, and what the
theorems need about classification follows from the definitions.

Around it: the budget cut (`Cuts`), the event-format pager (`EventRows`), the live sources
(`LiveSource`), the single-flight cache (`DerivedCache`), and the content refs of oversized
fields (`Entries`, `Chunks`, `ContentRefs`) over UTF-8 as defined in sections 3 and 4 of
RFC 3629.

These theorems compare computations with each other. What the computations show is said by
modules that use none of the functions they describe: `ConvertMeaning` (the rows of every message in
every state, and the planner displays over a transcript), `TodoReplay` (the arguments shown for
todo_write calls, from the calls and their results), `SourceMeaning` (turns and times as counts of
messages), `PageMeaning` (pages, entries and refs, and how a source answers cursors and refs of
another) and `DerivedRuns` (what the cache evicts, from the calls of a run).

## The other components

- `HeartbeatConfig`, `HeartbeatRuns`, `HeartbeatSchedule`: compare-and-swap on the shared task
  file, by one engine call at a time and as a state machine of many engines; which run completions
  are kept and which are lost; calendar rules. The weekly scan misses the occurrence one full
  window back, the monthly rule overflows in short months, and a dropped completion makes a task
  run again for the same occurrence; each has its exact condition.
  `HeartbeatCalendar` restates the due rule on civil dates, found by counting days from Thursday,
  1 January 1970; `HeartbeatMemory` says what an engine remembers and which panel saves pass.
- `BotBridge`: versioned persistence of watch subscriptions as an interleaved state machine, and
  the takeover registry. A refresh can undo a change, and the second critical section of
  DriveInput can break the registry; both have their exact condition. `BotRequests` says what is
  watched and stored in terms of the calls alone.
- `Paginators`: filtered cursor pagination and the prompt tape.
- `Checkpoints`: the bounded preview of files a rewind touches.
- `Export`: multi-part export. A failed batch is meant to remove what it created
  (desktop/app.go:10686-10690). It leaves files behind when the stat of a target created by copy
  fails, or when a clean-up cannot look at a target; `Export.LeavesFilesIff` says exactly when.
- `DeferredRebuild`: the retry queue and its one background loop.

Go strings are byte sequences; the model uses Dafny strings with one character per byte.
Each method that updates state in place is proved against a function of its old state, and
the laws are lemmas about those functions. Automatic induction is switched off throughout, so
every inductive argument is written out in a lemma's body. Concurrent components are state machines whose
steps are the critical sections of the source.

## Model

| member | source | states |
|---|---|---|
| `Pager.PagesReproduceFullConversion` | desktop/history_slice.go:866-996 | For every session and source with the transcript's messages, and for every run of requests that starts without a cursor and follows NextCursor to the end under arbitrary budgets: the pages joined oldest first are exactly the entries of one full conversion, provided the revision is 0 while unknown and the transcript is cut-safe. PagerExact.RunExactIff is the exact law of a single run; the three parts of cut-safety each have an exact law of their own. |
| `PagerExact.RunExactIff` | desktop/history_slice.go:866-996 | A complete run of pages joins to the full conversion if and only if every page renders every message it covers as the full conversion does; no condition on the transcript. |
| `PagerExact.PageExactIff` | desktop/history_slice.go:943-973 | A page is its block of the full conversion if and only if it renders every message it covers alike. |
| `PagerExact.CompleteRun` | desktop/history_slice.go:967-996 | For every session and every budget under which requests return there is a complete run from the latest page to the start. |
| `PagerSources.AllRunsExactIff` | desktop/history_slice.go:866-996 | For a session whose requests all return: every run over every source of it, under whatever budgets, joins to the full conversion if and only if every window renders each message that fits the largest page over it as the full conversion does. |
| `PagerSources.OrdinaryIsCutSafe` | desktop/history_slice.go:43-59 | An ordinary transcript is cut-safe: user-role steers are displayed as synthetic, readiness rows are not user-role, user messages are displayed only when authored, and a call has at most one result, behind it. |
| `PageSpec.PageReturnsIff` | desktop/history_slice.go:1177-1183 | A page request returns, that is the chunk count of every oversized field of its window does, if and only if every field of the rows of the window splits. |
| `PageSpec.ValidPagesReturn` | desktop/history_slice.go:1177-1183 | When the rows are well-formed UTF-8 every request returns. |
| `Pager.PageHistorySliceSource` | desktop/history_slice.go:866-996 | On every request that returns, the page method with its fetches, priming, look-ahead, entries and running trim yields the page of the specification SlicePage, or an error, and an error only when some window of the source cannot be read in full. |
| `Pager.PageBelow` | desktop/history_slice.go:889-996 | Window, overlay, lookups, priming, conversion and cut for one upper bound give the specified page PageEndingAt, on every window whose rows become entries. |
| `Pager.CutPage` | desktop/history_slice.go:943-965 | The conversion loop with its running budget trim keeps exactly the groups from the backward greedy cut on, starting from the primed planner state. |
| `Pager.KeepRows` | desktop/history_slice.go:944-965 | One message: its rows become one group, messages without rows none, and the kept groups are again the greedy cut of everything seen. |
| `Pager.PageIsBlock` | desktop/history_slice.go:943-973 | A page is one contiguous block of the full conversion that ends at the requested bound and starts strictly below it. |
| `Pager.WindowRowsAreFull` | desktop/app.go:5394-5535 | On a cut-safe transcript a message renders the same rows in any window that contains it as in the full pass. |
| `Pager.WindowRowsButTime` | desktop/app.go:5394-5535 | Without time-safety the rows still agree up to timestamps. |
| `Pager.TimesAgreeIff` | desktop/history_slice.go:1202-1236 | With state and lookups of the full pass, a message renders the same rows in every window if and only if a persisted time the whole-transcript overlay gives to its rendered row is one an authored message asks for. |
| `Pager.WindowStateIsFull` | desktop/app.go:5537-5569 | On a planner-safe transcript converting from any cut point continues in the planner state of the full pass. |
| `Pager.PrimedIsFullIff` | desktop/history_slice.go:1119-1132 | The primed state of every prefix of the first n messages is the state of the full pass if and only if each of these messages is in step in the state the full pass reaches it in; without planner displays, when priming is skipped, they always are. |
| `Pager.PrimedIsFull` | desktop/history_slice.go:1119-1132 | So on a planner-safe transcript the primed state of every cut point is the state of the full pass. |
| `Pager.PrimeHistoryPlannerState` | desktop/history_slice.go:1122-1132 | Chunked priming in place leaves the state of the state-only pass over the whole prefix. |
| `Pager.GatherLookups` | desktop/history_slice.go:917-930 | The lookups a page gathers answer each call of its window as window plus look-ahead and the todo replay do. |
| `Pager.LookupsAreFull` | desktop/history_slice.go:917-930 | When results are settled around every rendered call, those lookups agree with the whole-transcript lookups on every call of the window. |
| `Pager.FindWindowStart` | desktop/history_slice.go:888-907 | Binary search over the turns, then the raw-span cap, gives the specified window start, always below the upper bound. |
| `Pager.PagingTerminates` | desktop/history_slice.go:967-996 | A run of pages is never longer than the number of messages below its first bound. |
| `Pager.OwnCursorAcceptedIff` | desktop/history_slice.go:378-383 | A source accepts the cursors it issues if and only if its revision is known or 0. |
| `Pager.UnknownRevisionStalls` | desktop/history_slice.go:378-383 | With a non-zero revision that is not known, the second request of every run is answered stale. |
| `Pager.EntriesAreRows` | desktop/history_slice.go:945-957 | The entries of the full conversion are the rows of the one-pass conversion, one for one and in order, each with its oversized fields shortened. |
| `Pager.PageWithinTurns` | desktop/history_slice.go:888-900 | On non-decreasing turns a page never reaches a message older than its turn budget allows. |
| `PageSpec.FullConversion` | desktop/app.go:5374-5408 | The in-place one-pass conversion of the displayed transcript yields the rows that the page theorems refer to. |
| `PageSpec.SearchCrosses` | desktop/history_slice.go:894-895 | The binary search ends on a crossing point whether or not the turns are sorted. |
| `PageSpec.TurnStartBelow` | desktop/history_slice.go:888-900 | The turn budget never empties the window. |
| `PageSpec.TurnStartExact` | desktop/history_slice.go:888-900 | On sorted turns the window holds message i if and only if i is among the newest turns of the budget or the budget reaches the first turn. |
| `PageSpec.Normalize` | desktop/history_slice.go:199-219 | Normalized budgets are positive and the cursor is untouched. |
| `PageMeaning.ForeignCursorStaleIff` | desktop/history_slice.go:378-383 | Over two sources: a cursor issued by a page of one is answered stale by the other if and only if the digests differ, or whether the revision is known, or the revision (0 when unknown); otherwise the page that ends where the cursor points is served. |
| `PageMeaning.UndecodableIsLatest` | desktop/history_slice.go:866-874 | A cursor that is garbage, of another version or negative gets the latest page, as no cursor does, and never a stale answer. |
| `PageMeaning.PageTells` | desktop/history_slice.go:866-996 | Every page names its source, a stale one nothing else; its turn range bounds its entries, hasOlder and the cursor go together, and the cursor points at a message below the bound asked for. |
| `PageMeaning.TurnsAreBounds` | desktop/history_slice.go:974-984 | startTurn and endTurn are the least and the greatest positive turn of the entries, 0 when there is none. |
| `PageMeaning.EntryTells` | desktop/history_slice.go:1134-1175 | An entry of a page names its message, the turn of the message and its row, shows the row with long fields shortened, and has a ref for exactly the fields that are too long, with their version, size and chunk count. |
| `PageMeaning.LongFieldHasRef` | desktop/history_slice.go:1177-1183 | No text is lost: every field of more than 65536 bytes has a ref that tells its name, call and size. |
| `PageMeaning.FullRowsShow` | desktop/app.go:5374-5408 | Every message of the one-pass conversion shows what ConvertMeaning.Shows says of it, silenced and with planner displays as the messages before it decide. |
| `PagerLimits.SteerHidesAnswer` | desktop/app.go:5537-5569 | A session that meets the other two conditions and a complete run over its snapshot source, one turn per page, whose pages do not join to the full conversion: the priming consumes the planner display of a user-role steer and the answer is never shown. |
| `PagerLimits.SecondResultIsMissed` | desktop/history_slice.go:1029-1066 | The same for a call answered twice, one entry per page: the run shows the first result, the full conversion the last. |
| `PagerLimits.WordlessKeepsNoTime` | desktop/history_slice.go:1202-1236 | The same for a displayed but unauthored user message, one turn per page: the run shows no time, the full conversion gives it one. |
| `PagerLimits.BrokenPageNeverReturns` | desktop/history_slice.go:1177-1183 | A session with one answer of more than 262144 continuation bytes: no request for its latest page returns, whatever the budgets. |
| `PlainSessions.BriefReturns` | desktop/history_slice.go:1177-1183 | Every request about a session of short texts returns, so the runs above are runs of the source. |
| `Convert.ConvertState.ConvertHistoryMessage` | desktop/app.go:5414-5535 | The in-place conversion of one message yields the rows and the planner state of the specification step. |
| `Convert.ConvertState.ConsumeHistoryPlannerState` | desktop/app.go:5543-5569 | The in-place state-only pass leaves the state of its specification step. |
| `Convert.ConvertState.constructor` | desktop/app.go:5681-5690 | Planner displays are queued per user hash in recording order; blank hashes and empty turns are dropped. |
| `Convert.ConvertState.MessageRows` | desktop/app.go:5456-5525 | The stateless middle of the conversion, built step by step, is its specification. |
| `Convert.LockStepIff` | desktop/app.go:5537-5569 | A message is in step in every planner state if and only if LockStep holds of it. |
| `Convert.InStepIff` | desktop/app.go:5414-5569 | In a given planner state both passes leave the same state if and only if the message is in step there: only a user-role steer or pending-readiness row that finds a planner display of its own text, or lifts a suppression, is not. |
| `Convert.PrefixesAgreeIff` | desktop/app.go:5414-5569 | The state-only pass follows the conversion over every prefix if and only if each message is in step in the state the conversion reaches it in. |
| `Convert.NoDisplaysNoState` | desktop/history_slice.go:1122-1125 | Without planner displays no message changes the state, so skipping the priming is harmless. |
| `Convert.RowsUseOwnCalls` | desktop/app.go:5414-5535 | Rows depend on the lookups only through the message's own tool calls. |
| `Convert.RowsSameIff` | desktop/app.go:5414-5535 | Changing the timestamp of a message changes its rows if and only if it shows a row of its own. |
| `Convert.RowsButTime` | desktop/app.go:5414-5535 | A timestamp reaches nothing but the timestamps of the rows. |
| `ConvertMeaning.ConversionShows` | desktop/app.go:5414-5535 | For every message in every planner state, what its rows are, case by case and in terms of the message, the lookups and the text rules alone: receipt, readiness and steer notices, silence inside an interrupted planner turn, hidden host texts, and otherwise the own row, receipts, interruption notice and planner display in this order. |
| `ConvertMeaning.RowMeans` | desktop/app.go:5456-5505 | What the own row holds: role, content, reasoning, times, citations, submit text, checkpoint, server search, the tool calls in order, and for tool messages call id, name, execution, archived flag and error. |
| `ConvertMeaning.CallMeans` | desktop/app.go:5711-5736 | A tool call is copied with its subject and summary; a todo_write shows replayed arguments, and only it and calls without an id keep their arguments in the row. |
| `ConvertMeaning.TextsMean` | desktop/app.go:5334-5345 | What a user message says and how it is displayed: sidecar, replay or raw text. |
| `ConvertMeaning.KindsMean` | internal/agent/preview.go:326-357 | Which texts come from the host and which are turns of the user. |
| `ConvertMeaning.DisplaysAreTakenInOrder` | desktop/app.go:5681-5690 | First in, first out: each message of a transcript finds the planner displays of its text that no earlier message with that text has taken. |
| `ConvertMeaning.SilencedIff` | desktop/app.go:5432-5437 | Messages are silenced if and only if an earlier message took a display that announces an interrupted turn and the user has started no turn since. |
| `ConvertMeaning.MessageTakes` | desktop/app.go:5526-5533 | One message takes at most the oldest display of its own text, and only a message that shows a user row does. |
| `HistorySource.FetchWindow` | desktop/history_slice.go:909-915 | A window read is the right slice of the transcript or an error; short reads are refused. |
| `ToolResults.HistoryToolResultsByID` | desktop/app.go:5738-5747 | The loop builds the whole-transcript result map. |
| `ToolResults.MapAnswersLast` | desktop/app.go:5738-5747 | The map answers an id with its last result. |
| `ToolResults.ExtendHistoryToolResults` | desktop/history_slice.go:1029-1066 | After the chunked look-ahead every call id of the window is answered by its last result inside the window, else by the first result behind it. |
| `ToolResults.WindowsAgreeIff` | desktop/history_slice.go:1029-1066 | Every window that holds a call resolves its id as the whole transcript does if and only if the results of the id are settled around the call. |
| `ToolResults.OneResultSettles` | desktop/history_slice.go:1029-1066 | At most one result, placed after the call, is settled. |
| `Todos.HistoryTodoArgsForSource` | desktop/history_slice.go:1071-1117 | Two passes over 128-message chunks give the arguments of the in-memory replay, or an error on an unreadable source. |
| `Todos.Consume` | desktop/app.go:5942-5972 | One message of the replay, call by call. |
| `TodoReplay.TodoArgsAreShownLast` | desktop/app.go:5942-5972 | The replayed arguments of a todo_write are the text shown for it last: its own list, advanced by exactly the successful complete_step calls up to the next successful todo_write with todos. |
| `TodoReplay.ArgsAreOfSuccessfulLists` | desktop/app.go:5942-5972 | Every id with replayed arguments is that of a todo_write with todos that has a result without a failure. |
| `TodoReplay.FailedCallsAreIgnored` | desktop/app.go:5974-5985 | Adding or deleting calls that failed or have no result changes no replayed arguments. |
| `Times.WithPersistedTimes` | desktop/history_slice.go:1202-1236 | The overlay loop with its running ordinal is the overlay of the specification; with offset 0 on the whole transcript it is the full one. |
| `SourceMeaning.OverlayTells` | desktop/app.go:5069-5103 | When a turn of the user has no time, every user message without one gets the time recorded for its ordinal among the user messages; nothing else changes, and nothing at all otherwise. |
| `SourceMeaning.WindowTells` | desktop/history_slice.go:1202-1236 | The same for a window, with ordinals of the whole transcript and asking only for its own messages. |
| `Times.WindowOverlayIff` | desktop/history_slice.go:1202-1236 | The windowed overlay equals the whole one on its window if and only if the window asks for times, nothing does, or no message of the window has a time to receive. |
| `Times.AuthoredTimesAgree` | desktop/app.go:5069-5103 | Every authored user message gets the whole-transcript timestamp in every window that contains it. |
| `Times.UsersInWindow` | desktop/history_slice.go:1010-1021 | The user count before the window aligns window ordinals with transcript ordinals. |
| `PageMeaning.EntryCost` | desktop/history_slice.go:1185-1198 | An entry costs the byte budget the length of the text it shows. |
| `PageMeaning.WindowStartIsFirst` | desktop/history_slice.go:901-907 | The window begins at the first message within the turn budget from which it spans at most 32 MiB, or at the newest message. |
| `PageMeaning.BlankCursorStaleIff` | desktop/history_slice.go:238-262 | A cursor of blanks counts as one of an unknown revision 0 without digest: it is stale, or gets an empty page. |
| `Cuts.AppendAndTrim` | desktop/history_slice.go:955-964 | Appending a group and trimming the front keeps the longest affordable suffix of all groups seen. |
| `Cuts.CutIsCut` | desktop/history_slice.go:1583-1599 | The backward walk finds the longest suffix within both budgets, or only the newest group. |
| `Cuts.CutIsUnique` | desktop/history_slice.go:958-964 | There is only one such suffix, so the forward and the backward cut agree. |
| `Cuts.UnaffordableStays` | desktop/history_slice.go:958-964 | What does not fit never fits again as newer groups arrive. |
| `Cuts.CutKeepsSuffix` | desktop/history_slice.go:967-973 | The kept entries are all entries from the first kept message on. |
| `Cuts.PageFillsBudgets` | desktop/history_slice.go:943-973 | A page is the longest affordable run of newest messages of its window or only its newest rendered message. |
| `EventRows.PageHistoryEventRows` | desktop/history_slice.go:1548-1619 | The pager of event-format sessions, with its backward walk and reversal, returns the specified page whenever the rows its walk visits become entries. |
| `EventRows.WalkBack` | desktop/history_slice.go:1583-1599 | The greedy backward walk stops at the same cut as the forward trim and keeps its entries newest first. |
| `EventRows.DisplayOrder` | desktop/history_slice.go:1600-1602 | Reversing the kept entries gives display order. |
| `EventRows.TurnsAreSorted` | desktop/history_slice.go:1558-1568 | The turns the event pager counts are non-decreasing. |
| `EventRows.EventPagesReproduceRows` | desktop/history_slice.go:1548-1619 | Following cursors to the end under any budgets, the pages join to the entries of all rows, without a condition on the rows. |
| `PageMeaning.ForeignEventCursorStaleIff` | desktop/history_slice.go:1548-1553 | The event pager answers a cursor that another version of the rows issued as stale if and only if the digests differ. |
| `PageMeaning.EventPageTells` | desktop/history_slice.go:1548-1619 | Event pages name digest and turn range; their revision is 0 and unknown. |
| `PageMeaning.EventSourceTells` | desktop/history_slice.go:1558-1568 | The event pager works on the source completed with its rows; the turn of a row is the number of user rows up to it. |
| `LiveSource.ExtendIndex` | internal/agent/session_display_index.go:109-160 | Extending the index of a prefix gives the index of all messages and keeps the old entries. |
| `LiveSource.IndexedSource` | desktop/history_slice.go:454-521 | Index prefix plus unsaved tail, loop by loop, give the live source: authored turns in the prefix, visible turns in the tail. |
| `LiveSource.SnapshotSource` | desktop/history_slice.go:526-563 | The full-snapshot fallback: visible turns counted from the start. |
| `SourceMeaning.LiveTurnsCount` | desktop/history_slice.go:454-563 | The turn of a message of a live source is the number of user turns up to it: those the user wrote in the part the index covers, those displayed behind it; the source names session, state and roles. |
| `SourceMeaning.IndexTells` | internal/agent/session_display_index.go:109-160 | A valid index holds for every message its role and the number of turns the user wrote up to it. |
| `LiveSource.SameTurnsIff` | desktop/history_slice.go:454-563 | Both sources give every message the same turn if and only if, in the indexed prefix, a user message is authored exactly when it is displayed. |
| `LiveSource.LiveTurnsSorted` | desktop/history_slice.go:454-521 | The turns of a live source never decrease, which the binary search needs. |
| `LiveSource.SamePages` | desktop/history_slice.go:432-563 | Two sources with equal turns and identity serve the same page for every request. |
| `LiveSource.LiveSourcesAgreeIff` | desktop/history_slice.go:432-563 | For one persisted state the indexed source and the snapshot source have equal turns and totals if and only if, in the indexed prefix, a user message is authored exactly when it is displayed; every request then gets the same page from both. |
| `Chunks.HistoryContentChunkEnd` | desktop/history_slice.go:1253-1262 | The back-off loop ends a chunk at most 256 KiB on, before a character. |
| `Chunks.HistoryContentChunkCount` | desktop/history_slice.go:1240-1249 | The count is the number of chunks on every text on which the loop stops. |
| `Chunks.HistoryContentChunkAt` | desktop/history_slice.go:1266-1279 | One pass yields the requested chunk and the count; a negative index is 0 and one behind the end yields no data. |
| `Chunks.CountIsFirstEnd` | desktop/history_slice.go:1240-1249 | The count is the first round at which the chunk loop reaches the end of the text. |
| `Chunks.ChunkLoopStopsIff` | desktop/history_slice.go:1240-1262 | The chunk loops stop if and only if no run of 262144 continuation bytes ends strictly inside the text. |
| `Chunks.ValidSplits` | desktop/history_slice.go:1253-1262 | All UTF-8 that is well formed by section 4 of RFC 3629 is such a text. |
| `Chunks.ContinuationRunNeverStops` | desktop/history_slice.go:1240-1249 | A long text of continuation bytes only, on which the loops never return. |
| `Chunks.ChunksRoundTrip` | desktop/history_slice.go:1240-1279 | Chunks 0 to count-1 join to the text; each has at most 256 KiB and, unless the text is empty, at least one byte. |
| `Chunks.ChunkIsValid` | desktop/history_slice.go:1253-1262 | Every chunk of well-formed UTF-8 is well formed. |
| `Chunks.ClipStringBytes` | desktop/app.go:5906-5917 | The clip loop yields the prefix of the specification. |
| `Chunks.ClipIsLongestValidPrefix` | desktop/app.go:5906-5917 | A clipped preview of well-formed UTF-8 is well formed and the longest such prefix within the limit. |
| `EntryIds.ParseFormatIff` | desktop/history_slice.go:1355-1379 | An emitted entry id parses back to its message and sub-order if and only if the session id holds no colon; it then also names its session. |
| `Entries.NewHistoryEntry` | desktop/history_slice.go:1136-1183 | Field by field and call by call the method builds the specified entry, on every row whose fields all split. |
| `Entries.EntryReturnsIff` | desktop/history_slice.go:1177-1183 | Building an entry returns if and only if every field of the row splits. |
| `Entries.ValidRowSplits` | desktop/history_slice.go:1177-1183 | Rows of well-formed UTF-8 always become entries. |
| `Entries.RefsAreFields` | desktop/history_slice.go:1136-1183 | Every content ref of an entry stands for one oversized field of the full row and carries its size and chunk count. |
| `ContentRefs.HistoryFieldValueForSource` | desktop/history_slice.go:1454-1485 | Re-resolving one message from its entry id gives the field, a miss or a stale answer as specified; unreadable sources answer stale. |
| `ContentRefs.HistoryContentForTab` | desktop/history_slice.go:1285-1351 | A fetch answers the requested chunk with count, done flag and staleness as specified, for message entries, event-format rows and malformed ids. |
| `PageMeaning.ForeignRefStaleIff` | desktop/history_slice.go:1454-1486 | Over two sources: a ref issued by a page of one is stale at the other if and only if digest, knowledge of the revision or revision differ, or the message or its row is gone. |
| `PageMeaning.RefServedIff` | desktop/history_slice.go:1285-1350 | A content request is served if and only if session and version agree and the row still gives the field in the size the ref tells; then it is the asked chunk of that text, and a stale answer holds no data. |
| `PageMeaning.ColonRefsAreLost` | desktop/history_slice.go:1355-1372 | A session whose id holds a colon loses its long texts: content requests with refs of its pages are answered as done, without data and not as stale. |
| `PageMeaning.EventRefServedIff` | desktop/history_slice.go:1622-1646 | The same for event-format sessions, which look the row up as it is now and compare only its size. |
| `PageMeaning.FieldValueGives` | desktop/history_slice.go:1488-1531 | A field name stands for the row's text of that name, or for that of the first call with the id; a call field is missing if and only if no call has the id. |
| `ContentRefs.LoneRowsAreFull` | desktop/history_slice.go:1454-1485 | A message re-resolved alone gives its rows of the full conversion up to timestamps. |
| `ContentRefs.RefResolves` | desktop/history_slice.go:1454-1525 | A ref resolves to the field it stands for, whichever window it was shown in. |
| `ContentRefs.ContentRoundTrip` | desktop/history_slice.go:1136-1351 | Every ref of every entry of every page stands for one field of a row of the full conversion and, when the chunk loop stops on it and call ids tell its call apart, fetches it back: as many chunks as announced, none stale, exactly the last marked done, together the field of the announced size. |
| `ContentRefs.EventRoundTrip` | desktop/history_slice.go:1622-1632 | The same for refs of event-format rows, without a condition on the transcript. |
| `EntryIds.ParseRow` | desktop/history_slice.go:1355-1379 | The id of an event-format row parses back to its row and session. |
| `DerivedCache.EveryRunIsSafe` | desktop/history_slice.go:298-373 | In every state of every interleaving: the order lists exactly the cached keys once, at most one computation per key is in flight, and every caller that returned got an outcome computed for its own key. |
| `DerivedCache.StepKeepsInv` | desktop/history_slice.go:298-336 | Every critical section of every caller keeps the invariant. |
| `DerivedCache.PrunedValid` | desktop/history_slice.go:348-373 | Pruning never evicts an entry in flight, changes no kept entry, and ends with at most 4 entries or only entries in flight. |
| `DerivedCache.SettledValid` | desktop/history_slice.go:319-336 | Settling keeps the cache valid and never retains a failed computation. |
| `DerivedRuns.EvictsLeastRecent` | desktop/history_slice.go:348-376 | In every run a key that a step evicts was ready and was last called for before every ready key that stays, and at least four entries stay. |
| `DerivedRuns.OrderIsByUse` | desktop/history_slice.go:338-346 | In every state of every run the cache lists its keys in the order of their last calls. |
| `DerivedRuns.PruneDropsOldest` | desktop/history_slice.go:348-376 | A prune drops ready keys only, oldest first, nothing while there are at most four entries and never below four; the rest keeps its order. |
| `DerivedRuns.EveryRunIsBounded` | desktop/history_slice.go:298-336 | In every state of every run the cache holds at most four entries, or all of them are in flight or wait for the caller that computed them; a failure is held only while its caller has not settled. |
| `DerivedCache.LockedCache.Lookup` | desktop/history_slice.go:298-317 | The first critical section joins the entry of a key or opens one and prunes. |
| `DerivedCache.LockedCache.PruneLocked` | desktop/history_slice.go:348-373 | The in-place prune loop does what its specification says. |
| `DerivedCache.LockedCache.Settle` | desktop/history_slice.go:320-336 | The last critical section in place. |
| `HeartbeatRuns.EveryWriteReplacesWhatItRead` | desktop/heartbeat.go:215-248 | Any number of engines, each step by step, with loads, panel saves, adoption, external edits and deletions interleaved: the file changes only by external edits and by writes, and every write replaces exactly the file its job had read, leaves its job's list and raises the revision by one (1 when the file was absent). |
| `HeartbeatRuns.NothingIsBroughtBack` | desktop/heartbeat.go:663-716 | In every run no completion of an engine that has observed the config, or over an existing file, writes back a task absent from disk. |
| `HeartbeatRuns.CompletionsKeepDiskTasks` | desktop/heartbeat.go:663-739 | Such a completion leaves exactly the tasks on disk, each merged with its update and otherwise as it was. |
| `HeartbeatRuns.ObservedForGood` | desktop/heartbeat.go:171-179 | An engine that has observed the config has for good. |
| `HeartbeatRuns.LostCompletions` | desktop/heartbeat.go:663-716 | In every run a completion is recorded if and only if the last of its at most three attempts lands after nothing but conflicts; it is lost exactly by an unreadable or deleted file, a lock that is not taken in time, a failed write, or three conflicts. |
| `HeartbeatRuns.WrittenCompletionsAreKept` | desktop/heartbeat.go:663-739 | Between panel saves and edits every task on disk is its original merged with all written completions in their order, and the revision has advanced once per write. |
| `HeartbeatRuns.StepKeepsInv` | desktop/heartbeat.go:183-716 | Every step of every engine keeps the invariant behind these results. |
| `HeartbeatRuns.NewestStampIsKept` | desktop/heartbeat.go:663-739 | So the stamp on disk is the newest of the start and all written completions. |
| `HeartbeatMemory.MemoryIsReadOrWritten` | desktop/heartbeat.go:171-181 | In every run of engines that start fresh, an engine remembers the revision of the config it saw last and its tasks or a list it wrote itself, and takes it for deleted only while it last saw it missing. |
| `HeartbeatMemory.SavesPassIff` | desktop/heartbeat.go:576-623 | A save of tasks gets past its read if and only if the file is the one the engine saw last or it never saw one; a save of the config if and only if file and revision are those the user saw. |
| `HeartbeatMemory.UndisturbedCompletionLands` | desktop/heartbeat.go:663-711 | A completion nobody disturbs leaves the tasks that were there merged with the run, on disk and in memory. |
| `HeartbeatMemory.DeletionIsNoticed` | desktop/heartbeat.go:680-690 | A completion that finds a known config missing leaves it missing, and the engine without tasks and aware of the deletion. |
| `HeartbeatMemory.LookingTells` | desktop/heartbeat.go:183-209 | What adopting external edits and reloading do to the memory of an engine. |
| `HeartbeatMemory.ReadBackTells` | desktop/heartbeat.go:700-708 | What the engine of a job that has written remembers once it reads the result back. |
| `HeartbeatConfig.HeartbeatEngine.WriteTasks` | desktop/heartbeat.go:215-248 | A compare-write succeeds only under the lock and on the snapshot it was based on, replaces exactly that and advances the revision by one (1 when the file was absent); otherwise the file is untouched, and a lock that is not taken is a failure, not a conflict. |
| `HeartbeatConfig.HeartbeatEngine.MergeRunUpdates` | desktop/heartbeat.go:663-716 | Under arbitrary external writes between its steps: a completion is committed if and only if an attempt lands after nothing but conflicts, a committed one merged into the very file it replaced, and an engine that saw the config deleted writes nothing. |
| `HeartbeatConfig.HeartbeatEngine.MergeAttempt` | desktop/heartbeat.go:676-714 | One attempt lands, conflicts or drops the completion as its files and the write decide. |
| `HeartbeatConfig.CompletionKeepsDiskTasks` | desktop/heartbeat.go:663-739 | A completion of an engine that has observed the config leaves exactly the tasks on disk with their definitions. |
| `HeartbeatConfig.HeartbeatEngine.AdoptExternalEdits` | desktop/heartbeat.go:183-208 | An unreadable file changes nothing, a deleted one empties the list, a changed one is adopted. |
| `HeartbeatConfig.HeartbeatEngine.ReloadConfig` | desktop/heartbeat.go:561-573 | The list on disk replaces the one in memory; an unreadable file changes nothing. |
| `HeartbeatConfig.HeartbeatEngine.ReplaceConfig` | desktop/heartbeat.go:602-623 | A panel save succeeds only on the revision and ETag the panel saw; afterwards memory is what is on disk. |
| `HeartbeatConfig.HeartbeatEngine.ReplaceTasks` | desktop/heartbeat.go:576-597 | A panel save succeeds only on the config this engine last saw; memory is in step with the recorded config if and only if the file read back holds the saved list. |
| `HeartbeatConfig.MergeHeartbeatRunUpdates` | desktop/heartbeat.go:718-739 | The in-place merge over the task slice is the task-wise merge. |
| `HeartbeatConfig.MergesKeepNewest` | desktop/heartbeat.go:718-739 | Over any sequence of merges the stamp is the maximum of the start and all updates, the definition never changes and a recorded topic is never lost. |
| `HeartbeatConfig.LastNewerTopicStays` | desktop/heartbeat.go:718-739 | Over any sequence of merges the topic is that of the last update that carries one and is newer than the start and everything before it. |
| `HeartbeatConfig.WithoutNewerTopicFirstStays` | desktop/heartbeat.go:718-739 | Without such an update a recorded topic stays, and an empty one takes the first that any update carries. |
| `HeartbeatConfig.FirstCreationStays` | desktop/heartbeat.go:718-739 | A creation time is taken once: the first that is not zero, by a task that has none. |
| `HeartbeatConfig.MergesRecordStamp` | desktop/heartbeat.go:718-739 | The stamp is the newest of the start and all updates for the task, and the definition never changes. |
| `HeartbeatConfig.WritesAreCounted` | desktop/heartbeat.go:215-249 | After any number of writes the file reads back the list written last, and its revision has grown by the number of writes, in 64 bits. |
| `HeartbeatConfig.LandsIff` | desktop/heartbeat.go:663-711 | An attempt lands if and only if the file is as it was read, lock and write work, and the file is readable or missing without the engine knowing a deletion. |
| `HeartbeatConfig.StaleUpdateIsInert` | desktop/heartbeat.go:718-739 | An update that is not newer changes neither the stamp nor a recorded topic. |
| `HeartbeatConfig.MergeIsIdempotent` | desktop/heartbeat.go:718-739 | Merging the same completion again changes nothing. |
| `HeartbeatConfig.StampsCommute` | desktop/heartbeat.go:718-739 | Stamps do not depend on the order of two completions. |
| `HeartbeatSchedule.FirstDayStep` | desktop/heartbeat.go:1049-1051 | Months of the civil calendar follow each other without gap. |
| `HeartbeatSchedule.DailyIsLatest` | desktop/heartbeat.go:902-926 | The daily rule yields the latest occurrence at or before now. |
| `HeartbeatSchedule.PreviousHeartbeatWeeklyAt` | desktop/heartbeat.go:928-949 | The scan over offsets and weekdays yields the most recent hit of its window. |
| `HeartbeatSchedule.WeeklyIsLatestIff` | desktop/heartbeat.go:928-949 | Weekly and biweekly yield the latest occurrence, and none exactly when the rule lists no day or the only listed day of the window is today with its time ahead; the missed occurrence is then one full window back. |
| `HeartbeatSchedule.MonthlyIsLatestIff` | desktop/heartbeat.go:951-958 | Monthly yields the latest occurrence if and only if this month's slot is not ahead or the previous month has today's day; otherwise it yields a future instant. |
| `HeartbeatSchedule.MonthlyMissesFebruary` | desktop/heartbeat.go:951-958 | On 29 March of a common year the slot of 28 February is missed. |
| `HeartbeatSchedule.YearlyIsLatest` | desktop/heartbeat.go:960-967 | Yearly yields the latest occurrence, with 29 February clamped. |
| `HeartbeatSchedule.DueForLatest` | desktop/heartbeat.go:761-770 | Under every rule the occurrence a due task is due for is the latest occurrence of its rule. |
| `HeartbeatCalendar.DueByDateIff` | desktop/heartbeat.go:761-782 | A task with a calendar rule is due if and only if the latest moment its rule names in the civil calendar, found by counting days from Thursday, 1 January 1970, has come, is not before its creation, and nothing has run since; when the search for that moment fails, a weekly task is due by its interval and a monthly one not at all. |
| `HeartbeatCalendar.OccursIff` | desktop/heartbeat.go:902-967 | An instant occurs under a rule if and only if its date and time are named by it: listed weekday and even week, day of the month clamped to its length, or day of the year. |
| `HeartbeatCalendar.DayNumberCounts` | desktop/heartbeat.go:1035-1051 | The day number of a date is the number of days counted from 1 January 1970. |
| `HeartbeatCalendar.WeekdayCounts` | desktop/heartbeat.go:928-936 | The weekday of a day is the one counted from the Thursday of the epoch. |
| `HeartbeatCalendar.EvenWeeksIff` | desktop/heartbeat.go:1053-1067 | The biweekly parity is that of the Mondays: two days agree if and only if their weeks start a multiple of 14 days apart. |
| `HeartbeatCalendar.SearchFinds` | desktop/heartbeat.go:902-967 | The search finds the latest named moment or fails exactly as described. |
| `HeartbeatCalendar.IntervalDueIff` | desktop/heartbeat.go:784-802 | A task is due by interval if and only if it has passed since the last run or the creation and the time of day is in the window. |
| `HeartbeatCalendar.WindowIff` | desktop/heartbeat.go:804-834 | The daily window in one formula around midnight; a window without start that ends at midnight is empty. |
| `HeartbeatCalendar.StampsComeFromRuns` | desktop/heartbeat.go:298-320 | The last run a tick reads is the newest of the task's own stamp and those of the runs that show by then; a run that was put off leaves none. |
| `HeartbeatCalendar.RunsAreMerged` | desktop/heartbeat.go:718-739 | The stamps the scheduler model reads are those that merging the completion into the config leaves. |
| `HeartbeatSchedule.FiringsServeDistinctOccurrences` | desktop/heartbeat.go:298-321 | Over any run of ticks with a clock that never runs backwards, under any rule, with completions that show at the next tick, later or never: two runs each serve the latest occurrence at their tick, and a run in between that is known by then makes the later one a new occurrence, strictly after that run; one occurrence is served twice only by runs not yet known. |
| `HeartbeatSchedule.ServesAgainIff` | desktop/heartbeat.go:298-321 | While a served occurrence is still the current one the task is due for it again if and only if no run stamped at or after the occurrence is known. |
| `HeartbeatSchedule.UnknownRunFiresTwice` | desktop/heartbeat.go:298-321 | A daily task run twice within half a minute because its first completion was dropped or shows too late. |
| `HeartbeatSchedule.IntervalFiresIff` | desktop/heartbeat.go:761-799 | The plain interval runs a weekly or biweekly task if and only if it is due by the interval and its rule lists no day, or the only listed day of the past window is today with its time ahead. |
| `HeartbeatSchedule.WeeklyFiresEarly` | desktop/heartbeat.go:761-799 | A new weekly task whose only day is today fires before its time. |
| `BotWatch.StoredNeverGoesBack` | desktop/bot_bridge.go:425-486 | In every interleaving of calls, refreshes and edits of the file by others: persisted versions only grow and never pass the changes, a clean hub has written its newest change; and unless someone else has edited the file since the last write, a clean hub has stored the newest set and between writes the stored set is the snapshot of the last persisted change. |
| `BotWatch.QuietHubIsPersisted` | desktop/bot_bridge.go:425-486 | Once all calls have returned and no write failed, the newest set has been written and is stored unless someone else has edited the file since. |
| `BotWatch.WatchedIsNewest` | desktop/bot_bridge.go:425-486 | The watched set is the newest one until a refresh undoes it. |
| `BotRequests.NewestIsAskedFor` | desktop/bot_bridge.go:425-439 | In every state of every run the newest set holds exactly the routes asked for up to the last change, since a refresh last took effect before it: a key is in it if and only if its last change enabled it, on that route, or nobody changed it and it was there. |
| `BotRequests.NewestIsAsChangedIff` | desktop/bot_bridge.go:425-485 | The newest set holds a key as the changes alone ask for it if and only if the key was changed since a refresh last took effect, or that refresh brought it as asked. |
| `BotRequests.RefreshOverrules` | desktop/bot_bridge.go:467-485 | A run whose newest set is not what the changes alone ask for. |
| `BotRequests.WatchedIsAskedFor` | desktop/bot_bridge.go:425-485 | The same law for the watched set itself. |
| `BotRequests.ChangesAloneDecide` | desktop/bot_bridge.go:425-439 | Without a refresh that takes effect the changes alone decide what is watched, newest, and stored by a quiet hub. |
| `BotRequests.QuietRunStoresWhatWasAsked` | desktop/bot_bridge.go:425-465 | A run without failed writes, foreign edits and effective refreshes leaves exactly what was asked for in the file once all calls have returned. |
| `BotWatch.RefreshUndoesIff` | desktop/bot_bridge.go:462-486 | A refresh that has read version v and routes c can replace the newest set by another in some continuation if and only if v is still current, c is not the newest set, and the hub is clean or a call can still persist the newest change. |
| `BotWatch.ConfigReadDecides` | desktop/bot_bridge.go:462-486 | Whether a refresh can undo a change is decided when it reads the config: its version is current, the file does not hold the newest set and the hub can become clean. |
| `BotWatch.CleanRefreshesNeverUndo` | desktop/bot_bridge.go:462-486 | If versions are only read while nothing is left to persist and nobody else edits the file, no refresh ever replaces the newest set. |
| `BotWatch.StepKeepsInv` | desktop/bot_bridge.go:425-486 | Every step of every SetWatch call, every refresh and every edit by others keeps the invariant. |
| `BotWatch.RefreshCanUndoChange` | desktop/bot_bridge.go:462-486 | One change and a refresh that reads the config before it is written reach a state in which the refresh removes the stored change from the watched set. |
| `BotTakeover.BotBridgeHub.Takeover` | desktop/bot_bridge.go:560-604 | Granted exactly for direct chats on open tabs nobody else drives; frees the chat's previous tab, changes no other binding and keeps the maps inverse. |
| `BotTakeover.BotBridgeHub.Release` | desktop/bot_bridge.go:606-626 | Removes exactly the chat's binding from both maps. |
| `BotTakeover.BotBridgeHub.DriveInput` | desktop/bot_bridge.go:634-666 | Drives only the bound, open and idle tab; a gone session loses its binding; as one call it keeps the maps inverse. |
| `BotTakeover.BotBridgeHub.ReclaimFromDesktop` | desktop/bot_bridge.go:674-699 | Frees the tab and its driver and no other binding. |
| `BotTakeover.OneDriverPerTab` | desktop/bot_bridge.go:560-699 | Inverse maps give each chat at most one tab and each tab at most one driver. |
| `BotTakeover.UnbindIff` | desktop/bot_bridge.go:634-666 | The late unbinding of DriveInput keeps the maps inverse if and only if the binding it read is still there or both its ends are free. |
| `BotTakeover.LateUnbindBreaksRegistry` | desktop/bot_bridge.go:634-666 | From any registry: after a release and a takeover by another chat, the late unbinding leaves that chat driving a tab nobody records as driven. |
| `CatalogPages.CollectHistorySearchItems` | desktop/history_search_collect.go:87-144 | Batches pulled until one item more than the page was accepted give the first items of the filtered rest and a cursor exactly when more follow; a failing search ends the page without a cursor. |
| `CatalogPages.ListHistorySessions` | desktop/history_catalog.go:156-222 | Catalog pages walked with a runtime filter, under the clamped limit, give a page of the filtered rest and a cursor only behind a full page; an error or a stale cursor ends the page without one, with what was collected so far. |
| `CatalogPages.PagesJoin` | desktop/history_search_collect.go:87-144 | Following cursors with any positive limits joins to the filtered catalog, each record once and in order. |
| `CatalogPages.CursorsAdvance` | desktop/history_catalog.go:175-221 | Cursors move strictly forward. |
| `PromptTape.PromptHistoryTape.ReadOlder` | desktop/app.go:4322-4366 | A page is the next prompts at or behind the cursor; its cursor has exactly the remaining prompts behind it. |
| `PromptTape.PromptHistoryTape.TapePagesJoin` | desktop/app.go:4322-4366 | Pages of any positive limits join to the prompts of all sessions. |
| `PromptTape.PromptHistoryTape.ReadAll` | desktop/app.go:4368-4379 | Terminates and yields every prompt of every session once. |
| `Checkpoints.CheckpointsForTab` | desktop/app.go:2231-2301 | For every turn: the preview lists the 60 smallest distinct non-empty paths touched in that turn or later, FileCount is the size of that union, CanCode holds iff some such turn has files and all such turns with files can undo, and the truncation flag is set iff the union has more than 60 paths or an empty one. |
| `Checkpoints.InsertCheckpointFilePreview` | desktop/app.go:2303-2323 | Binary search and in-place shift keep the preview of the set with the path added. |
| `Checkpoints.InsertKeepsPreview` | desktop/app.go:2303-2323 | Inserting at the search position, dropping the last entry of a full preview, again lists the smallest paths. |
| `Checkpoints.PreviewIsUnique` | desktop/app.go:2303-2323 | A set of paths has only one preview, whatever the order of insertion. |
| `Checkpoints.PreviewCount` | desktop/app.go:2289-2299 | The preview has as many entries as the set has non-empty paths, up to the limit. |
| `Export.FileSystem.SaveExclusiveExportPayloads` | desktop/app.go:10743-10801 | Under any fault script: success adds exactly the targets with their payloads; a rejected batch leaves the directory as it was; an undone one leaves exactly the published parts its clean-up could not recognize and the trace of the refused part. No temp file stays and nothing is overwritten. |
| `Export.FileSystem.CommitStagedExportFile` | desktop/app.go:10835-10882 | Publishes by link or exclusive copy, or leaves no trace, or leaves the trace its faults imply. |
| `Export.FileSystem.CreateExportTempFile` | desktop/app.go:10807-10833 | Reserves the first free of at most 100 names or leaves no file. |
| `Export.FileSystem.RollbackCommittedExportFiles` | desktop/app.go:10884-10898 | Removes exactly the published parts whose lstat still works. |
| `Export.SavedIff` | desktop/app.go:10743-10801 | A batch is saved if and only if its targets are new and distinct, every part stages, no temp path is a target and no part is refused. |
| `Export.LeavesFilesIff` | desktop/app.go:10835-10898 | An undone batch leaves a file behind if and only if the refused part left a trace or the lstat of a part published before it fails; a trace is left if and only if the target was free and the lstat of a linked target fails twice, the stat of a created target fails, or a copy and the lstat after it fail. |
| `Export.StoppedIff` | desktop/app.go:10790-10800 | Publishing stops at a part if and only if all earlier parts were published and this one was refused. |
| `Export.AllOrNothing` | desktop/app.go:10743-10898 | A batch is all or nothing when every lstat of a clean-up works and either hard links or the stat of a created file do. |
| `Export.SecondPartIsLeft` | desktop/app.go:10855-10898 | Two parts, no hard links, second stat failing: an empty second target stays. |
| `Export.LinkedPartIsLeft` | desktop/app.go:10845-10898 | Two parts with hard links, the second target unreadable once linked: it stays complete although the batch failed. |
| `Export.NumberedPathsAreDistinct` | desktop/app.go:10728-10735 | Parts of one export never share a path. |
| `DeferredRebuild.EveryRunHasOneLoop` | desktop/deferred_rebuild.go:30-183 | In every state of every interleaving at most one loop is live, an armed queue with work has one, and whatever the loop or a kick retries was accepted, under a non-blank tab. |
| `DeferredRebuild.StepKeepsInv` | desktop/deferred_rebuild.go:46-183 | Every critical section and loop step keeps the invariant. |
| `DeferredRebuild.OnlyAcceptedIsRetried` | desktop/deferred_rebuild.go:71-87 | Whatever is pending or retried by a loop or a kick was scheduled with that label, for a tab that is not blank, while the queue was not stopped. |
| `DeferredRebuild.StoppedIff` | desktop/deferred_rebuild.go:118-129 | The queue is stopped exactly from the first stop on, and a waiting loop then sees it. |
| `DeferredRebuild.EntryStays` | desktop/deferred_rebuild.go:71-106 | An entry stays with its latest label until it is cleared. |
| `DeferredRebuild.LoopClearsUnseenIff` | desktop/deferred_rebuild.go:156-245 | A clear at the end of a loop's retry removes a label the retry never saw if and only if, since the snapshot, another label was accepted for the tab and nothing happened to it after that. |
| `DeferredRebuild.KickClearsUnseenIff` | desktop/deferred_rebuild.go:156-245 | The same for a kick. |
| `DeferredRebuild.StopIsFinal` | desktop/deferred_rebuild.go:118-129 | After a stop no loop is started and no entry is added. |
| `DeferredRebuild.StoppedLoopEnds` | desktop/deferred_rebuild.go:131-174 | After a stop a live loop always has a step and every one of its steps brings it closer to its end. |
| `DeferredRebuild.PassDrains` | desktop/deferred_rebuild.go:131-174 | A pass whose retries all clear, with nothing recorded meanwhile, empties the queue and the next tick retires the loop. |
| `DeferredRebuild.IdleKickStartsSecondLoop` | desktop/deferred_rebuild.go:156-183 | Marking the queue idle from a kick would let a second loop start. |
| `DeferredRebuild.DeferredRebuildState.ScheduleDeferredRebuild` | desktop/deferred_rebuild.go:71-87 | Records the latest label for a non-blank tab unless stopped and starts the loop when armed. |
| `DeferredRebuild.DeferredRebuildState.BeginTick` | desktop/deferred_rebuild.go:156-174 | Ends the loop on an empty or stopped queue, else snapshots the entries. |

## Left out

- ContentRefs.HistoryContentForTab: stated for answers on which the chunk loop stops, because on all others the source never returns; Chunks.ChunkLoopStopsIff says which these are.
- Chunks.HistoryContentChunkCount: stated for texts on which the loop of the source stops, because on all others it has no result; Chunks.ChunkLoopStopsIff says which these are.
- Pager.PageHistorySliceSource: takes a normalized request and computes todo arguments directly; that callers sharing the derived cache get a value computed for their key is DerivedCache.EveryRunIsSafe. Requests that do not return have no result; PageSpec.PageReturnsIff says which these are.
- DerivedCache.EveryRunIsSafe: requests with an empty key, which bypass the cache, take no step of it.
- BotTakeover.BotBridgeHub.DriveInput: modelled as one call; its two critical sections taken apart are BotTakeover.UnbindIff.
- CatalogPages.ListHistorySessions: index status and revision numbers are not modelled; the catalog does not change during a run of pages.
- CatalogPages.CollectHistorySearchItems: the per-candidate filter is an arbitrary predicate and the catalog an ordered list; highlighting is not modelled.
- EntryIds.ParseFormatIff: the scan of numbers covers what the formatter emits and trailing text; leading blanks and overflow of the scanner are not modelled.
- Export.FileSystem.SaveExclusiveExportPayloads: no other process touches the directory, so the check for a changed target after linking cannot fail, and os.Remove works on a path that exists; file modes are not modelled.
- Checkpoints.InsertCheckpointFilePreview: the slice lives in an array with room for the limit and holds at most that many entries; growth by reallocation is not modelled.
- HeartbeatSchedule.FiringsServeDistinctOccurrences: a fixed-offset calendar without time zones, one engine and one unedited task; parsing of schedule strings and of intervals is not modelled.
- File access, JSON, base64, file offsets and SHA-256: encoders are functions with an inverse, digests identify their text, atomic writes are one step.
- EventRows.PageHistoryEventRows: stated for requests that return; the rows the walk visits must become entries, as Entries.EntryReturnsIff says.
- HeartbeatRuns.LostCompletions: pending topics of an engine are covered call by call, not in the state machine.
- The cold source (display index on disk, offset reads, index rebuild and migration): the page theorem covers any source that delivers right windows or errors.
- Construction of tool summaries, previews, steer and planner texts: arbitrary functions.
- Internals of the serial todo advance: an arbitrary function of the recorded state and the call.
- Execution of heartbeat tasks: task leases, in-process claims, controllers and bot forwarding.
- Notifications, pending prompts, approvals and answers of the bot bridge.
- Retries of the deferred rebuild: which probes and rebuilds clear an entry is left open, so every choice is covered.
- The legacy page API, which does not prime planner state.
- Session binding, model switching, leases and tab lifecycle, settings, MCP, skills, memory and providers, which delegate to packages outside this model.
- Wails runtime, dialogs, tray, windows and other user interface code.
