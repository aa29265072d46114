# A verified model of the audit chain and the agent turn

This project models, in Dafny 4.11, the part of the repository that must not be wrong: the
append-only audit log that several processes write at once, the run index and the segments kept
beside it, and the agent turn whose streamed answers end up in it. What the code promises about
whole runs is proved here for every input, every interleaving and every place a step may fail.

| file | models |
|---|---|
| `Text.dfy`, `Wrappers.dfy` | decimal text, joining and splitting, trimming; `Option`, `Result` |
| `Json.dfy` | JSON values, their meaning, `canonicalize`, fingerprints |
| `Chain.dfy` | the hashed text of a row, `verify_chain`, tamper evidence |
| `Writers.dfy` | any number of concurrent appends, statement by statement, with locks, failures and retries |
| `Schema.dfy` | any number of concurrent opens of one file, statement by statement |
| `RunMarkers.dfy`, `RunFold.dfy`, `Runs.dfy` | run markers, `derive_runs_from`, `run_end`, `abandoned_end` |
| `RunIndex.dfy`, `IndexWrites.dfy` | the `runs` table maintained in place, rebuilt and cross-checked; index writes that arrive late |
| `SegmentIds.dfy` | `safe_owner` and segment ids |
| `Ledger.dfy`, `Segments.dfy`, `SegmentRuns.dfy` | append, open, close, adopt, merge as functions of what each statement answers; whole runs of them |
| `Query.dfy` | filtered lists, paging, the self-contained export |
| `Database.dfy` | the class `AuditStore`, updated in place, proved against the functions above |
| `Host.dfy` | how a host records, ends and abandons its runs in that store |
| `Identity.dfy` | agent and instance identities |
| `Sse.dfy`, `Stream.dfy`, `ChatStream.dfy` | server-sent events, the live stream and the response built from it |
| `Truncate.dfy`, `AgentTurn.dfy` | one user turn: trimming, tool calls, limits |

How to read it:

- SHA-256, the JSON printer and parser, and how a stream payload decodes are parameters. Nothing
  assumes the digest free of collisions, which no 64-digit function is: tamper evidence says "or
  `HashBreak`", that is, two of the texts at hand collide, or one hashes to the genesis value.
- Clocks are parameters and need not move forward. Every fallible statement takes its answer from
  a parameter too, so a theorem about "any io" is a theorem about any pattern of failures.
- Details are values. Where the code compares what it reads back with what it is about to write, in
  merging segments, the model does too (`ReadBack`: printed, then parsed), and nothing assumes that
  a detail survives it. The store's own markers hold strings and integers only, and are taken to.
- SQLite is a store with one write lock, atomic commits, and the constraints the schema declares.
- Classes carry their methods' state; each method's `ensures` names the function it refines, and
  the properties are lemmas about those functions.

Where the code and its comments differ, the model follows the code:

- A merge whose final `segment_merged` append fails leaves no partial-merge note
  (`audit/src/store.rs:981-985`). Tried again, it meets its own events and records a fork;
  a partial merge with nothing transcribed is refused for ever all the same, and a fork whose row
  update failed is marked a second time (`ForkIsMarkedAgain`). `RetryAfterFailure` says exactly
  which answer follows which failure.
- A merge looks for its own earlier work by comparing details it has read back, so an event is not
  always transcribed at most once. `TranscribedTwiceExactly`: over every run, one stands on the chain
  twice exactly when a merge of a segment already begun is found clear and goes ahead.
  `RetryWritesTwiceExactly`: after a merge that wrote the first event and then neither the next row
  nor a note, the retry writes it again exactly when it meets no event of the segment
  (`MeetsItself(c, events, 1)` fails) and imitates no marker, as when no detail of the segment
  survives printing and parsing (a float `serde_json` rounds). If it meets one, no retry of any
  failure writes anything again: `MetIsNeverWrittenAgain`.
- `close_segment` does not look at the old state, and a failed close puts any row back to `open`
  (`audit/src/store.rs:686-703`). A folded segment still never folds again, because the marker on
  the chain, not the row, stops it: `MergeAnswersAreFinal`.
- A failed open leaves its row behind when the undo fails as well (`audit/src/store.rs:666-678`),
  against the comment at 620-621: `StrayExactly`, `OpenMayLeaveRow`.
- Nothing commits to the last row yet: rewritten, linked and hashed again, it verifies. So does a
  row whose `agent_id` was altered, or its `id` if the order stays. Everything else is reported:
  `AlterationIsExact`.
- A refused open leaves tables, rows and version alone, but the journal mode has been switched by
  then (`audit/src/store.rs:333-352`): `RefusedOpenMaySwitchJournal`.
- The joined text of a row can be read in one way only if actor, action and detail hold no `|`;
  with pipes in the detail alone the reading is still unique once actor and action are known to
  have none: `ReadingIsUniqueIff`, `JoinedInjective`. `agent_id` and the id are not hashed.
- Two owners with the same safe form mint the same id (`a/b` and `a_b`): `OwnersCollideIff`. With milliseconds no larger
  than a suffix, a suffixed id can also read as a bare one: `SegmentIdsEqualExactly`.
- A run whose id is the empty string can be called abandoned by a marker that names no run, which
  the search for its end does not accept; a later marker that names it moves the answer
  (`audit/src/run.rs:155-176`, 440-455): `EndStaysExactly`.
- `index_run_end` overwrites an end that is there, while the derivation calls a second `run.end` an
  orphan; a rebuild reads the chain before its transaction. `AgreementIsDiscipline` states the exact
  protocol under which index and chain agree.
- A host appends, lets go of the store's lock, and only then indexes
  (`host-core/src/state.rs:7506-7528`). A late `INSERT OR REPLACE` can take back what a rebuild put
  right in between: `AgreementAfterLateWrites`, `LateStartUndoesAbandon`.
- A poisoned machine slot ends a turn between a call and its result, and the history keeps the gap
  in every later turn: `TurnIsSound`, `DanglingStaysUnpaired`.
- The accumulator flushes at comments and unknown fields: `AgreesWhenContiguous` says exactly when
  it agrees with a dispatcher that flushes at blank lines only, the rule of section 9.2.6 of the
  WHATWG HTML Living Standard. That dispatcher reads single lines as the code does (leading white
  space is skipped, `[DONE]` ends the stream) and also hands over what is buffered when the stream
  ends, where the section discards an unfinished event.
- Trimming may cut between a call and its results: `TrimmedRequestPairsExactly`,
  `OrphansArePossible`.

## Model

| member | source | states |
|---|---|---|
| Json.CanonicalizeKeepsMeaning | audit/src/run.rs:52-68 | the canonical form means the same as the value, and has its keys in order at every depth |
| Json.CanonicalFormDecidesMeaning | audit/src/run.rs:48-68 | two values have the same canonical form exactly when they are equal up to member order at every depth |
| Json.CanonicalizeIdempotent | audit/src/run.rs:52-68 | canonicalizing twice is canonicalizing once |
| Json.FingerprintIgnoresOnlyMemberOrder | audit/src/run.rs:71-75 | configurations equal up to member order have one fingerprint; others share one only if their canonical texts are equal or collide |
| Chain.JoinedInjective | audit/src/hash.rs:16-29 | the joined text determines actor, action and detail when actor and action hold no pipe |
| Chain.PreImageHeadIsReadable | audit/src/hash.rs:16-29 | the hashed text determines previous hash, timestamp and the joined rest |
| Chain.PreImageIsJoined | audit/src/hash.rs:16-29 | the hashed text is previous hash, timestamp, actor, action and detail, in this order, with a bar between each two |
| Chain.ReadingIsUniqueIff | audit/src/hash.rs:16-29 | a joined text has one reading exactly when none of its three fields holds a pipe |
| Chain.VerifyChain | audit/src/hash.rs:41-79 | Intact exactly when every row links and hashes; otherwise Broken at the first row that fails, all earlier rows being intact |
| Chain.FirstFailureIsUnique | audit/src/hash.rs:41-79 | there is one first failing row, and no prefix that contains it is intact |
| Chain.OneHeadOneChain | audit/src/hash.rs:16-79 | two intact chains that end in one hash hash the same texts in the same order, short of a hash break |
| Chain.HeadCommitsToHistory | audit/src/hash.rs:16-79 | a head hash fixes the length and, row by row, timestamp, actor, action and detail of all before it |
| Chain.AlterationIsReported | audit/src/hash.rs:41-79 | changing what a row of an intact chain records is reported, unless it is the last row and its hash changes too |
| Chain.AlterationIsExact | audit/src/hash.rs:41-79 | an altered row goes unreported exactly when it records the same, or is the last and was linked and hashed again, short of a hash break |
| Chain.LastRowMayBeRewritten | audit/src/hash.rs:41-79 | a rewritten last row verifies exactly when it is linked and hashed again |
| Chain.RearrangementIsAPrefix | audit/src/hash.rs:41-79 | deleting, repeating or reordering the records of an intact chain, under any ids, is reported unless only the tail was cut |
| Chain.HashesAreDistinct | audit/src/store.rs:62-72 | no two rows of an intact chain have the same hash |
| Chain.UniqueNeverRejects | audit/src/store.rs:62-72 | the UNIQUE column rejects no append to an intact chain, short of a hash break |
| Chain.AppendKeepsIntact | audit/src/store.rs:532-570 | the row an append writes extends an intact, gap-free chain to one |
| Writers.StepKeepsInv | audit/src/store.rs:499-570 | every statement of every writer keeps the log intact, the head read by the lock holder current, and one row per answered append |
| Writers.AppendIsAllOrNothing | audit/src/store.rs:499-570 | over every interleaving with failures and retries: the log verifies, an append answered Ok stands on it exactly once, any other has left no trace, no call outlives its attempts, and a lock is answered only by the last |
| Writers.CallBegins | audit/src/store.rs:499-506 | a call begins on its first attempt, with at least one to spend, and leaves the log alone |
| Writers.OnlyLocksAreRetried | audit/src/store.rs:499-521 | a lock with attempts left starts the call over and the last is answered; any other failure ends it at once |
| Writers.LogOnlyGrows | audit/src/store.rs:532-570 | committed rows and given answers never change |
| Writers.LogOrderRespectsTime | audit/src/store.rs:499-570 | an append answered before another was called stands before it |
| Schema.StepKeepsInv | audit/src/store.rs:233-307 | every statement of every opener keeps what each has established, and loses nothing |
| Schema.OpensConverge | audit/src/store.rs:233-307 | over every interleaving: after any successful open the file has exactly the tables, columns and triggers of the target and version 1; what was found is kept; a lost race on a column fails no open |
| Schema.OpenBegins | audit/src/store.rs:233-240 | an open begins on its first attempt, with at least one to spend, and leaves the file alone |
| Schema.OnlyLocksStartOver | audit/src/store.rs:233-256 | a lock with attempts left starts the open over and the last is answered; any other failure ends it at once |
| Schema.FileOnlyGrows | audit/src/store.rs:233-307 | from any point of any interleaving on, no table, column, trigger or row is lost, and WAL stays on |
| Schema.NewerFileIsRefused | audit/src/store.rs:273-307 | a newer file is never opened, and its tables, rows and version stay as they were |
| Schema.RefusedOpenMaySwitchJournal | audit/src/store.rs:273-352 | a refused open may have switched the journal mode |
| RunMarkers.StatusWordRoundTrip | audit/src/run.rs:194-215 | a stored status word reads back as the status, and nothing unknown reads as ok |
| RunMarkers.RunStartRoundTrip | audit/src/run.rs:310-363 | what was written into a start is what the derivation reads out of it |
| RunMarkers.RunEndRoundTrip | audit/src/run.rs:334-382 | the same for an end |
| RunMarkers.UnreadableExactly | audit/src/run.rs:343-382 | a marker is unreadable exactly when one of its required members is not a string |
| RunMarkers.EndReads | audit/src/run.rs:194-216 | an end reads as the status its word names; no word, and any other, reads as failed |
| RunFold.RunIdsAreUnique | audit/src/run.rs:393-462 | derived run ids are unique |
| RunFold.StartsAreIncreasing | audit/src/run.rs:393-462 | derived starts strictly increase |
| RunFold.MarkersAreConserved | audit/src/run.rs:393-462 | markers seen = runs + ends + abandoned + orphans |
| RunIndex.CountersAreExact | audit/src/run.rs:393-462 | starts are the readable starts, ends the rows with an end, abandoned the markers that name a run started and not ended, orphans all other markers |
| RunFold.DeriveIsMonotone | audit/src/run.rs:393-462 | appending events leaves every row in place with its start, and a row with an end as it is |
| RunFold.DerivedRowsMean | audit/src/run.rs:393-462 | without any fold: a row is its id's first start, closed by the first end after it, else abandoned if a later marker says so; every started id has one |
| RunFold.ColumnsAreRead | audit/src/run.rs:400-442 | each column of a derived row is the one its id's first start, or its first end after that, wrote |
| RunFold.MeaningDeterminesRow | audit/src/run.rs:393-462 | that description leaves no freedom |
| Runs.DeriveRunsFrom | audit/src/run.rs:393-462 | the loop computes the fold, rows and report |
| Runs.RunEndIsExact | audit/src/run.rs:111-176 | a derived run's end is found exactly when it ended, or was marked abandoned before the next start; it is that run's first closing event, after its start |
| Runs.AbandonedIntervalsAreDisjoint | audit/src/run.rs:97-176 | intervals of abandoned runs never overlap |
| Runs.RunEndIsStable | audit/src/run.rs:111-176 | appending any events leaves a record's end where it is, unless nothing named its run |
| Runs.EndStaysExactly | audit/src/run.rs:111-176 | and exactly then |
| Runs.OnlyEmptyIdMoves | audit/src/run.rs:155-176 | which takes an empty run id |
| Runs.EmptyRunIdMayMove | audit/src/run.rs:434-455 | and is possible |
| RunIndex.QuietExactly | audit/src/run.rs:393-462 | an event changes no derived row exactly when it is a second start, a stray end, or a stray or repeated abandon |
| IndexWrites.AgreesExactlyWhenUpToDate | host-core/src/state.rs:7506-7543 | over every interleaving of appends, late index writes and rebuilds, the index says of a run what the chain says exactly when the last move that touched it was a write that says so |
| IndexWrites.AgreementAfterLateWrites | host-core/src/state.rs:7506-7543 | and agrees with the chain exactly when that holds for every run |
| IndexWrites.LateStartUndoesAbandon | host-core/src/state.rs:7506-7528 | a start indexed after its run was abandoned and the index rebuilt takes that back |
| RunIndex.StepKeepsAgreement | audit/src/store.rs:1216-1334 | when append and index write are not interrupted: from agreement, a step keeps index and chain in agreement exactly when it follows the start-once, end-at-most-once, index-everything-new discipline |
| RunIndex.AgreementIsDiscipline | audit/src/store.rs:1216-1334 | over every history of such steps: index and chain agree all along exactly when every step follows it |
| RunIndex.RebuildStep | audit/src/store.rs:1308-1334 | a rebuild never meets the primary key, and agrees exactly when nothing new was appended after it read the chain |
| RunIndex.RebuildTwice | audit/src/store.rs:1308-1334 | rebuilding is idempotent |
| RunIndex.InsertAllIsExact | audit/src/store.rs:1311-1331 | plain inserts succeed exactly for unique ids, and the table then holds exactly the rows |
| RunIndex.CheckIsExact | audit/src/store.rs:1338-1365 | a finding is reported exactly when it is a real difference |
| RunIndex.CheckDecidesAgreement | audit/src/store.rs:1338-1365 | no finding exactly when table and chain hold the same rows |
| SegmentIds.SafeOwnerLoop | audit/src/segment.rs:251-271 | the loops compute the safe form |
| SegmentIds.SafeOwnerIsSafe | audit/src/segment.rs:251-271 | it is never empty, at most 48 safe characters, no trailing dot, and safe names are kept |
| SegmentIds.SafeOwnerExactly | audit/src/segment.rs:251-271 | it is the first 48 characters with each unsafe one replaced by `_` and trailing dots dropped, or `node` if nothing is left |
| SegmentIds.MintFreeId | audit/src/store.rs:770-790 | the search answers the first id no row uses |
| SegmentIds.FirstFreeExactly | audit/src/store.rs:770-790 | the id found is the bare one if free, else the first free of the suffixes from 2 to u32::MAX, else none is free |
| SegmentIds.MintIdIsJoined | audit/src/store.rs:770-779 | an id is `seg`, the safe owner if any, the millisecond and the suffix if any, with a dash between each two |
| SegmentIds.MintingSucceeds | audit/src/store.rs:770-790 | it succeeds while the table has fewer than u32::MAX rows |
| SegmentIds.SegmentIdsEqualExactly | audit/src/store.rs:770-779 | any two ids are equal exactly when they name the same safe owner, millisecond and suffix, or one's suffix reads as the other's millisecond |
| SegmentIds.SmallMillisecondsMeet | audit/src/store.rs:770-779 | the latter does happen |
| SegmentIds.SegmentIdsInjective | audit/src/store.rs:770-779 | an id determines safe owner, millisecond and suffix once milliseconds exceed u32::MAX |
| SegmentIds.OwnersCollideIff | audit/src/segment.rs:251-271 | two owners share an id exactly when their safe forms are equal |
| Ledger.AppendKeepsWhole | audit/src/store.rs:491-570 | an append, whatever the database answers, leaves a chain that verifies |
| Ledger.ExhaustedExactly | audit/src/store.rs:499-521 | an append gets through exactly when some attempt within the budget does and only locks came before it; otherwise its error is the first that is no lock, or the lock that used up the budget |
| Ledger.AppendExactly | audit/src/store.rs:491-570 | an append has five attempts, and writes its event on top of the head, or nothing |
| Segments.OpenIsExact | audit/src/store.rs:645-683 | an open that answers Ok wrote one row, every column as stated and anchored at the last row, and one event that describes it; any other left the chain alone, and the table unless the undo failed |
| Segments.CloseIsExact | audit/src/store.rs:686-703 | a close that answers Ok closed the row, touched no other column or row, and said so once; a failed append leaves it open, or closed if the undo failed; any other failure changes nothing |
| Segments.AdoptIsExact | audit/src/store.rs:802-822 | an adoption leaves chain and known rows alone; a new row is closed, temporary, and holds the anchor reported |
| Segments.ClearingTakesTheMark | audit/src/segment.rs:88-96 | clearing removes `provisional` and keeps every other member; timestamp, actor, action and agent id stay |
| Segments.ClashesExactly | audit/src/store.rs:1006-1022 | a row clashes exactly if actor, action and the meaning of the cleared detail are the same |
| Segments.TranscribeIsExact | audit/src/store.rs:950-979 | a loop that stops part way has written exactly the first events, in order, each without `provisional` and otherwise as it was read |
| Segments.JudgeIsExact | audit/src/store.rs:882-932 | a merge is refused exactly when a reason holds, and names one; otherwise it is a conflict exactly when some cleared act is on the main chain already, and names the first event and its first row |
| Segments.FoldMeans | audit/src/store.rs:950-989 | what a merge that found no conflict leaves behind, for every answer it can give |
| Segments.MergeIsExact | audit/src/store.rs:882-989 | Folded appends exactly the events in order, without `provisional` and otherwise as read, and one marker with their number; Forked only a fork marker that names the segment and a row that holds the act already; an error leaves nothing, that marker, or an exact prefix with a note that says how far; the chain stays whole |
| Segments.ForkReasonIsWorded | audit/src/store.rs:933-937 | the words of a fork's reason |
| Segments.PartialNoteIsWorded | audit/src/store.rs:962-975 | the words of a partial merge's note |
| Segments.RetryAfterFailure | audit/src/store.rs:882-989 | which answer a failed merge gets when tried again, for every way it can fail |
| Segments.ForkIsMarkedAgain | audit/src/store.rs:933-952 | a fork that failed adds one more marker when it is tried again and answers |
| Segments.ReadingBackMeets | audit/src/store.rs:918-931 | events transcribed before are met again as soon as one of them reads back as it was written |
| Segments.RetryWritesTwiceExactly | audit/src/store.rs:882-1022 | from any store: when only the first event was written, the retry writes it again exactly when it meets no event of the segment and imitates no marker; if it meets one, it is a conflict |
| Segments.MetIsNeverWrittenAgain | audit/src/store.rs:882-1022 | if the first event meets one once transcribed, no retry of any failure transcribes anything again |
| SegmentRuns.ApplyKeepsInv | audit/src/store.rs:645-1049 | every segment operation, append and delivery keeps chains whole, origins exact, answers in order and anchors right |
| SegmentRuns.TranscribedTwiceExactly | audit/src/store.rs:882-1022 | at every point of every run each transcribed row is the cleared form of its event, and an event of a segment stands on the main chain twice exactly when some merge of it, already begun, was found clear and went ahead |
| SegmentRuns.RepeatsMeetNothing | audit/src/store.rs:918-931 | in such a merge the first event, as it was transcribed, meets no event of the file |
| SegmentRuns.TranscribedAtMostOnce | audit/src/store.rs:882-1022 | so each event is transcribed at most once if at every merge tried again it meets one |
| SegmentRuns.MergeAnswersAreFinal | audit/src/store.rs:686-1049 | at every point of every run at most one merge of a segment has answered Folded, later ones failed, and a forked one never folds |
| SegmentRuns.AnchorsHold | audit/src/store.rs:645-822 | at every point of every run each opened row's anchor names the row just before its opening event, and only adopted rows have no opening time |
| SegmentRuns.StrayExactly | audit/src/store.rs:645-683 | at every point of every run, an opened row of the table has no opening event at its anchor on the chain exactly when its open could neither append nor undo |
| SegmentRuns.OpenMayLeaveRow | audit/src/store.rs:645-683 | such an open leaves a row without its event |
| Query.ListIsExact | audit/src/store.rs:1063-1115 | a list holds matches only, in the order asked for, as many as the limit allows, and what it leaves out comes after all it holds |
| Query.ListsAreExact | audit/src/store.rs:1063-1115 | without a limit it holds every match once, by falling id, and oldest first is its mirror |
| Query.EachPartIsADemand | audit/src/store.rs:1063-1095 | an absent part of a filter demands nothing, each present one is a further demand, and all four bounds are inclusive |
| Query.OwnFilterFindsIt | audit/src/store.rs:1063-1095 | actor and bounds must be the event's own, and the action must begin with the prefix |
| Query.PagingVisitsOnce | audit/src/store.rs:1063-1115 | paging newest-first visits each match of the first page's chain once, while the chain grows and page sizes vary |
| Query.ExportIsThePrefix | audit/src/store.rs:1145-1158 | the export up to an id is the chain's prefix: the largest limit turns into no limit |
| Query.ExportVerifiesExactly | audit/src/store.rs:1145-1158 | read into an empty database it verifies exactly when every detail survives parsing and printing |
| Database.AuditStore.AppendOnce | audit/src/store.rs:532-570 | one attempt appends the next row, or nothing |
| Database.AuditStore.AppendWith | audit/src/store.rs:499-521 | the retry loop: Ok exactly when an attempt within the budget is let through after locks only and the row's hash is new; otherwise the error that ended it |
| Database.AuditStore.OpenSegment | audit/src/store.rs:645-683 | row, event and undo, as specified, for every failure |
| Database.AuditStore.CloseSegment | audit/src/store.rs:686-703 | the same for a close, whose columns `CloseIsExact` states |
| Database.AuditStore.AdoptSegment | audit/src/store.rs:802-822 | the same for an adoption |
| Database.AuditStore.HasMergedMarker | audit/src/store.rs:992-1003 | the scan finds a marker exactly when there is one |
| Database.AuditStore.MainChainRowWith | audit/src/store.rs:1006-1022 | the scan finds the first row with the same act |
| Database.AuditStore.FindConflict | audit/src/store.rs:918-931 | the loop finds the first event that is there already |
| Database.AuditStore.JudgeMerge | audit/src/store.rs:882-931 | what a merge decides, reading only |
| Database.AuditStore.MergeSegment | audit/src/store.rs:882-989 | the whole merge in place; the segment's own store is not modified |
| Database.AuditStore.IndexRunStart | audit/src/store.rs:1220-1241 | insert or replace |
| Database.AuditStore.IndexRunEnd | audit/src/store.rs:1246-1258 | unconditional update, and whether there was a row |
| Database.AuditStore.RebuildRunIndex | audit/src/store.rs:1308-1334 | afterwards the table holds exactly the derived rows, or nothing changed |
| Database.AuditStore.CheckRunIndex | audit/src/store.rs:1338-1365 | empty exactly when the table holds the derived rows |
| Database.AuditStore.AllRuns | audit/src/store.rs:1276-1288 | every row once, oldest start first |
| Host.BeginRun | host-core/src/state.rs:7484-7530 | whatever the index was like: a recorded start is one step of the index protocol; index and chain in agreement stay so exactly when the id is new and the write went through, or neither |
| Host.FinishRun | host-core/src/state.rs:7533-7546 | the same for an end: when it was the first and indexed, or said nothing new |
| Host.AbandonStaleRuns | host-core/src/state.rs:7561-7600 | exactly the stale runs whose append went through are derived abandoned and nothing else changes; whatever the index was like, it agrees with the chain after a rebuild, and without one nothing is touched |
| Host.StaleIsSaidByTheLog | host-core/src/state.rs:7574-7580 | stale is what the log says started by then and neither ended nor was abandoned |
| Host.StartTwice | host-core/src/state.rs:7561-7600 | no run is abandoned at two starts; a second start that looks no further finds nothing if the first met no failure |
| Identity.MintIsReadable | agent/src/identity.rs:125-127 | an identity determines device, pid and number, whatever the device is called |
| Identity.MintIsJoined | agent/src/identity.rs:125-127 | it is device, pid and number, in this order, with a dash between each two |
| Identity.DeviceIsLastName | agent/src/identity.rs:50-73 | the device in force is the last name that is not blank, or `local` |
| Identity.NumbersCountFromOne | agent/src/identity.rs:119-122 | the first number is 1 |
| Identity.SameIdExactly | agent/src/identity.rs:63-127 | over any mix of naming and minting, two ids of a process are equal exactly when the device was the same and the counter went round |
| Identity.IdsDiffer | agent/src/identity.rs:63-127 | so any two within 2^64 mints differ |
| Identity.ProcessesDiffer | agent/src/identity.rs:79-127 | ids of different pids differ |
| Identity.Process.SetDevice | agent/src/identity.rs:63-73 | a blank name is ignored, the old device is returned, no id is spent |
| Identity.Process.NextAgentId | agent/src/identity.rs:79-81 | mints the next id of the process |
| Identity.Process.NextInstanceId | agent/src/identity.rs:87-89 | the same, from the same counter |
| Sse.SseAccumulator.Feed | agent/src/sse.rs:49-61 | data lines pile up, boundaries hand them over joined |
| Sse.SseAccumulator.Flush | agent/src/sse.rs:65-72 | hands over what is buffered, once |
| Sse.DataLineReads | agent/src/sse.rs:15-33 | how a printed data line reads |
| Sse.DataFieldReads | agent/src/sse.rs:15-33 | a data field reads the same after white space, and with or without the one optional space |
| Sse.OthersAreIgnored | agent/src/sse.rs:15-33 | any other line is ignored |
| Sse.PrintedReadsBack | agent/src/sse.rs:15-72 | payloads written as events read back unchanged exactly when every line is free of a trailing return and of the terminator |
| Sse.LastBlankMayBeMissing | agent/src/llm.rs:130-147 | also without the last blank line, or with the terminator and anything after it |
| Sse.AgreesWhenContiguous | agent/src/sse.rs:49-72 | agrees with dispatching at blank lines exactly when no data line follows an ignored line within an event |
| Sse.CommentSplitsEvent | agent/src/sse.rs:49-72 | a comment inside an event splits it |
| Stream.CutsDoNotMatter | agent/src/llm.rs:201-259 | state and events depend on the fragments only, not on how they were cut into payloads |
| Stream.TakeKeepsFaithful | agent/src/llm.rs:201-259 | at every point content, and per index id, name and arguments, are what the events showed |
| Stream.ChoicesAreTold | agent/src/llm.rs:201-259 | subscribers saw, and the buffer holds, exactly what the choices say: all text in order, and for each index the last id and name that are not empty and all arguments joined |
| ChatStream.ResponseIsWhatWasShown | agent/src/llm.rs:262-300 | the response is the one the events show: all text, and the told calls by strictly ascending index |
| ChatStream.ShowsOnlyOne | agent/src/llm.rs:262-300 | the events show only one response |
| ChatStream.ResponseIsWhatWasSaid | agent/src/llm.rs:101-300 | over every stream read to its end there is a response exactly when every payload decodes, and it holds what the payloads say, with made-up ids `call-<index>` where none was given |
| ChatStream.RepeatsOnlyOne | agent/src/llm.rs:262-300 | what was said leaves no choice of response |
| ChatStream.FailedReadIsReported | agent/src/llm.rs:130-131 | a reader that fails before the terminator makes the call fail |
| ChatStream.StreamEndsWell | agent/src/llm.rs:101-150 | over every stream, broken or not, the end is announced once, last, exactly with a response that subscribers saw in full |
| ChatStream.RunHandlesPayloads | agent/src/llm.rs:126-150 | handling payloads as they complete is handling the stream's payloads in order |
| ChatStream.PrintedStreamBuilds | agent/src/llm.rs:126-150 | a properly printed stream builds what its fragments build |
| ChatStream.CutShortIsTheSame | agent/src/llm.rs:144-147 | and so does one cut short at its last blank line |
| ChatStream.StreamState.HandleToolCall | agent/src/llm.rs:217-256 | one call fragment, in place |
| ChatStream.StreamState.HandleStreamPayload | agent/src/llm.rs:201-259 | one payload, in place; one that does not decode changes nothing |
| ChatStream.ReadStream | agent/src/llm.rs:122-150 | the line loop computes the specified outcome |
| Truncate.TruncateText | agent/src/agent.rs:478-487 | the walk to a character boundary keeps what fits |
| Truncate.FittingIsLongest | agent/src/agent.rs:478-487 | what is kept is the longest prefix of whole characters within the limit |
| Truncate.TruncatedIsCut | agent/src/agent.rs:478-487 | a text that fits is kept; any other is its longest fitting prefix and a note of its length |
| Truncate.CutIsUnique | agent/src/agent.rs:478-487 | there is only one such text |
| AgentTurn.TurnIsSound | agent/src/agent.rs:259-443 | over every turn: each request is the full history as it stood, or system, marker and at least the last 30, at most 40 in all; requests are the iterations reported, at most max(1, max_iterations); calls keep their results in order exactly when the turn does not end at a poisoned slot |
| AgentTurn.LoopIsSound | agent/src/agent.rs:276-443 | the same from any iteration on; a capped turn made exactly that many |
| AgentTurn.TurnUnfolds | agent/src/agent.rs:259-443 | every turn, read off replies and tools: the user's message cut to the limit, each reply with its results, and the answer: Final with what the model said when it called nothing, the cap with what it said last, Failed with its reason, or a poisoned slot |
| AgentTurn.LoopUnfolds | agent/src/agent.rs:276-443 | the same from any iteration on |
| AgentTurn.DanglingStaysUnpaired | agent/src/agent.rs:377-428 | a history that ends at a poisoned slot stays unpaired whatever is said later, short of the missing results |
| AgentTurn.TrimIsExcerpt | agent/src/agent.rs:446-475 | trimming an excerpt of the history gives one of at most 40 that starts with the system prompt |
| AgentTurn.TrimsBeyondForty | agent/src/agent.rs:446-475 | up to forty messages nothing is cut; beyond, exactly the last thirty stay after system and marker |
| AgentTurn.CutKeepsPairsExactly | agent/src/agent.rs:460-474 | a cut keeps calls and results together exactly when it does not fall on a result |
| AgentTurn.TrimmedRequestPairsExactly | agent/src/agent.rs:446-475 | the same for the request that is sent |
| AgentTurn.OrphansArePossible | agent/src/agent.rs:446-475 | an answer with 38 or more calls makes the next request open with orphaned results |
| AgentTurn.CapReportsLastAnswer | agent/src/agent.rs:430-441 | a capped turn reports what the model said last |
| AgentTurn.AgentLoop.Run | agent/src/agent.rs:259-443 | the loop computes the specified turn |
| AgentTurn.AgentLoop.TrimMessages | agent/src/agent.rs:446-475 | trims in place |
| AgentTurn.AgentLoop.RunTools | agent/src/agent.rs:377-428 | pushes each call's result in order, stopping at a poisoned slot |
| AgentTurn.AgentLoop.PushHistory | agent/src/agent.rs:209-211 | restored messages extend the history |

## Left out

- SQLite itself, WAL and `busy_timeout`: a statement either takes effect at once or fails; a commit is atomic.
- A second process inside one segment operation: `open_segment` reads its anchor before its opening event is appended, and another writer may append in between; two processes may merge one segment at once. `SegmentRuns` has one caller at a time, as `&mut self` gives; only plain appends interleave, in `Writers`.
- Runs.RunEndIsStable: not for records nothing named; `EndStaysExactly` shows the exception is exact.
- SegmentIds.SegmentIdsInjective: milliseconds past u32::MAX only (any date after February 1970); `SegmentIdsEqualExactly` covers all.
- SegmentRuns.StrayExactly: assumes that nobody but an open appends an opening event and none is merged in, since one that imitates another segment's cannot be told from it.
- RunIndex.StepKeepsAgreement: append and index write are one step; `IndexWrites` splits them.
- RunIndex.AgreementIsDiscipline: the same.
- Host.AbandonStaleRuns: nobody acts between the derivation, the appends and the rebuild, for each of which the source takes the store's lock afresh. What others do in between to index and chain is `IndexWrites`, whose moves come in any order.
- Host.StartTwice: nor between the two starts.
- Identity.Process.NextAgentId: the counter wraps as in a release build; with overflow checks the 2^64th mint panics instead.
- Widths of ids, timestamps and list bounds: unbounded integers, except the limit's `usize` to `i64` cast and the identity counter.
- JSON numbers are their text: which of them survive parsing is left to the parameter. The details of run markers and of the store's own segment markers are read as they were written.
- Rows with a kind or state word this build does not know: the rows here are the ones these operations wrote.
- The audit directory: it is fixed, and a segment's file is a store of its own that only deliveries append to.
- Records of resolved conflicts and verified chains in `audit/src/segment.rs`: detail builders without state.
- The statements behind `list` and the exports are functions on the chain, not loops: SQL selects, orders and cuts the rows, and the file that is written is its sequence of rows.
- `events_in_range`, `get`, `count`, `list_runs`: single selects.
- The non-streaming `chat`, HTTP status handling, tool execution, and the audit events a turn emits: I/O around the modelled state.
- Deltas are delivered to a list of events; dropping closed subscribers is not modelled.
- Backup, network, compiler, QEMU, command line and dispatch crates: foreign library calls, I/O, or tables of cases with shallow properties.
