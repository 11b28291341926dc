# Verified models of the platform's hard cores

These Dafny files model seven parts of the repository and prove what each is for. Every theorem is about all inputs,
all runs or all interleavings; where a property the code or its comments suggest does not hold of the code, the model
keeps the code, shows a failing run, and states exactly when the property holds.

`dafny verify dfyconfig.toml` checks everything.

## The parts

**Retention and the content pool** (`Retention`, `ContentPool`, `VersionSweep`, `VersionStore`). Bodies are put into a
content-addressed pool before the row that names them; series are trimmed; sweeps collect what nothing names after a
grace period. `VersionSweep` is a transition system in which every database statement is its own step. `VersionStore` is
the same trims and sweeps as a class over the tables.

**Bundles over the pool** (`SetupBundles`, `Unicode`, `WorkerPool`, `BundleRoundTrip`). Saving a set of text files and
loading it back, with bodies shared by hash and read in batches, and the bounded worker pool that does the writing.

**The activity journal** (`ActivityJournal`, `WriteQueue`, `JournalRuns`, `JournalFences`, `JournalLeases`,
`JournalWitnesses`, `CompactPaging`). Processes share runs through locked rows with a cursor counter, an owner and a
lease; each handle has a write queue that merges adjacent checklist updates; readers page through the journal with
superseded snapshots left out. `JournalRuns` is the transition system of any number of processes, `JournalFences` what
of a run each may still write or sweep, `JournalLeases` how long a run is safe from a sweep, `JournalWitnesses` runs
that show where that ends; `ActivityJournal` and `WriteQueue` also hold the classes that run the transactions and the
queue in place.

**The agent session's policy shell** (`SessionPolicy`, `SessionMemory`, `AgentSession`). Turn grants, the wrap-up
window, the context ceiling, the malformed streak, one retry, one precondition refusal and a bounded correction loop
around a driver that may do anything within runs that each finish.

**Matching** (`RealizationMatching`). Two attempts at assigning a flow's milestones to catalog interfaces, the repair of
what is missing and the salvage of what is independently sound.

**The flow fold** (`FlowModel`, `FlowSharding`, `FlowValidation`, `FlowFold`, `FlowEpics`, `FlowIdentity`, `FlowCorpus`,
`FlowComposition`, `FlowSynthesis`, `FlowReadings`, `FlowRuns`, `FlowWitnesses`). Documents are grouped and sharded;
every session value is snapped onto the claim inventory and reconciled with the committed corpus; duplicates are
subsumed, epics composed, identity resolved and ids assigned. `FlowReadings` says what each pass makes of what it is
given, read off it; `FlowWitnesses` holds whole runs that show where the comments promise more than the code.

**The author catalog and the examples** (`AuthorCatalog`, `CatalogPaging`, `ExampleMining`, `Text`). Splitting a JSON
definition into bounded items and serving them in bounded pages; mining fenced code blocks byte for byte.

## How things are modelled

- A hash is the value it was taken of, so hashes are injective. A fingerprint is the ordered list of claim ids.
- Each database transaction is one step, and so is each statement outside a transaction. The clock is a number that
  never goes back. A synchronous callback is one step, and what a call does once its transaction or read has answered is
  another, however late: a create's, resume's or open's return, a queued write's acknowledgement (which may be lost), a
  heartbeat's UPDATE after its timer fired.
- Model sessions, drivers, runners, slugs and the document part of a claim id are arbitrary functions or values.
- Text is its UTF-16 code units where surrogates matter and a Dafny string elsewhere; white space is the set the
  runtime's `trim` and `\s` use.
- A handle's setters and appends are calls at any moment, on any handle, superseded ones included.
- `VersionSweep` names its assumptions as a `Discipline`: the longest time from a put to the row that names it, the
  longest time from a sweep's first manifest read to its cutoff, whether a body is never put between a collection's
  SELECT and its DELETE, and whether a restore never outlives its source. None is assumed in the definitions; the main
  theorem says exactly which are needed.

## What the proofs found

- A collection selects and deletes in two statements, and the second does not look at the stamp again: a body put in
  between is deleted and the manifest that follows dangles (`VersionSweep.DisturbedGcDangles`).
- A restore reads its source and inserts a copy in two statements: trimmed and swept in between, the copy dangles
  (`VersionSweep.StaleRestoreDangles`).
- The journal's fence is the process, not the handle: after a process resumes its own run, its older handle still writes
  and can end the run (`JournalWitnesses.SupersededHandleStillWrites`); a handle can still commit exactly while its
  process owns the run and it has a job (`JournalFences.OwnedHandleCommitsExactlyWhen`).
- A run its process is still writing can be swept by that very process: an older handle's failure takes it off the live
  map (`JournalWitnesses.StaleFailureExposesLiveRun`); so, with no failure anywhere, does the late acknowledgement of
  the write that had paused it (`LateAcknowledgementExposesLiveRun`), and an open that read it paused and went on after
  the resume (`StaleReadExposesLiveRun`). These are all the ways (`JournalFences.LiveExactlyWhileItStands`,
  `SweepTakesOwnRunExactlyWhen`); none is open while the older handles are spent (`SoleWriterIsSpared`).
- The first failure is said to stop the writer for good; a write whose transaction is under way when a heartbeat fails
  still commits (`JournalWitnesses.LatchedWriteStillCommits`), and at most that one
  (`JournalFences.FailedCommitsAtMostUnderWay`).
- A setup bundle with a file called `__proto__` loses it silently, since the file map is a plain object; and lone
  surrogates are replaced (`SetupBundles.RoundTripExactlyWhen`, `BundleRoundTrip.ProtoIsLost`).
- A call of `mapLimit` with a limit of zero resolves without calling anything, and a call that throws `undefined` is
  taken for one that returned (`WorkerPool`).
- An area named like another area's chunk shares its key (untagged documents `a.md`, sharded, and `a.md#0`), so both
  units are folded from one session's answer, and without it every committed flow of the key is carried twice and its id
  written twice (`FlowSharding.KeysTellApartExactlyWhen`, `ChunkNamesake`, `FlowRuns.SharedKeyRepeatsIds`).
- A kept flow is described as byte-identical to its committed self; it is exactly when its sentences stand and no epic
  draft re-composed it otherwise (`FlowComposition.KeptIsIdenticalExactlyWhen`).
- A written epic can name flows that are gone: a plain draft that walks a committed epic's path inherits its old
  composition, and an epic carried past a failed session keeps it (`FlowWitnesses.InheritedEpicDangles`,
  `CarriedEpicDangles`). `FlowComposition.CompositionStandsExactlyWhen` says exactly when a committed composition still
  names written flows. An id long absent can also come to name another flow, given out anew.
- The ids of retired flows are said to stay taken; they do for the run that retires them and no longer: the next run
  gives such an id to a new flow whose slug comes to it, as it stands or by its least free suffix, and only then
  (`FlowRuns.RetiredIdIsGivenAgain`, `FlowWitnesses.RetiredIdComesBack`, `FlowRuns.RetiredSuffixComesBack`).
- A fingerprint is said not to depend on the array's order; it does not as long as no two milestones share an order, and
  can where they do (`FlowModel.ArrayOrderNeverMatters`, `SharedOrderMatters`).
- A flow whose milestones share an order can make matching's salvage path fail
  (`RealizationMatching.PortionsSettleExactlyWhen`).
- The example size limit is named in bytes and compared in UTF-16 code units; a zero page limit never finishes
  (`CompactPaging.ZeroLimitStalls`).

## Model

| member | source | states |
|---|---|---|
| VersionSweep.SweepsAreSafeExactlyWhen | packages/data-store/src/version-sweep.ts:111-140 | No surviving manifest ever names a missing body, over every run of saves, restores, trims and sweeps in any interleaving, if and only if: puts-to-row window plus reads-to-cutoff delay is at most the grace period, no body is put again between a collection's SELECT and its DELETE, and a restore inserts while its source row is stored |
| VersionSweep.RunKeepsInvariant | packages/data-store/src/content-store.ts:58-69 | Under those three rules every reachable state keeps the whole invariant: nothing dangles, every live save's stamps stand, every sweep's knowledge and selection spare what is named |
| VersionSweep.StepKeepsInvariant | packages/data-store/src/version-sweep.ts:56-175 | Each of the eleven kinds of step keeps that invariant |
| VersionSweep.PutKeepsInvariant | packages/data-store/src/content-store.ts:53-69 | Re-stamping an existing body protects it from every sweep in progress |
| VersionSweep.InsertKeepsInvariant | packages/data-store/src/guard-store.ts:220-243 | A version row inserted within the window of its puts names only bodies no sweep can take |
| VersionSweep.RestoreKeepsInvariant | packages/data-store/src/guard-store.ts:958-985 | A restore whose source is still stored adds a row whose bodies are all stored and spared |
| VersionSweep.SweepReadKeepsInvariant | packages/data-store/src/version-sweep.ts:112-121 | After a manifest table was read, all its bodies are live to the sweep or younger than its start less the window |
| VersionSweep.CutoffKeepsInvariant | packages/data-store/src/version-sweep.ts:135 | A cutoff taken in time lies at least the window before the sweep's first read |
| VersionSweep.GcSelectKeepsInvariant | packages/data-store/src/content-store.ts:125-135 | What a collection selects is named by no manifest and awaited by no live save |
| VersionSweep.GcDeleteKeepsInvariant | packages/data-store/src/content-store.ts:136-139 | The deletion, which looks only at scope and hash, takes nothing a manifest names |
| VersionSweep.WindowsPastGraceDangle | packages/data-store/src/version-sweep.ts:111-140 | For every window and delay adding up past the grace period there is a run after which a manifest names a missing body |
| VersionSweep.DisturbedGcDangles | packages/data-store/src/content-store.ts:125-140 | So there is when a body may be put between the SELECT and the DELETE: the DELETE does not re-check `created_at` |
| VersionSweep.StaleRestoreDangles | packages/data-store/src/guard-store.ts:958-985 | So there is when a restore may insert after its source was trimmed and swept |
| VersionSweep.NewestVersionsSurvive | packages/data-store/src/version-sweep.ts:56-83 | In every run, whatever trims overlap, a trim deletes a version only if at least ten newer ones of its series are stored at that moment and it is past the retention age |
| VersionSweep.TrimLeavesKeepNewer | packages/data-store/src/version-sweep.ts:61-67 | Deleting only versions that have ten newer ones leaves ten newer ones above every version that had them |
| VersionStore.SliceIsBeyondKeep | packages/data-store/src/version-sweep.ts:61 | The ids after the first ten of a newest-first listing are exactly the versions with at least ten newer ones |
| VersionStore.VersionTables.TrimSeries | packages/data-store/src/version-sweep.ts:56-83 | The trim leaves exactly the versions that are among the newest ten or young enough, and returns how many went |
| VersionStore.TrimTakesOutlived | packages/data-store/src/version-sweep.ts:56-83 | A trim takes of its series exactly the versions that have ten newer ones and are past ninety days, and changes no other |
| VersionStore.VersionTables.LiveShas | packages/data-store/src/version-sweep.ts:112-121 | The nested loops collect exactly the bodies some row of either manifest table names |
| VersionStore.VersionTables.EvidenceOf | packages/data-store/src/version-sweep.ts:122-133 | The evidence loop adds exactly the content hashes the rows' manifests refer to |
| VersionStore.VersionTables.SweepContent | packages/data-store/src/version-sweep.ts:111-140 | A body is left exactly when it is in neither pool of the repository, younger than an hour, named by a stored manifest of either table (guard), or cited by a stored run or report (evidence); what is left is unchanged |
| VersionStore.VersionTables.SweepSeries | packages/data-store/src/version-sweep.ts:167-175 | A trim that took a version is followed by that very sweep against what it left; one that took none touches nothing |
| SetupBundles.GuardPool.Put | packages/data-store/src/content-store.ts:58-69 | A put writes a new row or re-stamps the present one without touching its body, and says which |
| SetupBundles.GuardPool.Gc | packages/data-store/src/content-store.ts:125-140 | With nothing between its statements a collection deletes exactly the old enough, unlisted bodies of the scope and counts them |
| SetupBundles.GuardPool.PutBodies | packages/data-store/src/guard-store.ts:234-236 | Whatever order the workers put the bodies in, the table ends the same: each body once, under its own moment |
| SetupBundles.GuardPool.SaveBundle | packages/data-store/src/guard-store.ts:221-243 | An unsafe path refuses the save and nothing is written; otherwise the manifest names every file and the table gains every body |
| SetupBundles.AcceptedStaysBelow | packages/core/src/lib/safe-path.ts:17-30 | A stored path is accepted exactly when it is relative and leads, from any directory, to the place below it that its own parts name |
| SetupBundles.GuardPool.GetMany | packages/data-store/src/content-store.ts:102-111 | Batches of at most 500 that together hold exactly the stored bodies of the asked hashes, no hash twice |
| SetupBundles.GuardPool.ForEachBody | packages/data-store/src/guard-store.ts:854-869 | Every entry whose body is stored is handed over exactly as often as it is listed, and the found set is exactly the stored hashes |
| SetupBundles.OneMoreSha | packages/data-store/src/guard-store.ts:862-867 | Handing one more hash to all its names adds exactly those handovers |
| SetupBundles.GuardPool.LoadBundle | packages/data-store/src/guard-store.ts:893-912 | Loading fails exactly when a stored path is unsafe or a body is missing, naming one; otherwise it returns each path with its stored body |
| SetupBundles.SavedBundleLoads | packages/data-store/src/guard-store.ts:881-912 | However the pool was written since, while the manifest's bodies are stored, loading gives every file back under its path with only lone surrogates replaced |
| SetupBundles.SaveAndSweepLoads | packages/data-store/src/guard-store.ts:881-912 | In particular after any sweep that spares what the manifest names |
| SetupBundles.RoundTripExactlyWhen | packages/data-store/src/guard-store.ts:881-912 | What comes back is what was saved if and only if every text is well-formed UTF-16 and no file is called `__proto__`, a key a plain object assignment loses |
| BundleRoundTrip.SaveSweepLoad | packages/data-store/src/guard-store.ts:881-912 | As one program over the pool: a save with safe paths, a sweep that spares the manifest and a load succeed and give every file back, identically if and only if every text is well-formed and no file is called `__proto__` |
| BundleRoundTrip.ProtoIsLost | packages/data-store/src/guard-store.ts:221-243 | A bundle of one file called `__proto__` leaves an empty manifest and loads as nothing |
| BundleRoundTrip.AnyInterleavingWrites | packages/data-store/src/pack.ts:23-42 | However the workers interleave, once all have left and no call threw, the table is the one that putting every body leaves |
| Unicode.DecodeEncode | packages/data-store/src/guard-store.ts:888 | Encoding text and decoding it replaces each lone surrogate by U+FFFD and changes nothing else |
| Unicode.SurvivesExactlyWhenWellFormed | packages/data-store/src/guard-store.ts:888 | Text survives unchanged if and only if its surrogates stand in pairs |
| WorkerPool.RunKeepsInvariant | packages/data-store/src/pack.ts:23-42 | Over every interleaving of pulls, settlements and departures: indices are started once and in order, each is settled or in flight, two workers never hold one |
| WorkerPool.EveryItemOnce | packages/data-store/src/pack.ts:23-42 | When all workers left, exactly the started calls settled; the first error is set exactly when a call threw one; without an error every item was started, unless the limit was zero |
| WorkerPool.AtMostLimitInFlight | packages/data-store/src/pack.ts:40 | At no moment are more than `limit` calls in flight |
| WorkerPool.NothingStartsAfterError | packages/data-store/src/pack.ts:30-33 | After the first error no call is started, whatever still settles |
| WorkerPool.RunsEnd | packages/data-store/src/pack.ts:30-41 | Every run has at most two steps an item and one a worker |
| WorkerPool.SomeStepIsDue | packages/data-store/src/pack.ts:30-41 | Until every worker has left, some step is due |
| WorkerPool.ZeroLimitCallsNothing | packages/data-store/src/pack.ts:40 | With a limit of zero the call resolves having called nothing |
| ActivityJournal.ActivityTables.Create | packages/data-store/src/session-run-store.ts:161-168 | The new row, owned and leased, with its first snapshot at cursor 0 |
| ActivityJournal.ActivityTables.Resume | packages/data-store/src/session-run-store.ts:185-198 | Refuses exactly an unknown run; otherwise the record runs again, owner and lease are taken and the snapshot is journalled, in one transaction |
| ActivityJournal.ActivityTables.Reconcile | packages/data-store/src/session-run-store.ts:266-287 | Recovers exactly the running rows in scope whose lease ran out and which this process is not writing, and no other row changes |
| ActivityJournal.ActivityTables.Write | packages/data-store/src/session-run-store.ts:409-426 | A queued write is refused whole with the guard's reason, or journalled with its snapshot; a terminal snapshot clears owner and lease |
| ActivityJournal.ActivityTables.Renew | packages/data-store/src/session-run-store.ts:434-439 | A heartbeat renews exactly the row this process owns, however late |
| JournalLeases.LeaseRunsSixtySeconds | packages/data-store/src/session-run-store.ts:156-196 | In every run: a running row's lease ends exactly 60,000 ms after the last create, resume or landed renewal of it |
| JournalLeases.SweepComesAfterSixtySeconds | packages/data-store/src/session-run-store.ts:266-278 | So a sweep of any process takes a running run, in scope and not on its live map, exactly when more than 60,000 ms have passed since each of them |
| ActivityJournal.WriteGoesThroughExactlyWhen | packages/data-store/src/session-run-store.ts:397-426 | A queued write goes through exactly when its run is stored in its repository, its process owns it (or, for a reader, it has ended), and it does not set an ended run running |
| ActivityJournal.CreateStarts | packages/data-store/src/session-run-store.ts:156-169 | A created run is running and empty, as the one entry of its journal says |
| ActivityJournal.ResumeCarriesOn | packages/data-store/src/session-run-store.ts:183-198 | A resume keeps the sessions, the checklist and the whole journal, clears the ending and the error, and journals the record it stores |
| ActivityJournal.RecoveryInterrupts | packages/data-store/src/session-run-store.ts:278-286 | A recovered run reads as interrupted now, its live sessions as parked; what else its record says stands |
| ActivityJournal.TransactionsKeepJournal | packages/data-store/src/session-run-store.ts:154-287 | Resume, recovery, write and renewal each keep a row's journal gapless, its newest snapshot equal to the record, and owner and lease set exactly while running |
| ActivityJournal.RecoveryParksSessions | packages/data-store/src/session-run-store.ts:281 | Recovery sets every live session to parked and touches no other |
| JournalRuns.JournalHoldsThroughout | packages/data-store/src/session-run-store.ts:154-287 | For every run of any number of processes from an empty database: cursors are 0..nextCursor-1 with no gap, the stored record is the newest journalled snapshot, owner and lease are set exactly while the status is running |
| JournalRuns.RunKeepsInvariant | packages/data-store/src/session-run-store.ts:364-442 | Every reachable state keeps that and every handle's commits stand in the journal in order; no journal entry is ever rewritten or removed |
| JournalRuns.StepKeepsInvariant | packages/data-store/src/session-run-store.ts:364-442 | Each of the ten kinds of step does |
| JournalFences.FencedUntilResumed | packages/data-store/src/session-run-store.ts:412-416 | Over any run, a process that does not own a run commits nothing to it through owned handles until it resumes it itself |
| JournalFences.TakingFences | packages/data-store/src/session-run-store.ts:183-198 | Another process's resume, and a sweep that takes the run, fence the old owner |
| JournalFences.TerminalUntilResumed | packages/data-store/src/session-run-store.ts:417 | A terminal run returns to running only by a resume of that run |
| JournalFences.SweepTakesOwnRunExactlyWhen | packages/data-store/src/session-run-store.ts:266-279 | Over every run from an empty database: a process's sweep takes a run the process itself owns exactly on a lapsed lease, in scope, when the run does not stand since the process took it |
| JournalFences.LiveExactlyWhileItStands | packages/data-store/src/session-run-store.ts:170-214 | In every run, a run is on a process's live map exactly while it stands: since a create or resume of it by the process returned, no handle of the process on it failed, none heard that its write ended the run, and no open went on from a read that found it ended |
| JournalFences.SoleWriterIsSpared | packages/data-store/src/session-run-store.ts:373-379 | While a process's other handles on a run are spent and uncalled, and no earlier call on the run is about to return, its one writer keeps the run from its own sweep as long as the process owns it and the writer has not failed |
| JournalFences.SpentTakeHasSoleWriter | packages/data-store/src/session-run-store.ts:199-204 | A create or resume that returns over spent handles makes such a writer |
| JournalFences.SweepTakesExactly | packages/data-store/src/session-run-store.ts:271-276 | A sweep takes a run exactly when it runs on a lapsed lease, is in scope, and is not in the sweeping process's live map |
| JournalFences.OwnedHandleCommitsExactlyWhen | packages/data-store/src/session-run-store.ts:405-416 | A handle opened by create or resume, superseded or not, can still commit if and only if its process owns the run and it has a job under way, or one waiting while no failure has latched |
| JournalFences.FailedCommitsAtMostUnderWay | packages/data-store/src/session-run-store.ts:371-407 | Over any run, once a handle's failure latched it takes nothing more and commits at most the one write whose transaction was under way |
| JournalWitnesses.LatchedWriteStillCommits | packages/data-store/src/session-run-store.ts:405-438 | A reachable run where a heartbeat fails while a transaction is under way: the failure latches, the process gives the run up, and the write then commits and ends the run |
| JournalRuns.CleanFlush | packages/data-store/src/session-run-store.ts:380 | A handle flushed without failure has journalled its whole offering in order, less superseded checklist snapshots, and the stored record is its last snapshot unless someone else journalled a later one |
| JournalWitnesses.SupersededHandleStillWrites | packages/data-store/src/session-run-store.ts:415 | A reachable run where a process's older handle, superseded by its own resume, still commits and ends the run under its successor: the fence is per process |
| JournalWitnesses.StaleFailureExposesLiveRun | packages/data-store/src/session-run-store.ts:373-379 | A reachable run where an older handle's failure makes its process forget a live run, whose lease its own sweep then takes |
| JournalWitnesses.LateAcknowledgementExposesLiveRun | packages/data-store/src/session-run-store.ts:409-430 | A reachable run without any failure where a pause commits, the process resumes the run, and the pause's acknowledgement then takes the resumed run off the live map, whose lease its own sweep takes |
| JournalWitnesses.StaleReadExposesLiveRun | packages/data-store/src/session-run-store.ts:207-214 | Another, where an open that read the run paused goes on after the resume and drops it from the live map |
| WriteQueue.CoalescingKeepsBarriers | packages/data-store/src/session-run-store.ts:384-404 | Dropping only checklist snapshots followed by another keeps every transcript and lifecycle write, in order, and the last snapshot |
| JournalRuns.ChecklistsMerge | packages/data-store/src/session-run-store.ts:380-400 | In every run: however many checklist updates a handle is offered, no two wait next to each other |
| WriteQueue.EnqueueKeepsQueue | packages/data-store/src/session-run-store.ts:387-405 | Merging into the tail or appending keeps the queue a coalescing of what was offered |
| WriteQueue.JobKeepsQueue | packages/data-store/src/session-run-store.ts:405-431 | So do starting, committing and refusing a job, and latching a failure, which loses what waits and leaves a running job to settle |
| WriteQueue.Queue.Enqueue | packages/data-store/src/session-run-store.ts:387-405 | In place: a mergeable tail job is overwritten through the shared reference, otherwise a job is queued; a failed queue takes nothing |
| WriteQueue.Queue.Start | packages/data-store/src/session-run-store.ts:405-408 | Starting captures the job's value and closes it to merging |
| WriteQueue.Queue.Settle | packages/data-store/src/session-run-store.ts:409-430 | A settled job is committed, also after the latch; a refused one latches the failure and drops what waits |
| WriteQueue.Queue.Fail | packages/data-store/src/session-run-store.ts:371-379 | The failure latches once; what waits is lost, a job whose transaction is under way is not called back |
| WriteQueue.Queue.Acknowledge | packages/data-store/src/session-run-store.ts:409-430 | A commit's acknowledgement frees the queue for the next job; lost, it latches the failure although the write stands |
| CompactPaging.ReadCompactPage | packages/data-store/src/session-run-store.ts:340-362 | The query returns exactly the specified window: session events, and the window's last snapshot only |
| CompactPaging.RetainedDelivers | packages/data-store/src/session-run-store.ts:349-353 | A window delivers exactly its session events, in order |
| CompactPaging.RetainedKeepsLatest | packages/data-store/src/session-run-store.ts:349-353 | And its last snapshot, when it has one |
| CompactPaging.FollowingDeliversEverything | packages/data-store/src/session-run-store.ts:340-362 | For any page size of at least one and any appends between pages: each session event up to the cursor arrives once in order, the newest snapshot there is held, and every issued cursor is a record boundary |
| CompactPaging.ReadAll | packages/data-store/src/session-run-store.ts:340-362 | A reader of a journal nobody appends to finishes with the whole transcript and the latest snapshot |
| CompactPaging.ZeroLimitStalls | packages/data-store/src/session-run-store.ts:360 | A page size of zero never finishes and never moves |
| CompactPaging.FinishedReaderHoldsStoredRecord | packages/data-store/src/session-run-store.ts:419-423 | The latest snapshot of a valid row's journal is its stored record |
| SessionPolicy.RequestsFollowSchedule | packages/agent-loop/src/agent-loop.ts:303-335 | While only the budget binds, the requests are exactly the schedule: grants 1..R at turns T..RT, the demand at (R+1)T, interrupts from (R+1)T + 3 on |
| SessionPolicy.EveryStreamIsStopped | packages/agent-loop/src/agent-loop.ts:144-151 | Whatever is emitted, an interrupt has been requested no later than turn (R+1)T + 3 |
| SessionPolicy.UnstoppedIsWithinBudget | packages/agent-loop/src/agent-loop.ts:311-335 | While no interrupt was requested, nothing but the budget has bound and its limit is not reached |
| SessionPolicy.MalformedFlags | packages/agent-loop/src/agent-loop.ts:253-258 | The two flags read the whole trace: the malformed interrupt is raised exactly when two adjacent turns each contain a re-ask |
| SessionPolicy.SpentIsProduct | packages/agent-loop/src/agent-loop.ts:316-322 | Grants are spent in multiples of the turn budget |
| AgentSession.Session.Track | packages/agent-loop/src/agent-loop.ts:298-381 | The shell's variables are at every event the replay of everything shown to it |
| AgentSession.Session.Bind | packages/agent-loop/src/agent-loop.ts:313-335 | What binds at a turn, in the order the code checks it |
| AgentSession.Session.RunOnce | packages/agent-loop/src/agent-loop.ts:524-560 | A driver run is tracked item by item, and the transcript grows by exactly its events and the grants they bring about |
| AgentSession.Session.StartOrRetry | packages/agent-loop/src/agent-loop.ts:578-603 | One first run, and a retry exactly when it failed transiently and nothing stopped the session |
| AgentSession.Session.Open | packages/agent-loop/src/agent-loop.ts:605-625 | And then the required tool is asked for exactly when the outcome came without it and nothing stopped the session |
| AgentSession.Session.Judge | packages/agent-loop/src/agent-loop.ts:627-658 | A value the schema refuses is sent back while repairs are left, else it stands to fail; a parsed one gets the validator's verdict |
| AgentSession.Session.Finalize | packages/agent-loop/src/agent-loop.ts:675-731 | Completed exactly with an accepted outcome recorded last; otherwise the rewritten or the driver's own failure recorded last |
| AgentSession.Session.Run | packages/agent-loop/src/agent-loop.ts:578-731 | Against any driver the session ends within its limit; retry, precondition refusal and corrections are started exactly when due (a refused outcome while repairs or the validator ask for more, nothing has stopped it and the limit leaves one); the result is the one due after the last start, and the transcript is all the runs told and then the result |
| AgentSession.DueIsUnique | packages/agent-loop/src/agent-loop.ts:578-669 | At most one further start is due at any moment |
| AgentSession.CompletionIsAccepted | packages/agent-loop/src/agent-loop.ts:634-690 | A session completes with the last outcome, which parses and which the validator, if there is one, accepts |
| AgentSession.FailureNamesTheStop | packages/agent-loop/src/agent-loop.ts:659-731 | A stopped session fails as what stopped it; one nothing stopped, as its driver did or for its outcome |
| SessionMemory.ShellRemembers | packages/agent-loop/src/agent-loop.ts:300-377 | Over every stream: turns and tokens are those billed, a required tool counts as called exactly when it answered, a question is pending exactly when asked and not resolved since |
| SessionMemory.ShellAsks | packages/agent-loop/src/agent-loop.ts:313-358 | Over every stream: ceiling interrupts come at exactly the turns whose prompt reached the ceiling, abort interrupts at each abort, one draft nudge at the first turn it is due, and the recorded cause is the last interrupt's |
| RealizationMatching.ValidateMatch | packages/guard-generator/src/match.ts:387-413 | Every entry with a catalog interface and a known milestone becomes a step, in order; every other is reported |
| RealizationMatching.ByIdIsLast | packages/guard-generator/src/match.ts:392-399 | An id finds the catalog's last interface of that id, or none |
| RealizationMatching.ReferenceIssues | packages/guard-generator/src/match.ts:454-467 | A verdict has no issue exactly when every milestone is planned or gapped once, nothing else is named, and every interface is in the catalog |
| RealizationMatching.GapErrors | packages/guard-generator/src/match.ts:458-465 | A gap is reported unknown, planned too, or repeated exactly when it is |
| RealizationMatching.Settle | packages/guard-generator/src/match.ts:517-532 | The settled outcome as specified, repairs included |
| RealizationMatching.PathNamesEachOnce | packages/guard-generator/src/match.ts:416-425 | The path names each interface the steps use, once |
| RealizationMatching.IndependentPortions | packages/guard-generator/src/match.ts:473-491 | What is kept is exactly the entries and gaps of the milestones a reply gets wholly right |
| RealizationMatching.IndependentPortionsSettle | packages/guard-generator/src/match.ts:588 | The kept portions, repaired, always settle for a flow whose milestone orders are distinct |
| RealizationMatching.PortionsSettleExactlyWhen | packages/guard-generator/src/match.ts:469-491 | They settle for every reply the schema accepts if and only if the orders are distinct |
| RealizationMatching.StrayReplyFails | packages/guard-generator/src/match.ts:469-491 | Where two milestones share an order, a schema-accepted reply whose one gap names no milestone of the flow cannot be settled, repairs included |
| RealizationMatching.CachedVerdictResettles | packages/guard-generator/src/match.ts:578-586 | The value a verdict caches settles to the same verdict |
| RealizationMatching.MatchFlow | packages/guard-generator/src/match.ts:508-596 | A usable cached verdict is given back without a call; a first reply that answers is the outcome, entry for entry; else the second, forgotten milestones repaired; else what the later reply that plans anything gets wholly right, the failure noted; what is stored is the verdict of a call that answered and gives the same outcome again |
| RealizationMatching.SalvagedAt | packages/guard-generator/src/match.ts:473-491 | What is salvaged of a reply's plan is its entries of wholly right milestones, all of them, in the plan's order |
| RealizationMatching.SalvagedGapsUpTo | packages/guard-generator/src/match.ts:473-491 | And its gaps likewise |
| RealizationMatching.RepairsAt | packages/guard-generator/src/match.ts:518-525 | A repair adds one gap for each milestone neither planned nor gapped, in the flow's order, and keeps the gaps given |
| RealizationMatching.RefusedGapsAre | packages/guard-generator/src/match.ts:518-520 | A refusal is one gap a milestone, in order, with its reason |
| RealizationMatching.PathByFirstUse | packages/guard-generator/src/match.ts:416-425 | The path lists the interfaces by first use |
| FlowModel.FingerprintNames | packages/shared/src/guard/flows.ts:391-398 | The fingerprint determines the claim set |
| FlowModel.SameContractSameClaims | packages/shared/src/guard/flows.ts:435-437 | Two flows of one contract test the same claims |
| FlowModel.SameContractExactlyWhen | packages/shared/src/guard/flows.ts:435-437 | Numbered paths have one contract exactly when they walk the same claims in the same order from the same state |
| FlowModel.ArrayOrderNeverMatters | packages/shared/src/guard/flows.ts:387-398 | The array's incidental order never matters to a fingerprint, as long as no two milestones share an order |
| FlowModel.SharedOrderMatters | packages/shared/src/guard/flows.ts:391-398 | Where two milestones share an order it does |
| FlowModel.ByOrderPlaces | packages/shared/src/guard/flows.ts:391-398 | A fingerprint reads the milestones by order, those of one order as they stand |
| FlowIdentity.ResolveIdentity | packages/shared/src/guard/flows.ts:448-473 | A prior flow is claimed by a new one exactly when a statement that is the first to name it says so, or when neither has a statement and they are alone on both sides in sharing a contract; a tie is nobody's. Kept means the same contract, amended a stated continuation whose contract moved |
| FlowIdentity.UnambiguousIsOneOne | packages/shared/src/guard/flows.ts:462-468 | The one-match, one-rival count is exactly unambiguity |
| FlowIdentity.UnambiguousIsLone | packages/shared/src/guard/flows.ts:462-470 | What the loop finds unambiguous at each flow, earlier ones already settled, is exactly a lone match of the flows and statements, so the order of the loop decides nothing |
| FlowIdentity.FreeId | packages/guard-generator/src/flows.ts:790-796 | The search ends, the id is free, and it is the base, or where that is taken its least free suffix from 2 |
| FlowIdentity.AssignIds | packages/guard-generator/src/flows.ts:1207-1239 | All ids are distinct; a kept flow is the committed one re-read, an amended one keeps its id; each new one in turn is given what its slug comes to past the ids of the corpus and those given before it, itself or its least free suffix; the report lists each kind in order |
| FlowIdentity.FreeIdOfExactly | packages/guard-generator/src/flows.ts:790-796 | An id is what a base comes to if and only if it is free and is the base, or the base is taken and every smaller suffix of it is too |
| FlowValidation.OrderedPath | packages/guard-generator/src/flows.ts:309-330 | A path is numbered 1..n, names each claim once, and names exactly the snapped claims |
| FlowValidation.PathFollowsOrders | packages/guard-generator/src/flows.ts:309-330 | A path follows the stated orders, or the array's where one is missing; of the entries on a claim the first in that order stands |
| FlowValidation.SnappedAt | packages/guard-generator/src/flows.ts:427-435 | A flow's entries are its milestones that name an inventory claim, in order |
| FlowValidation.DraftsAt | packages/guard-generator/src/flows.ts:425-450 | The drafts are the flows with such a milestone, in order, each with its own text and what it continues |
| FlowValidation.OrderMilestones | packages/guard-generator/src/flows.ts:309-330 | The loop computes that path |
| FlowValidation.AcceptedValueCoversOnce | packages/guard-generator/src/flows.ts:413-496 | In every accepted value each inventory claim is in a flow or carries a no-flow decision, and never both |
| FlowValidation.UnaccountedExactly | packages/guard-generator/src/flows.ts:404-406 | A prior flow is unaccounted exactly when no draft continues it, no standing retirement names it and no draft that continues none has its contract |
| FlowValidation.DecisionsExactly | packages/guard-generator/src/flows.ts:452-490 | A value's decisions are its entries', the first a claim, in an earlier decision's words where there is one; an earlier decision is unaccounted, or kept by the fold, exactly when the value says nothing of its claim |
| FlowValidation.RetiredExactly | packages/guard-generator/src/flows.ts:387-403 | A retirement stands exactly when it is the first of its id and names a flow of the unit that no draft continues or restates |
| FlowValidation.FoldAcceptsExactlyWhen | packages/guard-generator/src/flows.ts:410-496 | The fold accepts a value exactly when every reference is known, no entry is both placed and undecided, nothing is continued twice or both retired and kept, and every claim is placed or decided |
| FlowValidation.CheckerAgreesWithFold | packages/guard-generator/src/flows.ts:547-560 | The checker is clean exactly when the fold accepts, only flows of the unit are named, each of them is continued, retired or restated, and each earlier decision is re-emitted or placed; and then both keep identical drafts, decisions and retirements |
| FlowValidation.ReconcileAgainstPrior | packages/guard-generator/src/flows.ts:367-408 | The two loops compute, strictly or leniently, the drafts, retirements, issues and unaccounted flows that UnaccountedExactly, RetiredExactly and FoldAcceptsExactlyWhen say exactly |
| FlowValidation.ValidateAreaSynthesis | packages/guard-generator/src/flows.ts:413-496 | And the whole validation, with the decisions DecisionsExactly and the drafts DraftsAt say exactly |
| FlowFold.ApplySubsumption | packages/guard-generator/src/flows.ts:737-764 | One draft a contract is kept, the first that continues a flow or else the first, in the order contracts first appear; the rest are reported with the title that outdid them, and nothing else is lost |
| FlowFold.SubsumptionKeepsClaims | packages/guard-generator/src/flows.ts:743-760 | Subsumption loses no claim |
| FlowFold.PartitionPriorFlows | packages/guard-generator/src/flows.ts:968-1002 | Each committed flow goes to its unit, the epic pass or retirement, in corpus order |
| FlowFold.PlacedAre | packages/guard-generator/src/flows.ts:968-1002 | A place holds exactly the committed flows sent there |
| FlowReadings.PlaceExactly | packages/guard-generator/src/flows.ts:968-1000 | An epic goes to the epic pass; another flow to the last unit holding its first document, unless none does or it walks no claim of that unit |
| FlowReadings.NoFlowOfUnitAre | packages/guard-generator/src/flows.ts:1028-1043 | A unit is briefed with the decisions on its claims whose document it is the last to hold |
| FlowReadings.AreaIsFoldedAgainst | packages/guard-generator/src/flows.ts:1068-1082 | An area is folded leniently against the flows and decisions of its unit, and settles exactly when the fold accepts |
| FlowFold.SettleAreas | packages/guard-generator/src/flows.ts:1063-1119 | Drafts, decisions, carried flows and reasons are those of the areas, in order |
| FlowFold.GatheredCovers | packages/guard-generator/src/flows.ts:1063-1119 | Each claim of a settled area is among the gathered drafts or decisions |
| FlowFold.CarriedAre | packages/guard-generator/src/flows.ts:1100-1105 | The carried flows are exactly the committed flows of units that did not settle |
| FlowFold.CarriedDistinct | packages/guard-generator/src/flows.ts:1100-1105 | No flow is carried twice, when unit keys are distinct |
| FlowEpics.FlowAtIsTheLabelled | packages/guard-generator/src/flows.ts:646-654 | A digest reference names the one flow it is the label of |
| FlowEpics.EpicsAreSound | packages/guard-generator/src/flows.ts:663-717 | Every epic chains at least two distinct flows through at least two distinct inventory claims, all of them the chained flows' own |
| FlowReadings.EpicsAt | packages/guard-generator/src/flows.ts:663-730 | The epics are those that chain two flows through two claims, in order, each with its own text, flows and path |
| FlowReadings.RefsAt | packages/guard-generator/src/flows.ts:676-686 | An epic's flows are those it names, each once, in the order first named |
| FlowReadings.SnappedInsideAt | packages/guard-generator/src/flows.ts:696-705 | Its entries are its milestones on claims of those flows, in order |
| FlowReadings.LabelNamesInEitherCase | packages/guard-generator/src/flows.ts:680 | A flow is named by its label in either case |
| FlowReadings.EpicsAcceptedExactlyWhen | packages/guard-generator/src/flows.ts:1125-1175 | The epic pass runs exactly when two drafts are of different areas; its answer is accepted exactly when every epic names only known flows and their claims, none continues what another does, and each retirement may stand |
| FlowEpics.BuildEpicDrafts | packages/guard-generator/src/flows.ts:663-717 | The drafts, retirements and issues as specified, and every draft sound |
| FlowSynthesis.SynthesizeFlows | packages/guard-generator/src/flows.ts:1017-1269 | With distinct unit keys the written corpus has distinct ids; every committed flow ends kept, amended, carried or retired and only one of them; every written flow is reported once and is what its report says; no added id is one of the corpus the run started from; every claim of a settled area is in a written flow or a no-flow decision; every composition names written flows, or is a committed one left as it stood |
| FlowReadings.WrittenFollowsItsDraft | packages/guard-generator/src/flows.ts:1184-1262 | A new or amended flow is written as its draft is, a kept one as committed with its sentences read again; an epic's composition is the ids its flows are written under |
| FlowReadings.DecidedExactlyWhen | packages/guard-generator/src/flows.ts:1094-1109 | A claim is decided in the written corpus exactly when a settled area decides it, or it was decided and its document is in an area that did not settle |
| FlowReadings.FirstDecisionsAt | packages/guard-generator/src/flows.ts:899-909 | Of several decisions on a claim the first stands, as it is and in its place |
| FlowReadings.RetirementSaysWhy | packages/guard-generator/src/flows.ts:1092-1249 | A flow is retired because its documents or claims are gone, else for the last reason given, else because nothing continues it |
| FlowCorpus.EveryFlowGoesOneWay | packages/guard-generator/src/flows.ts:1200-1248 | The four-way partition of the committed corpus |
| FlowCorpus.WrittenIsValid | packages/guard-generator/src/flows.ts:1264-1269 | With distinct unit keys the written corpus is one a next synthesis can start from |
| FlowCorpus.AddedIsNew | packages/guard-generator/src/flows.ts:1207-1239 | No added flow takes an id of the corpus the run started from, those of flows it retires included |
| FlowCorpus.CoverageSurvives | packages/guard-generator/src/flows.ts:1063-1269 | Coverage survives snapping, ordering, subsumption, identity and no-flow deduplication |
| FlowCorpus.EveryFlowIsReported | packages/guard-generator/src/flows.ts:1207-1239 | Each written flow is in exactly one list of the report and is what that list says |
| FlowComposition.CompositionIsWritten | packages/guard-generator/src/flows.ts:1250-1262 | Every new or re-composed epic names flows of the written corpus |
| FlowComposition.CompositionStandsExactlyWhen | packages/guard-generator/src/flows.ts:1221-1262 | A composition left as committed names written flows if and only if each of its ids names a flow of the committed corpus that this run does not retire, or is what some new draft's slug comes to; both are decided by the drafts and their statements |
| FlowComposition.WrittenIdsAre | packages/guard-generator/src/flows.ts:1207-1264 | The written ids are exactly those given out and those committed and not retired |
| FlowComposition.RetiredExactlyWhen | packages/guard-generator/src/flows.ts:968-1002 | A committed flow is retired exactly when its documents left the corpus or none of its claims is live, or its unit settled (for an epic, the pass did not fail) and no draft names it and it and a draft are not alone on both sides in walking its path |
| FlowComposition.SuccessorExactlyWhen | packages/shared/src/guard/flows.ts:448-473 | A reconcilable flow is found again if and only if some draft names it, or it is the only unnamed flow of its path and some draft the only one there without an honoured statement |
| FlowComposition.NewExactlyWhen | packages/shared/src/guard/flows.ts:448-473 | So is it decided which drafts are new |
| FlowComposition.AddedExactly | packages/guard-generator/src/flows.ts:1234-1239 | The ids reported as added are exactly those the new drafts are given, in order, from their slugs |
| FlowComposition.KeptIsIdenticalExactlyWhen | packages/guard-generator/src/flows.ts:1221-1233 | A kept flow is the committed one unchanged if and only if every live claim it names still says the same sentences and no epic draft re-composed it otherwise |
| FlowWitnesses.InheritedEpicDangles | packages/guard-generator/src/flows.ts:1221-1262 | A run, on inputs the schemas accept and writing what they accept, where a plain draft inherits a committed epic of two flows, one of which this very run retires |
| FlowWitnesses.CarriedEpicDangles | packages/guard-generator/src/flows.ts:1168-1171 | Such a run where the epic session fails, so the epic is carried and names a flow this very run retires |
| FlowWitnesses.UnstatedSuccessorKeeps | packages/guard-generator/src/flows.ts:1221-1233 | A flow with a successor among drafts that state and compose nothing is kept with its committed composition |
| FlowRuns.RetiredIdIsGivenAgain | packages/guard-generator/src/flows.ts:1207-1210 | Over two runs in a row: an id once committed is given out by the second run if and only if the first retired it and some new flow's slug comes to it, as it stands or by its least free suffix |
| FlowRuns.AddedComesToIt | packages/guard-generator/src/flows.ts:1234-1239 | The ids a run gives out are exactly what some new draft's slug comes to |
| FlowRuns.RetiredSuffixComesBack | packages/guard-generator/src/flows.ts:790-796 | With x written and x-2 retired, the slug x comes to x-2 again |
| FlowRuns.WrittenMeetsSchema | packages/guard-generator/src/flows.ts:1264-1269 | What is written meets the schema of the file when what was committed, the claims' sentences and the drafts do |
| FlowWitnesses.RetiredIdComesBack | packages/guard-generator/src/flows.ts:1207-1239 | Two runs on inputs the schemas accept where this happens, although retired flows' scenario files are said to keep their id |
| FlowCorpus.FirstDecisionsKeep | packages/guard-generator/src/flows.ts:899-909 | Deduplication loses no decided claim and leaves none decided twice |
| FlowSharding.ShardArea | packages/guard-generator/src/flows.ts:157-180 | At or under the ceiling an area stays whole; over it, the chunks in order hold the documents in order, each with all its claims, and each is closed only because the next document would not fit |
| FlowSharding.ShardsAreFewest | packages/guard-generator/src/flows.ts:147-180 | No contiguous grouping of the documents that meets the ceiling rule has fewer chunks |
| FlowSharding.ShardingKeepsClaims | packages/guard-generator/src/flows.ts:157-180 | Sharding loses and reorders no claim exactly when the claims stand document by document; a chunk over the ceiling holds one document |
| FlowSharding.BuildFlowAreas | packages/guard-generator/src/flows.ts:187-202 | For every area id, its units in order are that area's documents and claims in corpus order; no document is split and no unit comes twice; the areas ascend in the collation |
| FlowSharding.AreaHoldsItsDocs | packages/guard-generator/src/flows.ts:127-129 | An area holds exactly the documents of which it is the first tag, and an untagged document is an area of its own |
| FlowSharding.KeysTellApartExactlyWhen | packages/guard-generator/src/flows.ts:116-118 | Unit keys are distinct if and only if no unsharded area is named like a chunk of a sharded one |
| FlowSharding.ChunkNamesakeSharesKey | packages/guard-generator/src/flows.ts:116-118 | Every corpus with an area over the ceiling and a small area tagged like its first chunk gives two units of one key |
| FlowSharding.ChunkNamesake | packages/guard-generator/src/flows.ts:187-202 | Such a corpus: two untagged documents, one of 201 claims, the other named like the first chunk of it |
| FlowSharding.SharedKeyCarriesTwice | packages/guard-generator/src/flows.ts:1098-1106 | When two units of one key do not settle, each committed flow of that key is carried twice |
| FlowRuns.SharedKeyRepeatsIds | packages/guard-generator/src/flows.ts:1098-1269 | And then the written corpus of any such run of the synthesis repeats their ids |
| AuthorCatalog.FieldsRebuild | packages/guard-generator/src/author-catalog.ts:61-68 | Putting the split items together along their paths gives the value back |
| AuthorCatalog.FieldsFit | packages/guard-generator/src/author-catalog.ts:61-68 | Every item fits the compact limit or cannot be divided |
| CatalogPaging.ReadPage | packages/guard-generator/src/author-catalog.ts:86-108 | A cursor not issued for this request is refused; a page holds the most items that fit and were asked for, with a cursor to the rest; the oversized error comes exactly when the first item alone is too long |
| CatalogPaging.StartOfExactly | packages/guard-generator/src/author-catalog.ts:86-96 | A page starts exactly at the first item or at the offset of a cursor that is this request's and in range |
| CatalogPaging.ForeignCursorRefused | packages/guard-generator/src/author-catalog.ts:90-95 | A cursor issued for other data, another projection or other ids is refused |
| CatalogPaging.CommasSeparate | packages/guard-generator/src/author-catalog.ts:98 | Items are separated by commas, with none before the first or after the last |
| CatalogPaging.PageReads | packages/guard-generator/src/author-catalog.ts:98 | What a page says: its snapshot, offset, total, items and complete actions, and either that it is complete or the cursor to the rest |
| CatalogPaging.ServedIsBounded | packages/guard-generator/src/author-catalog.ts:101-107 | Every served page is within 12,000 characters |
| CatalogPaging.CompactItemFits | packages/guard-generator/src/author-catalog.ts:58-63 | An item within the compact limit never hits the oversized error, for up to five ids of 200 characters needing no escaping |
| CatalogPaging.PageLength | packages/guard-generator/src/author-catalog.ts:98 | A page's text is its items' and at most 1,500 characters |
| CatalogPaging.IssuedCursorAccepted | packages/guard-generator/src/author-catalog.ts:89-97 | An issued cursor is at most 1,000 characters, accepted for the unchanged request, starts where the page ended, and the page advanced |
| CatalogPaging.ReadAll | packages/guard-generator/src/author-catalog.ts:86-108 | Following cursors delivers all items once, in order, or stops as oversized exactly before the first item too long for a page of its own |
| CatalogPaging.AloneIsShorter | packages/guard-generator/src/author-catalog.ts:98-107 | An item that fits behind others fits alone |
| CatalogPaging.Get | packages/guard-generator/src/author-catalog.ts:136-153 | A get pages through every action's split items, then the resources'; a cursor over 1,000 characters is refused unread |
| CatalogPaging.OnlyBigLeavesOverrun | packages/guard-generator/src/author-catalog.ts:57-68 | The only item of a get that can be too long alone is a part of a definition that cannot be divided and is past the compact limit |
| CatalogPaging.Assemble | packages/guard-generator/src/author-catalog.ts:138-150 | Every requested action's items come first, in request order, each end recorded |
| CatalogPaging.DoneByAre | packages/guard-generator/src/author-catalog.ts:151-152 | An action is reported complete exactly when all its items lie before the page's end |
| ExampleMining.MineExampleBlocks | packages/guard-generator/src/examples.ts:72-98 | The blocks are the first four seedable ones of the section's decomposition, and each stands in the text byte for byte |
| ExampleMining.BlocksAt | packages/guard-generator/src/examples.ts:72-98 | The seedable blocks are the closed fences with between one and 4,096 code units between them, in order, each with its opener's language |
| ExampleMining.FenceOpens | packages/guard-generator/src/examples.ts:64-81 | A line of up to three spaces, three or more of one marker and an info string opens that fence, no backtick following a backtick fence |
| ExampleMining.OpenerHasParts | packages/guard-generator/src/examples.ts:64-81 | And only such a line opens one |
| ExampleMining.FenceCloses | packages/guard-generator/src/examples.ts:83-89 | A line of at least as many of the marker, and white space, closes the fence |
| ExampleMining.CloserHasParts | packages/guard-generator/src/examples.ts:83-89 | And only such a line does |
| ExampleMining.ParseRenders | packages/guard-generator/src/examples.ts:72-98 | Every text decomposes into plain lines, closed fences and at most one final unclosed fence, and renders back |
| ExampleMining.RenderParses | packages/guard-generator/src/examples.ts:72-98 | There is only one such decomposition |
| ExampleMining.MinedFromRendered | packages/guard-generator/src/examples.ts:72-98 | Mining the text rendered from plain lines and fences gives their first four non-empty blocks within 4,096 code units, in order, and nothing after an unclosed fence |
| ExampleMining.JoinedSplits | packages/guard-generator/src/examples.ts:74 | Joining lines and splitting the text again gives the lines back |
| ExampleMining.FindClose | packages/guard-generator/src/examples.ts:83-89 | The inner scan finds the first closing line |
| Text.DecimalIsInjective | packages/guard-generator/src/flows.ts:793 | Distinct suffixes are distinct ids |
| Text.NormalizeKeepsWords | packages/guard-generator/src/flows.ts:208-210 | A normalized text is its own words, in order, with one space between two of them |

## Left out

- VersionSweep: workspace pools, whose manifests are themselves bodies of the pool, and the boot pass over every series; the purge of a repository.
- VersionStore.VersionTables.SweepContent: its statements run with nothing between them; the interleaved form is VersionSweep.
- VersionStore.VersionTables.TrimSeries: takes the newest-first ids as the query's ordering promises them.
- SetupBundles.GuardPool.GetMany: a generator in the source, here one call; the table does not change between its batches.
- SetupBundles.GuardPool.SaveBundle: the manifest hash, the version row that carries the manifest, and a database refusing a body.
- Unicode.DecodeEncode: the byte layout of a scalar value; bytes that are not UTF-8 are never read here.
- JournalRuns.JournalHoldsThroughout: a sweep's look at the live map and its selection are one step (a lease taken in between has not lapsed at the transaction's start, which is the time compared with); sweeps and reads that precede another call are steps of their own.
- JournalRuns.CleanFlush: display blocks, tokens, process ids, notifications and live progress are not part of a record here.
- CompactPaging.FollowingDeliversEverything: the uncompacted readers and the per-session transcript pages, which are plain windows.
- SessionPolicy.EveryStreamIsStopped: stall, turn and ceiling timers are aborts at any moment; costs, steer delivery before the driver has a handle, and message texts are not modelled.
- AgentSession.Session.Run: resuming from an earlier transcript enters only as the two flags it sets; cursors and the session index are left out.
- RealizationMatching.MatchFlow: the cache is one value in and one value out; the context marker and the wording of corrections are left out.
- FlowIdentity.AssignIds: provisional ids, which are always replaced; bindings, which are read off milestones; the synthesis-inputs hash and notes.
- FlowModel.FingerprintNames: claim ids are taken to hold no line feed, which the hashed text joins them by.
- FlowSynthesis.SynthesizeFlows: requires a committed corpus with distinct ids, and promises one only for distinct unit keys (see FlowSharding.KeysTellApartExactlyWhen); unsettled reports, session summaries and the write itself are not stated.
- FlowComposition.CompositionIsWritten: a composition left as committed may name flows that are gone; FlowComposition.CompositionStandsExactlyWhen says when it does not.
- FlowCorpus.AddedIsNew: ids retired by earlier runs, which the code does not keep taken; see FlowRuns.RetiredIdIsGivenAgain.
- FlowSharding.BuildFlowAreas: requires each document once with claims of its own; the collation is a parameter.
- FlowEpics.BuildEpicDrafts: the session-side checker's notes on epics that will be dropped.
- AuthorCatalog.FieldsRebuild: values are JSON values with distinct keys; keys that look like integers are not reordered.
- CatalogPaging.CompactItemFits: ids that need JSON escaping can take more room than the limit leaves.
- CatalogPaging.ReadPage: search ranking, bounded summaries and entry fingerprints.
- CatalogPaging.Get: the validation of the ids, and which resources an action reaches and in what order, are given.
- ExampleMining.MineExampleBlocks: the fidelity check of an authored scenario against the mined blocks.
- Jobs, invitations, entitlements, usage, repositories, pull requests, guard run history and HTTP handlers: single guarded statements or rendering.
