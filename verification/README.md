# City2TABULA, modelled in Dafny

City2TABULA imports 3D city models into a PostGIS database, extracts building
features in batches, links them to grid data, and serves the result over an HTTP API
that starts runs for an area on request. Most of it is SQL and calls to other
programs. This project models the Go code that has to be right on its own: the
protocols, caches, queues and streaming readers between those calls.

Five parts, each from the state the code keeps up to a statement over every run:

- **The run server** (`RunServer`, `RunProtocol`, `RunLifecycle`, `RunTermination`). A
  class with one method per critical section, and a state machine whose events are
  those sections, for any number of requests and any interleaving. Exclusion, no lost
  wake-up, the life of a run record, joining of identical requests, and the end of
  every schedule are proved over all reachable states.
- **The import skip cache** (`ImportCache`, `ImportHistory`, `ImportParallel`,
  `ImportTwins`, `ImportLock`). The record of imported boxes and the cache of declared file
  extents, with their loops and every part-way failure, and the proof that skipping and file
  selection are invisible over every history of edits, failures and imports, and for imports
  side by side in any interleaving of their queries, writes and calls; when imports side by
  side leave two rows for one place, and that the runs of one server do not.
- **Incremental extraction** (`Extraction`, `ExtractionHistory`, `ExtractionFailures`,
  `ExtractionParallel`, `ExtractionJobs`). Area runs against full recomputation, one after
  another and side by side across the borders of their areas, exactly what a failed run
  leaves behind, and what a run makes of its own job queue.
- **The job pipeline** (`Batches`, `Jobs`, `Retry`, `Workers`, `GridBatches`,
  `Templates`). Batching, the queue and its channel, ordered tasks, the retry loop with
  two limits, the worker pool under every schedule, and the SQL templates that are
  filled in map order.
- **Streams, pages and aggregation** (`Scanner`, `CityJSON`, `Paging`, `Cursor`,
  `UseType`, `TextEncoders`). Search through overlapping windows against search in the
  whole stream, paging by a running total, an order-independent maximum, and three text
  encoders with decoders.

`Geometry`, `Nearness`, `FileNames`, `Numbers`, `Sequences` and `Wrappers` are shared helpers.
Failures of the disk, the database, citydb-tool and the post scripts are inputs, so the statements hold for every
pattern of them.

## What turned out not to hold

Each of these has a lemma that gives the case and, beside it, the condition under which
the code does what is promised.

- Identical requests are joined only if no caller's second critical section finds its
  key in flight again: between the key and the record of a new run lies a window
  (`RunLifecycle.DuplicateRunTrace`, `RunLifecycle.DedupExactlyWithoutOverwrite`).
  Exclusion holds regardless.
- A box with swapped corners overlaps nothing, not even itself, so the region lock lets
  two runs hold it (`RunProtocol.OneHolderExactlyForOrderedBoxes`). Neither the handler
  nor `StartRun` orders or refuses such corners.
- A run whose jobs or post scripts fail leaves values that later successful runs do not
  repair, because its buildings are filtered out then
  (`ExtractionFailures.FailedRunLeavesStaleValues`,
  `ExtractionFailures.ConsistentExactlyWithoutStale`).
- With nested braces the order of the template parameters can show
  (`Templates.NestedBracesShowTheOrder`). Every order gives the simultaneous substitution
  whenever that one spells no known placeholder (`Templates.EveryOrderSubstitutes`), and
  always without nesting (`Templates.UnnestedScripts`).
- When a CityJSON stream's first `referenceSystem` is empty, what is reported can depend
  on where the chunks end (`CityJSON.EmptyFirstDeclaration`): with the code's sizes, a second
  declaration that starts in the last 4096 bytes of the first chunk is reported in its place
  (`CityJSON.EmptyFirstInAChunk`). It is the first declaration
  for every chunk size if and only if that one is not empty, or no declaration that a
  window can lead with has a value: none that starts before the last overlap, and not the
  first one within it (`CityJSON.ReferenceIsFirst`).
- Rows that share an object id are partly skipped by the paging when together they
  exceed a page (`Paging.GroupIsCut`, `Paging.ListingIsComplete`).
- Imports under way at once can leave two rows for one dataset, mode and box
  (`ImportTwins.TwoRowsWithoutTheLock`). Among imports that the record does not skip yet, some
  schedule does so if and only if two of them are unlimited and would record the very same
  row (`ImportTwins.TwoRowsExactlyForTwins`, `ImportTwins.FirstImportsLeaveTwoRows`). The
  runs of one server never do, for boxes with ordered corners
  (`ImportLock.LockedImportsLeaveOneRowEach`).
- The deadlock limit cannot extend the retry limit, so the default of five deadlock
  retries never exceeds the four attempts that three retries allow
  (`Retry.PermanentDeadlock`), and the pause after the last attempt is still made exactly
  when that attempt is a deadlock below the deadlock limit
  (`Retry.PausesAfterTheLastExactly`), so a permanent deadlock can sleep once more than
  there are retries (`Retry.PermanentDeadlockSleeps`).

A pool without workers would return nil and run nothing (`Workers.NoWorkersRunNothing`); the
code rules that case out by keeping `THREAD_COUNT` at one or more.

Where a comment and the code differ, the model follows the code: `batch.go` returns one
batch, even an empty one, for a size of zero or less; `scanCityJSON`'s comment says that
chunks overlap by more than a match, which bounds the matches it can promise.

## Model

| member | source | states |
|---|---|---|
| Geometry.OverlapsIsCommonGround | internal/onrequest/run.go:31-41 | Overlaps is common ground for boxes with ordered corners, and ordered corners are exactly what that takes |
| RunServer.RemoveFirstDropsOne | internal/api/server/server.go:324-329 | releasing drops exactly one equal hold from the list, as a multiset |
| RunServer.RemoveFirstIsOneGap | internal/api/server/server.go:324-329 | the dropped hold is the first equal one, and the others keep their order |
| RunServer.Server.constructor | internal/api/server/server.go:94-105 | a new server holds no region, no key and no record |
| RunServer.Server.ConflictsLocked | internal/api/server/server.go:336-343 | true exactly when some active run on the same database has an overlapping box |
| RunServer.Server.TryAcquire | internal/api/server/server.go:310-317 | one pass of the wait loop: sleep when blocked, otherwise append the region; nothing else changes |
| RunServer.Server.Release | internal/api/server/server.go:321-332 | the first equal hold and the key are gone, and every sleeper is awake |
| RunServer.Server.JoinOrRegister | internal/api/server/server.go:206-227 | a key in flight answers with its run and changes nothing; otherwise the new run is registered under it |
| RunServer.Server.RegisterAnew | internal/api/server/server.go:217-227 | after a vanished record the key is bound to the new run, whatever it was bound to meanwhile |
| RunServer.Server.PublishRun | internal/api/server/server.go:224-230 | the record starts pending, without a start time |
| RunServer.Server.GetRun | internal/api/server/server.go:240-251 | the stored record, or none for an unknown id |
| RunServer.Server.Update | internal/api/server/server.go:363-373 | the change is applied to a known record and stamped; an unknown id changes nothing |
| RunServer.Server.SetStatus | internal/api/server/server.go:346-355 | the status and error are set, and the start time only on the first move to running |
| RunServer.Server.SetStage | internal/api/server/server.go:357-359 | only the stage and the time of the update change |
| RunProtocol.InvariantKept | internal/api/server/server.go:192-373 | every critical section keeps: the active list is the holders' regions, none of them overlap, sleepers are blocked, records fit the phase, keys point to live runs |
| RunProtocol.ExclusionAlways | internal/api/server/server.go:260-343 | in every reachable state, at any grain, no two holders on one database overlap and every ground point has at most one of them |
| RunProtocol.RunningHolds | internal/api/server/server.go:260-268 | a record that says running belongs to a run that holds its region |
| RunProtocol.NoLostWakeup | internal/api/server/server.go:308-332 | every sleeper is blocked by a hold of that moment; with none held, nothing sleeps |
| RunProtocol.WaitsExactlyWhenContested | internal/api/server/server.go:308-343 | in every reachable state, for ordered corners, a run that looks for its region sleeps if and only if a holder on its database covers ground that it also covers, and otherwise gets it |
| RunProtocol.OneHolderExactlyForOrderedBoxes | internal/onrequest/run.go:38-41 | some schedule lets two runs hold one region if and only if its corners are out of order |
| RunLifecycle.StatusStep | internal/api/server/server.go:346-373 | a record moves by at most one status step, never out of a terminal one, and the start time is stamped once |
| RunLifecycle.TerminalIsFinal | internal/api/server/server.go:260-306 | over any later schedule no record is lost, a terminal record is unchanged and a start time stays |
| RunLifecycle.OutcomeIsReported | internal/api/server/server.go:260-306 | the outcome and the error text a run finishes with are what every later poll sees, with its stage and start time |
| RunLifecycle.EachOutcomeIsPossible | internal/api/server/server.go:260-306 | a run can fail in each stage with any error text, and after the last complete or find no data |
| RunLifecycle.ProgressIsReported | internal/api/server/server.go:224-359 | a published run is polled as pending, a started one as running since then, and one that entered a stage in that stage |
| RunLifecycle.RecordsTellThePhase | internal/api/server/server.go:224-306 | a reachable record is terminal exactly once its run has finished, and has a start time exactly once it left pending |
| RunLifecycle.DedupExactlyWithoutOverwrite | internal/api/server/server.go:204-227 | unreleased runs keep distinct keys along a schedule if and only if no caller registers anew over a key in flight |
| RunLifecycle.DuplicateRunTrace | internal/api/server/server.go:213-230 | two identical requests in the window start two runs, while exclusion still holds |
| RunLifecycle.AcceptIsRequestThenPublish | internal/api/server/server.go:224-230 | registration as one step is the two writes with nothing between them |
| RunLifecycle.CoarseDedup | internal/api/server/server.go:192-236 | with registration as one step, on every schedule keys are distinct and the in-flight table is exactly their index |
| RunLifecycle.CoarseJoin | internal/api/server/server.go:206-216 | then an identical request gets the one run serving its key, and a key leaves the table only with a terminal record |
| RunTermination.MeasureDecreases | internal/api/server/server.go:260-332 | every step but a new request lowers a measure that pays for the re-checks a release causes |
| RunTermination.SchedulesEnd | internal/api/server/server.go:260-332 | no schedule without new requests is longer than the measure of its first state |
| RunTermination.Progress | internal/api/server/server.go:308-332 | while a run or caller is open, some step is possible |
| RunTermination.StuckMeansAllReleased | internal/api/server/server.go:308-332 | a schedule that cannot go on has released every region and key, and every record is terminal |
| TextEncoders.FingerprintRoundTrip | internal/importer/extent.go:88-98 | the hashed list of paths, sizes and times is decoded back, for NUL-free paths |
| TextEncoders.FingerprintInjective | internal/importer/extent.go:88-98 | two lists with one text are one list |
| TextEncoders.ArgFileRoundTrip | internal/importer/select.go:321-336 | the argument file is decoded back to the paths, whatever characters they hold |
| TextEncoders.ArgFileInjective | internal/importer/select.go:321-336 | two lists of paths with one argument file are one list |
| TextEncoders.SQLLiteralRoundTrip | internal/process/pylovo_fdw.go:69-71 | a quoted literal is read back with exactly its own part consumed, for every text that does not follow on with a quote |
| ImportCache.KeptMembers | internal/importer/select.go:153-162 | a file is selected exactly when its extent meets the box or cannot be read |
| FileNames.IsModelFileExactly | internal/importer/check.go:146-149 | model files are those that end in one of the four extensions, zipped or not, in any mix of capitals and small letters |
| ImportHistory.SelectedExactly | internal/importer/select.go:278-302 | a file whose extent or CRS cannot be read is always selected; any other, for boxes with ordered corners, if and only if its extent shares ground with the box in its CRS |
| ImportHistory.SelectedInOrder | internal/importer/select.go:153-162 | the files selected keep the order in which the folder lists them |
| ImportHistory.ModesMean | internal/importer/extent.go:140-142 | an intersects import selects the features that share ground with the box, a contains import those inside it |
| ImportHistory.EachFeatureOnOneTile | internal/importer/extent.go:140-142 | on_tile imports of adjoining boxes share no feature and together have those of the undivided box |
| ImportCache.ImportStore.StoreExtents | internal/importer/select.go:252-276 | all unsaved rows are written, or after a failure some of them; no other row changes |
| ImportCache.ImportStore.SaveFullChunk | internal/importer/select.go:213-219 | rows are written as soon as 500 wait, so fewer than 500 are ever unsaved |
| ImportCache.ImportStore.FileExtents | internal/importer/select.go:190-222 | on every exit the cache agrees with its stamps and changed only rows of the listed files; on success the answers are what reading every file gives and every file has a current row |
| ImportCache.ImportStore.FingerprintFiles | internal/importer/extent.go:88-98 | the text that is hashed, or an error when a file cannot be examined |
| ImportCache.ImportStore.Meets | internal/importer/select.go:280-302 | the memo of projected boxes never changes an answer |
| ImportCache.ImportStore.KeepMeeting | internal/importer/select.go:153-162 | the files kept are exactly those whose extent meets the box, in order |
| ImportCache.ImportStore.SelectFiles | internal/importer/select.go:138-167 | the selection per folder and its fingerprint; only the extent cache changes |
| ImportCache.ImportStore.ImportCityDBFiles | internal/importer/citydb.go:66-90 | one call per folder up to the first failure, empty selections skipped; the stored ids are the union |
| ImportCache.ImportStore.ExtentImported | internal/importer/extent.go:143-161 | a hit is a row of the same files whose box covers the request in the same or the intersects mode |
| ImportCache.ImportStore.RecordExtent | internal/importer/extent.go:166-186 | outdated rows of the same place are replaced by the new one, or nothing changes |
| ImportCache.ImportStore.ImportWholeFolderOnce | internal/importer/extent.go:217-229 | the whole-folder branch: skip on a hit, otherwise import and then record |
| ImportCache.ImportStore.ImportBboxOnce | internal/importer/extent.go:234-257 | the box branch: two looks at the record, the selection between them, import, record |
| ImportCache.ImportStore.ImportDatasetOnce | internal/importer/extent.go:197-213 | a limited import is neither skipped nor recorded; the others take their branch; the extent cache stays in agreement |
| ImportHistory.FileSelectionIsComplete | internal/importer/select.go:135-167 | dropping the files that do not meet the box loses no feature of it |
| ImportHistory.HitMeansImported | internal/importer/extent.go:140-161 | on a hit everything the request selects is already imported |
| ImportHistory.RecordingKeepsRowsTrue | internal/importer/extent.go:163-186 | recording what was just imported keeps every row true |
| ImportHistory.RecordedMembers | internal/importer/extent.go:163-186 | recording drops exactly the rows that other files left for the same dataset, mode and box |
| ImportHistory.CallsExactly | internal/importer/citydb.go:66-90 | an import succeeds if and only if none of its calls fails, and stores what each call up to the first failure stores |
| ImportHistory.SuccessLeavesARow | internal/importer/extent.go:143-186 | every unlimited import that succeeds leaves a row of its own dataset, from its own files, whose box and mode cover the request |
| ImportHistory.ImportIsSound | internal/importer/extent.go:192-257 | any import keeps the rows true and adds nothing a naive import would not; an unlimited one that reports success leaves all of it |
| ImportHistory.ImportSucceedsExactly | internal/importer/extent.go:192-257 | exactly when an import succeeds and what it leaves of the record: nothing changes when it is covered, limited and failed imports record nothing, any other records its row |
| ImportHistory.RowsStayTrue | internal/importer/extent.go:163-257 | over every history each row implies that what it selects from its files is imported |
| ImportHistory.SkippedImportLosesNothing | internal/importer/extent.go:192-257 | after any history, a successful unlimited import leaves every feature of the naive one, skipped or not |
| ImportHistory.SecondImportIsSkipped | internal/importer/extent.go:192-257 | after a successful unlimited import the same files are not imported again for a request it serves: a whole folder serves every box of the map in every mode, an intersects import every mode of its box |
| ImportHistory.CachedEqualsNaive | internal/importer/extent.go:192-257 | histories of successful unlimited imports end in exactly the set an importer without record and selection reaches |
| ImportHistory.OneRowPerPlace | internal/importer/extent.go:163-186 | at most one row per dataset, mode and box, over every history |
| ImportParallel.SnapshotChoosesTheSame | internal/importer/select.go:190-222 | cached extents read before other imports wrote theirs still choose exactly the files that meet the box |
| ImportParallel.StepKeepsInv | internal/importer/extent.go:143-257 | every query, write, call and failure of any import keeps: the cache agrees, the rows are true, and what each import has done so far is imported |
| ImportParallel.ParallelImportsAreSound | internal/importer/extent.go:100-102 | at every moment of every interleaving the cache agrees, each row is true, nothing foreign is imported, and an unlimited import that ended well has all its features imported |
| ImportParallel.ParallelEqualsNaive | internal/importer/extent.go:192-257 | when all end well without a limit, exactly the naive imports of all of them are added |
| ImportLock.LockKeepsPlacesApart | internal/api/server/server.go:308-343 | imports under way in the import stages of their runs exclude each other by place, for boxes with ordered corners |
| ImportLock.StepKeepsInv | internal/onrequest/run.go:102-130 | every step of the server and of its imports keeps: each import under way belongs to a run of its own that holds its region in its import stage, and the record has one row per place |
| ImportLock.LockedImportsLeaveOneRowEach | internal/importer/extent.go:163-186 | over every joint schedule of requests, runs and their imports, from a new server on, the record has at most one row per dataset, mode and box at every moment, for boxes with ordered corners |
| ImportParallel.OneRowUnderTheLock | internal/importer/extent.go:163-186 | while imports of one place exclude each other, at most one row per dataset, mode and box at every moment |
| ImportTwins.NoTwinsOneRowEach | internal/importer/extent.go:143-186 | from any record with one row per place, imports of which no two would record the same row leave one row per place over every schedule, with no lock at all |
| ImportTwins.TwoRowsExactlyForTwins | internal/importer/extent.go:143-257 | among imports that the record does not skip yet, some schedule leaves two rows for one place if and only if two unlimited ones would record the very same row |
| ImportTwins.FirstImportsLeaveTwoRows | internal/importer/extent.go:143-257 | the same for any imports into an empty record |
| ImportTwins.TwoRowsWithoutTheLock | internal/importer/extent.go:192-257 | any unlimited import started twice has a schedule in which both miss and both record, and no exclusion holds along it |
| Batches.CreateBatches | internal/utils/batch.go:3-17 | the ids in order, every batch full but possibly the last and none empty; one batch without a positive size |
| Batches.BatchCount | internal/utils/batch.go:8-15 | the number of batches is the quotient rounded up |
| Batches.ExactlyOneBatch | internal/utils/batch.go:8-15 | distinct ids are in exactly one batch each |
| Extraction.PickedMembers | internal/process/query.go:40-81 | an area run looks at exactly the buildings that meet the area or lie within 0.1 of one that does |
| Nearness.WithinGapExactly | internal/process/query.go:40-67 | boxes with ordered corners are near each other if and only if they hold two points no more than a tenth apart |
| Extraction.PickedExactly | internal/process/query.go:40-81 | for ordered corners, a building is picked if and only if its envelope shares ground with the area or holds a point no more than a tenth from one of an envelope that does |
| Extraction.PickedAscend | internal/process/query.go:53-78 | the ids a run looks at are in order and each once |
| Extraction.Extractor.FilterUnprocessed | internal/process/feature_extraction.go:178-190 | the ids without a row, in order |
| Extraction.Extractor.Select | internal/process/feature_extraction.go:38-74 | the ids per level, cut at the limit, or the first error |
| Extraction.Extractor.RunBatches | internal/process/feature_extraction.go:81-95 | the batches of a level add exactly the rows of all its ids, or of those whose jobs got through |
| Extraction.Extractor.RunPostScripts | internal/process/feature_extraction.go:127-154 | the scripts up to the first failure, over the scope of the run, on the table of one level |
| Extraction.Extractor.RunFeatureExtraction | internal/process/feature_extraction.go:34-121 | the whole new state of both tables and the result, for every pattern of failures |
| ExtractionHistory.NilRunMaintains | internal/process/feature_extraction.go:123-154 | one run that returns nil keeps every stored value equal to a recomputation |
| ExtractionHistory.IncrementalEqualsRecomputed | internal/process/feature_extraction.go:34-154 | after every series of area and whole-table runs that return nil, every stored value equals a full recomputation |
| ExtractionHistory.AreaRunsEqualWholeRun | internal/process/query.go:47-97 | unlimited nil runs that between them meet every building end in the table of one whole-table run |
| ExtractionHistory.AreaIsFinal | internal/process/query.go:47-67 | a nil unlimited area run already gives its buildings the values they have once everything is extracted |
| ExtractionHistory.NothingIsLeftOut | internal/process/feature_extraction.go:38-74 | a nil run without a limit extracts everything it picks that has no row yet |
| ExtractionHistory.LimitTakesTheSmallest | internal/process/feature_extraction.go:38-74 | at each configured level a run extracts, in order, the smallest ids among the picked ones without a row, as many as the limit allows or all of them; at other levels none |
| ExtractionHistory.SelectionFailsExactly | internal/process/feature_extraction.go:38-60 | the selection fails if and only if a level is unknown, its query fails, or its dataset check fails with something to extract |
| ExtractionHistory.MarksOfRun | internal/process/feature_extraction.go:93-154 | a script's values change exactly in the scope of the run and only if the script runs: after all jobs got through, no script before it failed, and at level 3 nothing of level 2 failed |
| ExtractionHistory.ScopeIsWhatChanges | internal/process/query.go:83-97 | beside the buildings extracted, the scope holds exactly the rows whose neighbours the new rows changed |
| ExtractionHistory.ExtractedIsPicked | internal/process/feature_extraction.go:162-190 | in any state, only picked ids without a row are ever extracted |
| ExtractionHistory.NeverExtractedAgain | internal/process/feature_extraction.go:156-190 | over any series of runs, failed or not, a building with a row is never extracted again |
| ExtractionParallel.StepKeepsDue | internal/process/feature_extraction.go:123-154 | for runs side by side, every selection, row, scope query and script keeps: each row is up to date for a script or some run is still to compute it |
| ExtractionParallel.ParallelRunsAgree | internal/process/feature_extraction.go:34-154 | once all runs of any interleaving have ended, every stored value equals a full recomputation, also across the borders of their areas |
| ExtractionParallel.AllCanEnd | internal/process/feature_extraction.go:34-154 | from any state a schedule leads to, all runs can go on to their ends |
| ExtractionParallel.ParallelRunsEqualWholeRun | internal/process/query.go:47-97 | unlimited runs side by side that between them look at every building end in the table of one whole-table run |
| ExtractionJobs.PoolTellsTheRun | internal/process/worker.go:42-61 | for one or more workers and any schedule, the pool returns nil if and only if the run is told of no failed job |
| ExtractionJobs.RunSucceedsExactly | internal/process/feature_extraction.go:81-121 | a run that selects something returns nil if and only if every script over every batch has an attempt that succeeds within both retry limits, and no post script or trigger of a level with buildings fails |
| ExtractionJobs.RowsExactly | internal/process/feature_extraction.go:81-95 | exactly which buildings have a row in the end: all extracted ones that can have one when every script succeeds, otherwise those of the batches in which every script does and what failing jobs wrote before |
| ExtractionFailures.ConsistentExactlyWithoutStale | internal/process/feature_extraction.go:93-116 | with failed runs in the history, the table equals a recomputation if and only if no run left a row stale |
| ExtractionFailures.RepeatRepairsNothing | internal/process/feature_extraction.go:49-79 | once every picked building has a row, a repeat returns nil and changes nothing |
| ExtractionFailures.FailedRunLeavesStaleValues | internal/process/feature_extraction.go:93-95 | one failed queue and a clean repeat that reports success over an outdated table |
| Templates.PlaceholderIsAHole | internal/process/sql.go:64-70 | the reference reading of a script overlooks no placeholder |
| Templates.ReplaceParameters | internal/process/sql.go:65-70 | the result is that of some order of the parameters, and the simultaneous substitution whenever that leaves no known placeholder |
| Templates.EveryOrderSubstitutes | internal/process/sql.go:65-70 | for brace-free names and any values: when the simultaneous substitution spells no known placeholder, every order gives it; and that is what it takes for all orders to give it and leave none |
| Templates.UnnestedScripts | internal/process/sql.go:65-70 | scripts with unnested braces and brace-free values: every order gives the simultaneous substitution, with no known placeholder left |
| Templates.UnknownStaysInEveryOrder | internal/process/sql.go:65-70 | in unnested scripts every order leaves an unknown placeholder where it is and works on the text around it separately |
| Templates.NestedBracesShowTheOrder | internal/process/sql.go:65-70 | a script with nested braces for which two orders give two texts |
| Templates.BuildingIdsText | internal/process/sql.go:23-37 | the id list reads back as exactly the ids in order, and as -1 alone without ids |
| Scanner.EndsInOrder | internal/importer/check.go:26 | no match lies inside an earlier one |
| Scanner.SeenExactly | internal/importer/check.go:246-268 | for matches of at most overlap + 1 bytes, the windows show the first match of the whole stream, wherever the chunks end |
| Scanner.CaptureIsFirst | internal/importer/check.go:257-259 | they deliver its capture when that is not empty, and nothing when there is no match |
| Scanner.Reader.ReadFull | internal/importer/check.go:254 | a read is short only before the end of the file or an error |
| Scanner.Scan | internal/importer/check.go:248-268 | the loop over tail and chunk reports what the windows show, and nothing but the error after a read error |
| Scanner.ReadBehind | internal/importer/select.go:86-108 | the bytes behind the match shown first, read on as far as needed |
| CityJSON.ScanCityJSON | internal/importer/check.go:248-268 | CityJSON is reported exactly when the stream holds the marker, and the first reference system when that is not empty or no value is in reach |
| CityJSON.MarkerExactly | internal/importer/check.go:256 | a marker is seen in some window if and only if the stream holds it |
| CityJSON.ReferenceIsFirst | internal/importer/check.go:257-259 | for every chunk size the report is the first declaration, if and only if that is not empty or no value stands where a window can lead with it, which the stream and the overlap alone decide |
| CityJSON.CityJSONExtent | internal/importer/select.go:83-108 | the extent is parsed from the 16384 bytes behind the stream's first metadata key, also when reading then fails; without a key the result is the read error or no extent |
| CityJSON.DeclarationMatches | internal/importer/check.go:26 | the pattern finds a declaration whole and captures its value |
| CityJSON.ReferenceMatchesExactly | internal/importer/check.go:26 | the pattern matches exactly the key, a colon and a quoted text, with any white space around the colon, and captures what is between the quotes |
| CityJSON.MetadataMatchesExactly | internal/importer/select.go:34 | the pattern matches exactly the key, a colon and an opening brace, with any white space around the colon |
| CityJSON.EmptyFirstDeclaration | internal/importer/check.go:257-259 | one stream and two chunk sizes with two reports |
| CityJSON.EmptyFirstIsLost | internal/importer/check.go:248-268 | for any chunk and overlap, an empty first declaration is passed over for one that starts in the overlap ending the first chunk, while a chunk longer than the stream reports the empty one |
| CityJSON.EmptyFirstInAChunk | internal/importer/check.go:249-259 | the same for chunks of 1048576 bytes that overlap by 4096 |
| Cursor.CursorRoundTrip | internal/onrequest/surfaces.go:41-55 | every object id comes back from its cursor, and only the empty id has the empty one |
| Cursor.SymbolIsOfAlphabet | internal/onrequest/surfaces.go:41-45 | the symbols are the URL-safe alphabet, Table 2 of RFC 4648 |
| Cursor.SextetsAreTheBits | internal/onrequest/surfaces.go:41-45 | the sextets are the bits of the id, highest first, padded with zeros and without padding symbols, as section 5 of RFC 4648 has it |
| Cursor.SpelledExactly | internal/onrequest/surfaces.go:47-55 | a text is read if and only if its characters but line breaks are of the alphabet, and then as what they are the symbols of |
| Cursor.RefusedExactly | internal/onrequest/surfaces.go:47-55 | exactly which cursors are refused |
| Paging.SurfacesInBBox | internal/onrequest/surfaces.go:57-128 | the rows the page query keeps, and a cursor exactly when it counted more |
| Paging.PageIsPrefix | internal/onrequest/surfaces.go:57-60 | a page is a non-empty prefix of the remainder that fits the limit or is a single building |
| Paging.PageFitsExactly | internal/onrequest/surfaces.go:97-104 | a page ends before the first row but one with which the vertices of all rows up to the last of its id exceed the limit |
| Paging.RunningIsTotal | internal/onrequest/surfaces.go:97-104 | the running total at a row is that of all rows up to the last one with its id |
| Paging.ListingIsComplete | internal/onrequest/surfaces.go:57-128 | following the cursors lists every building once and in order if and only if no id is empty and no shared id exceeds a page |
| Paging.GroupIsCut | internal/onrequest/surfaces.go:97-104 | a page that ends within an id is a single row of an id too large for a page, and the others are lost |
| Retry.RunTaskWithRetry | internal/process/runner.go:51-93 | the attempts made, the exact pauses, and nil exactly when the last attempt succeeded |
| Retry.StopsAtFirst | internal/process/runner.go:57-90 | the loop stops at the first success, deadlock at its limit, or last retry |
| Retry.CompletesExactly | internal/process/runner.go:57-90 | a task completes if and only if some attempt within the limit succeeds with no earlier deadlock at or past the deadlock limit |
| Retry.PermanentDeadlock | internal/process/runner.go:70-81 | a permanent deadlock costs one attempt more than the smaller of both limits |
| Retry.PausesAfterTheLastExactly | internal/process/runner.go:70-90 | the pause after the last attempt is made if and only if that attempt is a deadlock below the deadlock limit and its delay is positive |
| Retry.PermanentDeadlockSleeps | internal/process/runner.go:70-81 | a permanent deadlock sleeps as often as it attempts, up to the deadlock limit |
| Retry.PausesExactly | internal/process/runner.go:70-90 | the whole pause is one deadlock delay for each deadlock below its limit and one retry delay for each other error that leaves a retry |
| Retry.SleepIsBounded | internal/process/runner.go:70-90 | the pauses are at most one per retry, and at most one more when the last attempt deadlocks below its limit |
| Jobs.Channel.Send | internal/process/queue.go:78-82 | a send needs room and an open channel |
| Jobs.JobQueue.Enqueue | internal/process/queue.go:22-28 | the job is the new last one |
| Jobs.JobQueue.Dequeue | internal/process/queue.go:31-42 | the first job leaves, or none from an empty queue |
| Jobs.JobQueue.Peek | internal/process/queue.go:57-66 | the first job, which stays |
| Jobs.JobQueue.Clear | internal/process/queue.go:69-73 | nothing is left |
| Jobs.JobQueue.ToChannel | internal/process/queue.go:77-86 | the closed channel holds the whole queue in order, no send went beyond its capacity, and the queue is empty |
| Jobs.Job.SortTasks | internal/process/runner.go:37-39 | the tasks are put in order of priority, none lost or added |
| Jobs.Job.RunJob | internal/process/runner.go:35-48 | the sorted tasks run up to the first that fails, and nil means every task of the job completed |
| Jobs.RunInOrder | internal/process/runner.go:42-46 | the executed tasks are the prefix up to the first that does not complete |
| Jobs.BatchRunsInScriptOrder | internal/process/orchestrator.go:78-82 | whatever the sort does with equals, a batch's scripts run over it in script order, each after all earlier ones have completed, up to the first that fails |
| Jobs.CreateJob | internal/process/orchestrator.go:55-85 | a job holds its batch and one task per script, with its position as priority and the level of its type |
| Jobs.BuildFeatureExtractionQueue | internal/process/orchestrator.go:25-50 | one job per batch in order, LOD2 before LOD3, with their levels |
| Jobs.QueueExtraction | internal/process/feature_extraction.go:81-87 | the jobs of each level hold its ids in order, every batch full but possibly the last, LOD2 before LOD3 |
| Jobs.PyLovoLinkJobQueue | internal/process/orchestrator.go:144-159 | one job per batch in order, every task moved to the given level |
| Workers.StepKeepsInv | internal/process/worker.go:26-37 | every step keeps: the jobs taken are the finished ones and those in some worker's hands, each once, and the counter counts the failed ones |
| Workers.PoolRunsEveryJob | internal/process/worker.go:42-61 | for one or more workers and any schedule, when all have returned every job has run, the counter is the number of failing jobs, and nil means none |
| Workers.TakenInOrder | internal/process/worker.go:29 | jobs are taken in queue order, none twice and none skipped |
| Workers.SchedulesEnd | internal/process/worker.go:26-56 | a schedule has at most two steps a job and one a worker, and exactly that many when it ends with all returned |
| Workers.Progress | internal/process/worker.go:26-56 | until all workers have returned, some step is possible |
| Workers.NoWorkersRunNothing | internal/process/worker.go:51-60 | without workers no job runs and the result is nil |
| Workers.QueueSucceedsExactly | internal/process/worker.go:42-61 | the queue returns nil if and only if every task of every job completes within its retries |
| GridBatches.CellsPartition | internal/process/feature_extraction.go:372-389 | the batches hold every selected building exactly once, and none is empty |
| GridBatches.OneBatchPerCell | internal/process/feature_extraction.go:372-389 | two buildings share a batch if and only if they share a cell |
| GridBatches.CellExactly | internal/process/feature_extraction.go:372-389 | the cells are the squares of the grid through the origin |
| GridBatches.BatchIsCompact | internal/process/feature_extraction.go:372-389 | the buildings of a batch lie less than a grid step apart on both axes |
| GridBatches.RunPyLovoLinkForLOD | internal/process/feature_extraction.go:313-347 | a pass fails exactly when its query does or, with buildings to link, when the grid size is zero or a job fails; otherwise it reports how many it chose |
| GridBatches.RunPyLovoLink | internal/process/feature_extraction.go:252-279 | over both passes the number batched is the smaller of the limit and what is eligible as each pass starts; no limit batches all; once the limit is reached the second level is not looked at; and exactly when it fails |
| UseType.Aggregate | internal/onrequest/usetype.go:126-137 | areas by type, any dwelling, and the datasets of the mapped units |
| UseType.SortedDistinct | internal/onrequest/usetype.go:148-149 | the names in strict order, each once |
| UseType.Largest | internal/onrequest/usetype.go:142-147 | the largest area, and the smallest name among equals |
| UseType.UseTypeFromUnits | internal/onrequest/usetype.go:112-150 | the winning type, residential exactly with some dwelling, the strictly sorted datasets; nothing exactly when no unit maps |
| UseType.OrderIsImmaterial | internal/onrequest/usetype.go:112-116 | that meaning has one answer, the same for every order of the units |
| UseType.BeforeAtFirstDifference | internal/onrequest/usetype.go:142-149 | names are compared by the first character in which they differ, and come before their continuations |

## Left out

- PostGIS geometry: boxes are closed axis-aligned rectangles over reals in one coordinate system; `ST_Transform` is a function parameter, and an extent's rows are compared by box, not by curved image.
- Footprints: that two footprints are within 0.1 m is an abstract symmetric relation; `AreaIsFinal` takes it to imply that their envelopes are.
- SHA-256 is identified with the text it hashes; the hexadecimal form is not modelled.
- Source files: content is a function of path, size and modification time; an extent declared in a CRS that resolves meets every box that a feature of its file meets; one import reads one snapshot of the disk.
- citydb-tool is an oracle that stores the selected features, is capped, or fails after some part; `--import-mode=skip` is set union on feature ids.
- The SQL of the main and post scripts and the correction triggers: a post script's value for a building is any function of the building and its extracted neighbours, represented by the neighbour set it was computed from.
- Run ids are counters and run keys are triples of database, box and mode instead of their text form; the records returned by `GetRun` are values, so copying is not modelled.
- Go's memory model, goroutine scheduling below critical sections, and the connection pools of the server: a step is one lock hold, one status write or one channel operation.
- Imports and extraction runs side by side: one query, one write of cache rows, one citydb-tool call, one building's row or one post script is one step, so what a database does inside one statement is not modelled. The extraction runs side by side are those that return nil.
- What reads the argument file is not part of this repository; a reader that ended quoted entries at line breaks could not be given paths that hold them.
- ImportCache.ImportStore.StoreExtents: after a failed write any part of the batch may be stored, which is more than one implicit transaction allows.
- Scanner.Scan: with matches longer than the overlap and one byte it states what the windows show, because the code then misses matches across chunk ends.
- Paging.SurfacesInBBox: rows are given in object id order with a fixed order among equal ids; query errors and the surfaces and OSM ways attached to a page are not modelled.
- Jobs.Job.SortTasks: the order of tasks with equal priority is left open, as Go's sort leaves it.
- UseType.UseTypeFromUnits: areas are exact reals, so rounding and NaN are not modelled; the JSON text is given decoded.
- Grid cells and a limited grid query come in no particular order; the model takes the table's order.
- Collation is any strict total order with the empty text first.
- GML envelope reading, `extentFromMetadata`, CRS name resolution, box text parsing and the fixed country, SRID and flag tables: pure lookups and parses, given as parameters or left out.
- Job and task ids, time stamps of the queue and log output.
- The jobs of `MainDBSetupJobQueue` and the supplementary queues, which have no ordering among them, and `isDeadlockError`, which is a text search.
- Progress of runs with a building limit when buildings yield no row: they are selected again each time.
- HTTP handlers, attribution checks, and the Python programs.
