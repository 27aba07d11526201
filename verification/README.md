# Verified models of Handleplan's worker, persistence and offline client

Handleplan plans grocery trips. Its hard logic is in the ingestion worker (leases, cycles, schedules), the
ingestion repository (a fenced ledger, product identity, projections, a lock protocol), the private blob store,
the service worker (an HTML scanner and transactional shell caches), the planner and the basket. This project
models those parts in Dafny and proves what they promise, for every input, every run or every interleaving.

`dafny verify dfyconfig.toml` checks everything.

How the models are built:

- A protocol with awaits or several actors is a transition system. `Next(state, event)` is total and an event
  that is not enabled changes nothing, so any sequence of events is an interleaving and a theorem about `Run`
  is about every run. One event is the code between two awaits, one statement or one file-system call.
- Code that changes fields or tables is also a class whose methods refine the functions the theorems are
  about; loops are loops with invariants. Pure code is functions.
- A job that calls out is a method driven by an arbitrary script of answers, so its contract holds for every
  behaviour of its ports.
- Times are integers; SQL, SHA-256 and the network are parameters.

Main results, by area:

- **Worker** (`Runtime`, `RuntimeHistory`, `WorkerRuntimeObject`, `Runner`, `Schedule`, `FencedSchedule`): no lease is
  released under a running handler; results are fenced, and every result is submitted; recorded slots strictly increase across any number of workers.
- **Ingestion repository** (`IngestionLocks`, `IngestionLedger`, `ProductIdentity`, `ProductHistory`,
  `SourceProductRows`, `PriceCache`): no deadlock; rows only with rights at commit; an append-only ledger whose final counters the
  runner accepts; stable identity; convergent projections.
- **Blob store** (`BlobPublish`, `BlobProgress`, `BlobDirectory`): an immutable, complete published file and durable
  receipts for any number of concurrent, crashing writers; undisturbed calls finish.
- **Service worker** (`HtmlScanner`, `HtmlRoundTrip`, `HtmlRejections`, `HtmlScannerLoops`, `HtmlMarker`,
  `ShellCache`, `ShellProtocol`, `ShellRepair`, `ShellNames`, `ShellProgress`): scanning a printed document returns exactly its start tags; every
  served response comes from a cache that passed the whole check; repair is single-flight and replaces only unready
  caches; names come back and go exactly when stated.
- **Kassalapp and official offers** (`CatalogResolution`, `CatalogRules`, `CatalogResolutionLoops`, `KassalappRun`,
  `OfferIngestion`): order-independent resolution that its rules determine; one finalize per begun run; bounded, authorized ingestion.
- **Catalog pages, planner, basket** (`DiscoveryPages`, `Planner`, `BasketQuantity`, `Basket`): complete keyset
  pagination; Pareto-optimal plans; exact quantities; edits that keep the basket's relations.

Where the code does not do what one might expect, the code was followed:

- `firstSeenAt` of a source product is the first arrival, not the earliest sighting; `FirstSeenIsEarliestIff`
  says when the two agree.
- Equal observation times in the price cache make the amount depend on the order of writes;
  `AmountIsDeterminedIff` says when it does not.
- Adding an exact product does not check the bound of 200 stored products, and a basket beyond it is silently
  not saved; `AddExactStaysInBoundsIff` says when that happens.
- A readiness check takes one await for every path. An entry evicted, or a name deleted, behind it goes unnoticed
  (`LossBehindTheCheckGoesUnnoticed`); `PassedIsReadyIffNothingWasLost` and `PassedIsInPlaceIff` say exactly when a
  passed cache is ready and when it still has its name.
- Looking for a ready cache may create one after all: a name listed before it was deleted is opened again
  (`FailedRepairCanLeaveAnEmptyCache`); `LookingCreatesNothingIff` says exactly when that cannot happen.
- A family whose brands pass their own schema is still refused when they are too long to be listed in its explanation
  (`LongBrandsAreRefused`); `AddFamilySucceedsIff` has the bound.
- An official-offer edition whose pipeline failed counts both as unknown and as failed.

## Model

| member | source | states |
|---|---|---|
| Runtime.NoReleaseUnderARunningHandler | apps/worker/src/runtime.ts:142-209 | In every interleaving no lease is given back while a handler of its cycle is started and unsettled, or still to be started |
| Runtime.LeasesBetweenCycles | apps/worker/src/runtime.ts:142-209 | Between cycles either every lease ever acquired has been released, or the last cycle met an unresponsive handler: the worker is fatal and exactly the earlier cycles' leases are released |
| Runtime.AbandonedLeasesAreNeverReleased | apps/worker/src/runtime.ts:196-208 | The leases of an unresponsive handler stay unreleased whatever happens next |
| Runtime.StatusMachine | apps/worker/src/runtime.ts:105-140 | The exit code is 1 exactly when fatal; fatal and stopped are final; no cycle starts after a shutdown request; a stopped worker has no cycle and holds no lease |
| Runtime.ResultsAreFenced | apps/worker/src/runtime.ts:184-193 | A result is submitted only under the unlost, unreleased lease of its own source from the running cycle, after every handler settled |
| Runtime.NextKeeps | apps/worker/src/runtime.ts:105-242 | Every turn of the event loop keeps the invariant the theorems above rest on |
| Runtime.NextGrows | apps/worker/src/runtime.ts:105-242 | No turn takes back a release, a loss, a submitted result or a final status |
| RuntimeHistory.EveryResultIsSubmitted | apps/worker/src/runtime.ts:187-193 | Over every run the submissions are exactly the results built while their own lease was unlost: each once, with that lease, in the order they were built |
| RuntimeHistory.PassedSchedulesAreSettled | apps/worker/src/runtime.ts:168-194 | When the loop is at schedule k every earlier one was looked up and every due one has had its result; a cycle that leaves unaborted and without an error has done so for all schedules |
| RuntimeHistory.SchedulesAreTakenInOrder | apps/worker/src/runtime.ts:168-179 | A cycle looks its schedules up from the first on, each once |
| RuntimeHistory.CycleFailsIffTrouble | apps/worker/src/runtime.ts:148-202 | A cycle fails exactly when a lookup, a handler, a submission or an acquisition of it went wrong while not aborted |
| RuntimeHistory.TurnsFatalIff | apps/worker/src/runtime.ts:115-126 | The worker turns fatal exactly when a failed cycle ends or the drain times out under a running cycle |
| RuntimeHistory.StartsAndStops | apps/worker/src/runtime.ts:105-140 | A cycle starts exactly when the worker is idle; a shutdown request aborts the work and, once no cycle runs, stops the worker |
| RuntimeHistory.RacedHandlersRun | apps/worker/src/runner.ts:150-186 | A handler in its race starts and settles when it says so; the timeout and the caller's abort abort it |
| RuntimeHistory.CleansUpIffThrew | apps/worker/src/runtime.ts:148-161 | A failed acquisition cleans up and a refused one gives its leases back, never the other way round |
| RuntimeHistory.AbortedWorkStops | apps/worker/src/runtime.ts:169-193 | A lost lease is noticed, and aborted work looks up no further schedule and launches no handler |
| RuntimeHistory.EveryCycleEnds | apps/worker/src/runtime.ts:142-209 | A running cycle takes fewer answers than a bound of its state, whatever else happens, so every answered cycle ends |
| WorkerRuntimeObject.WorkerRuntime.RunCycle | apps/worker/src/runtime.ts:105-127 | Keeps the invariant of `Runtime` and takes nothing back, by refining one event of `Runtime.Next` on the object's own fields: starting a cycle, or joining the active one |
| WorkerRuntimeObject.WorkerRuntime.OnLeaseGranted | apps/worker/src/runtime.ts:148-156 | Keeps the invariant of `Runtime` and takes nothing back, by refining one event of `Runtime.Next` on the object's own fields: one more lease taken, in source order; after the last one the work starts |
| WorkerRuntimeObject.WorkerRuntime.OnPartialRelease | apps/worker/src/runtime.ts:150-153 | Keeps the invariant of `Runtime` and takes nothing back, by refining one event of `Runtime.Next` on the object's own fields: one release after a refused acquisition |
| WorkerRuntimeObject.WorkerRuntime.OnCleanupRelease | apps/worker/src/runtime.ts:157-160 | Keeps the invariant of `Runtime` and takes nothing back, by refining one event of `Runtime.Next` on the object's own fields: one release after a failed acquisition |
| WorkerRuntimeObject.WorkerRuntime.OnLookup | apps/worker/src/runtime.ts:170-186 | Keeps the invariant of `Runtime` and takes nothing back, by refining one event of `Runtime.Next` on the object's own fields: the answer of the last-slot lookup: skip, run or leave |
| WorkerRuntimeObject.WorkerRuntime.OnCycleSettled | apps/worker/src/runtime.ts:116-126 | Keeps the invariant of `Runtime` and takes nothing back, by refining one event of `Runtime.Next` on the object's own fields: the end of a cycle, and the fatal status when it threw |
| WorkerRuntimeObject.WorkerRuntime.RequestShutdown | apps/worker/src/runtime.ts:129-140 | Keeps the invariant of `Runtime` and takes nothing back, by refining one event of `Runtime.Next` on the object's own fields: the first request drains and aborts; later ones join it |
| WorkerRuntimeObject.WorkerRuntime.OnShutdownWaitOver | apps/worker/src/runtime.ts:211-236 | Keeps the invariant of `Runtime` and takes nothing back, by refining one event of `Runtime.Next` on the object's own fields: the end of the drain, in time or not |
| WorkerRuntimeObject.WorkerRuntime.OnOutcome | apps/worker/src/runner.ts:190-216 | Keeps the invariant of `Runtime` and takes nothing back: the joined outcome becomes a result or an error |
| WorkerRuntimeObject.WorkerRuntime.ReleaseCycleLeases | apps/worker/src/runtime.ts:196-208 | The loop gives back exactly the leases of the running cycle |
| Runner.EveryResultMeetsTheSchema | apps/worker/src/runner.ts:110-216 | On a clock that does not run backwards no settlement, timeout, abort, forced outcome or early exit without a handler makes `run` fail its own result schema |
| Runner.FinishMeetsTheSchema | apps/worker/src/runner.ts:122-147 | `finish` meets the schema exactly unless it is told "failed" with accounted counters that show progress |
| Runner.CountersSurviveIffAccounted | apps/worker/src/runner.ts:73-88 | Counters reach the result exactly when they are in range and accounted; anything else becomes a bare failure |
| Runner.ForcedOutcomeKeepsProgress | apps/worker/src/runner.ts:190-207 | A timeout or cancellation keeps the accounted progress of the joined handler |
| Runner.UnforcedOutcome | apps/worker/src/runner.ts:208-213 | When the handler settled by itself its reported status is recomputed from accounted counters, and a cancellation keeps its counters |
| Runner.RejectedOutcome | apps/worker/src/runner.ts:214-216 | Any other rejection reports only why it ended: timeout, cancellation or one failure |
| Runner.UsableIff | apps/worker/src/runner.ts:73-88 | Counters are usable exactly when they are safe integers, fetched is accepted plus quarantined plus unknown, and persisted is fetched |
| Runner.UnusableCountersFail | apps/worker/src/runner.ts:122-135 | Unusable counters make one failure of any settlement, forced or not |
| Schedule.NewestSlotIsNewest | apps/worker/src/schedule.ts:59-94 | A job is due exactly when a slot after the last one was reached; it is the newest slot reached, aligned to the anchor |
| Schedule.StableHash | apps/worker/src/schedule.ts:42-49 | The loop computes the 64-bit FNV hash as sixteen hexadecimal digits |
| Schedule.HashOfA | apps/worker/src/schedule.ts:42-49 | The hash of "a" is the published FNV-1a value |
| Schedule.XorIsBitwise | apps/worker/src/schedule.ts:42-49 | The exclusive or of the hash is set in exactly the bits in which its arguments differ |
| Schedule.HexReadsBack | apps/worker/src/schedule.ts:48-48 | The printed digits are hexadecimal and read back as the hashed number |
| Schedule.JobIdShape | apps/worker/src/schedule.ts:51-57 | An id is source, kind and time; a long one the start of the source, the hash of the whole id, kind and time |
| Schedule.JobId | apps/worker/src/schedule.ts:51-57 | For every source, kind and timestamp a job id never exceeds 200 characters, and a truncated one has exactly 200 |
| Schedule.UntruncatedIdsAreUnique | apps/worker/src/schedule.ts:51-57 | Equal untruncated ids have equal source, kind and slot, for years of any length |
| FencedSchedule.RecordedSlotsIncrease | packages/db/src/worker-state.ts:254-404 | For any number of workers, any interleaving and any clocks the recorded slots of a source and kind strictly increase |
| FencedSchedule.RecordedSlotsAreRight | packages/db/src/worker-state.ts:254-404 | Every recorded slot is aligned to its schedule and was the newest not after the clock it was read by |
| FencedSchedule.NothingWasRecordedSinceTheLookup | packages/db/src/worker-lease.ts:386-524 | A result is recorded only while the source has exactly the results the worker saw at its lookup and its lease is unexpired, however long the job ran |
| FencedSchedule.NextKeeps | apps/worker/src/runtime.ts:170-194 | While its token is current a prepared slot is newer than everything recorded, through claim, renewal, release, expiry and commit |
| FencedSchedule.DueSlotsAreRecorded | packages/db/src/worker-state.ts:254-404 | A worker with a live lease that is not disturbed records the newest reached slot, or nothing exactly when nothing is due |
| IngestionLocks.NoDeadlock | packages/db/src/ingestion.ts:1754-1832 | In every reachable state with an unfinished transaction some unfinished transaction is granted its next statement and makes progress |
| IngestionLocks.AllCanFinish | packages/db/src/ingestion.ts:1754-1832 | From every reachable state there is a schedule that finishes all transactions |
| IngestionLocks.GtinsAreSortedAndComplete | packages/db/src/ingestion.ts:977-984 | The GTIN locks are strictly increasing and exactly the GTINs the batch resolves later |
| IngestionLocks.WaitersAskUpwards | packages/db/src/ingestion.ts:966-985 | A waiting transaction asks for a lock ranked above every lock it holds |
| IngestionLocks.GovernanceIsExclusive | packages/db/src/source-governance-lock.ts:1-9 | A governance change commits only while no batch of its source is between its rights check and its commit |
| IngestionLocks.CommittedRowsHadRights | packages/db/src/ingestion.ts:987-1103 | An approved batch commits its outcomes as they are and rows for exactly the accepted ones and the prices with chain and GTIN; any other only audit rows, accepted turned to quarantined. Approved is what the governance state says at the commit |
| IngestionLocks.ProductsAreWrittenUnderTheirLock | packages/db/src/ingestion.ts:977-985 | A catalog or price outcome reaches a product only while its transaction holds the lock of its GTIN |
| IngestionLocks.ValidationIsExact | packages/db/src/ingestion.ts:941-985 | Validation stops exactly the unacceptable batches, so every committed batch is acceptable |
| IngestionLedger.LedgerIsAppendOnly | packages/db/src/ingestion.ts:1834-1887 | Over every sequence of begin, audit and finalize calls rows are never altered, keys stay unique and a terminal run is frozen with its rows |
| IngestionLedger.FinalCountersMatchTheLedger | packages/db/src/ingestion.ts:1351-1413 | A terminal run's counters satisfy the runner's accounting and equal its ledger rows by state, then and after any further calls; while they can be counted by a safe integer the runner keeps them as they are |
| IngestionLedger.AppendSucceedsIffCompatible | packages/db/src/ingestion.ts:1834-1887 | An audit goes through exactly when every outcome is valid and agrees with the stored rows and with the batch itself |
| IngestionLedger.AppendStoresAll | packages/db/src/ingestion.ts:1834-1887 | After an audit every outcome of it is found under its identity with its hash |
| IngestionLedger.AppendedRowsAreOutcomes | packages/db/src/ingestion.ts:1834-1887 | Every row an audit adds is one of its outcomes, unaltered, of an identity that had no row |
| IngestionLedger.ReplayAddsNothing | packages/db/src/ingestion.ts:1860-1887 | Repeating a committed audit commits again and inserts nothing |
| IngestionLedger.TerminalRunsRefuseWrites | packages/db/src/ingestion.ts:1754-1766 | A terminal run takes no more outcomes, and finalizing it again can only repeat its own answer |
| IngestionLedger.ReconstructCounters | packages/db/src/ingestion.ts:381-403 | The counting loop counts each state and its result is accounted |
| IngestionLedger.FinalizeIsExact | packages/db/src/ingestion.ts:1351-1413 | A finalize goes through exactly when it may; a running run ends with the asked status, counters of its own rows and exactly the reported failures, and the answer is what was stored |
| IngestionLedger.ClosedByItsCall | packages/db/src/ingestion.ts:1351-1413 | Over every sequence of calls a terminal run has the status and the failures of the one call that closed it while it was running |
| IngestionLedger.BeginIsExact | packages/db/src/ingestion.ts:861-929 | A begin goes through exactly when the job has no run or one of the same source and kind, and answers that run |
| IngestionLedger.AuditIsExact | packages/db/src/ingestion.ts:931-939 | An audit goes through exactly when the run is running and the outcomes agree, and answers how many rows it added |
| IngestionLedger.LedgerRepository.BeginRun | packages/db/src/ingestion.ts:861-929 | Creates a run or returns the one of the same job, and changes nothing on a mismatch or interruption |
| IngestionLedger.LedgerRepository.AuditOutcomes | packages/db/src/ingestion.ts:931-939 | The insert loop leaves the ledger that `Append` describes, or the old one on any error |
| IngestionLedger.LedgerRepository.FinalizeRun | packages/db/src/ingestion.ts:1351-1413 | Closes a running run with counters reconstructed from the ledger; otherwise repeats the answer or changes nothing |
| ProductIdentity.IdentityIsStable | packages/db/src/ingestion.ts:1415-1579 | Over every sequence of catalog and price batches a GTIN or (source, record id) keeps its product, no two GTINs share one, retired products never change and status moves only from quarantined to active |
| ProductIdentity.ActiveProductsChangeOnlyFromTheirOwnRecord | packages/db/src/ingestion.ts:162-192 | If a batch changes an active product, some record of it is that product's own linked record with a version newer than its last completed one |
| ProductIdentity.ReviewedIff | packages/db/src/ingestion.ts:162-192 | A record goes to review, changing nothing, exactly when its product is retired, or active with other fields that the record may not correct |
| ProductIdentity.UnreviewedRecordsTakeEffect | packages/db/src/ingestion.ts:1004-1055 | An accepted record that is not reviewed takes effect as a whole and alone: active product with its fields, verified GTIN, bound source key, current row, and an observation with run, source, id, product, time and version as they came |
| ProductHistory.ObservationsAreTheLog | packages/db/src/ingestion.ts:1716-1752 | After any history of batches the observations are the records that took effect, one for one, with the run, id, time and version fed in and the product their key still has |
| ProductHistory.ReviewedIffStale | packages/db/src/ingestion.ts:162-192 | After any history a record of a known key with other fields is reviewed exactly when it has no version or the latest completed sighting of the key was fed in with one at least as new |
| ProductIdentity.StepSucceedsIff | packages/db/src/ingestion.ts:1004-1055 | One record throws exactly for an invalid GTIN or, unreviewed, for a key of another product; a reviewed or unaccepted one changes nothing |
| ProductIdentity.BatchIsItsSteps | packages/db/src/ingestion.ts:988-1055 | A committed batch is its records one after the other |
| ProductIdentity.BatchFailsAtAStep | packages/db/src/ingestion.ts:988-1055 | A batch fails only at a record that throws in the tables the earlier ones left |
| ProductIdentity.PriceBatchSucceedsIff | packages/db/src/ingestion.ts:1104-1124 | A price batch commits exactly when every GTIN it names is valid |
| ProductIdentity.PriceBatchesOnlyAdd | packages/db/src/ingestion.ts:1104-1124 | Price batches add quarantined stubs for unknown GTINs and alter nothing that is there |
| ProductIdentity.CatalogBatchKeeps | packages/db/src/ingestion.ts:941-1057 | One catalog transaction keeps the identity invariant and every existing binding |
| ProductIdentity.ProductRepository.ResolveProductByGtin | packages/db/src/ingestion.ts:1415-1579 | Leaves the tables that `ResolveCatalog` describes: bound, created, corrected, verified or sent to review |
| ProductIdentity.ProductRepository.LinkSourceProduct | packages/db/src/ingestion.ts:1656-1714 | Binds the source key and upserts its row, or reports the identity conflict |
| ProductIdentity.ProductRepository.PersistCatalogOutcomes | packages/db/src/ingestion.ts:988-1055 | The outcome loop commits the whole batch or restores the tables |
| SourceProductRows.ShowsTheBest | packages/db/src/ingestion.ts:288-294 | Whatever the order the row shows the latest sighting, ties to the least hash, with `firstSeenAt` the first arrival and not after `lastSeenAt` |
| SourceProductRows.Converges | packages/db/src/ingestion.ts:1691-1713 | Histories with the same sightings show the same record, whatever their order and repetitions |
| SourceProductRows.FirstSeenIsEarliestIff | packages/db/src/ingestion.ts:1691-1713 | `firstSeenAt` is the earliest sighting exactly when the first arrival is |
| SourceProductRows.FirstSeenDependsOnOrder | packages/db/src/ingestion.ts:1691-1713 | Two orders of the same two sightings that differ in `firstSeenAt` |
| PriceCache.HoldsTheNewest | packages/db/src/price-cache.ts:91-111 | After any history of both writers each key holds a newest of all rows ever admitted for it |
| PriceCache.TimesAreOrderIndependent | packages/db/src/ingestion.ts:1167-1185 | Histories that admitted the same rows agree on every key's time, whatever their order and batching |
| PriceCache.AmountIsDeterminedIff | packages/db/src/price-cache.ts:16-19 | From any start, for all histories of both writers, a key's amount does not depend on order and batching exactly when no row beats the start or the newest rows agree on it |
| PriceCache.BatchAndSingleWritesDiffer | packages/db/src/price-cache.ts:91-111 | The same two rows as one batch and as two writes leave different amounts |
| PriceCache.DedupePriceObservations | packages/db/src/price-cache.ts:42-57 | One row per key, the last of its newest, and no two rows with the same key |
| PriceCache.FilterCacheablePriceObservations | packages/db/src/price-cache.ts:59-67 | The loop keeps exactly the rows `CacheableIsTheFilter` characterises |
| PriceCache.CacheableIsTheFilter | packages/db/src/price-cache.ts:59-67 | A row is kept exactly when it is not after the boundary |
| PriceCache.PriceCacheTable.PutMany | packages/db/src/price-cache.ts:91-111 | Filter, dedupe and one upsert statement in which no stored row is touched twice |
| PriceCache.PriceCacheTable.IngestPrice | packages/db/src/ingestion.ts:1167-1185 | The upsert of the second writer |
| BlobPublish.PublishedFileIsImmutable | apps/worker/src/private-offer-blob-store.ts:407-514 | For any number of writers and any crashes the final name, once linked, keeps its inode and its complete checksummed bytes |
| BlobPublish.AtMostOneStored | apps/worker/src/private-offer-blob-store.ts:407-514 | At most one writer is ever told "stored" |
| BlobPublish.ReceiptsAreDurable | apps/worker/src/private-offer-blob-store.ts:322-405 | Whoever holds a receipt: the final file has exactly one link and that writer's bytes, then and for ever |
| BlobPublish.FinalHasALink | apps/worker/src/private-offer-blob-store.ts:465-473 | The final file has two links exactly while its publisher has not yet unlinked its temporary name |
| BlobPublish.NoTemporaryNameIsLeftBehind | apps/worker/src/private-offer-blob-store.ts:480-514 | When every writer is done only the final name is left, unless a cleanup reported its error |
| BlobPublish.NextKeeps | apps/worker/src/private-offer-blob-store.ts:158-180 | Every file-system call of every writer keeps the invariant |
| BlobPublish.LeftBehindByAFailedCleanup | apps/worker/src/private-offer-blob-store.ts:480-514 | A temporary name left behind by a finished writer is one whose cleanup failed |
| BlobProgress.UndisturbedCallsFinish | apps/worker/src/private-offer-blob-store.ts:158-180 | From any reachable directory an undisturbed call finishes: it publishes where the name is free, accepts a file with one link, else reports an error; the last two leave the directory as it was |
| BlobProgress.Competes | apps/worker/src/private-offer-blob-store.ts:516-545 | The loser of a race looks up to sixteen times: it accepts the file once the second link is gone, else reports an error, and removes its own temporary name |
| BlobProgress.Publishes | apps/worker/src/private-offer-blob-store.ts:407-478 | With a free name the payload ends under the final name alone, sealed, with one link |
| BlobProgress.Verifies | apps/worker/src/private-offer-blob-store.ts:322-405 | An undisturbed verification of an intact single-linked file accepts it |
| BlobDirectory.Directory.VerifyExisting | apps/worker/src/private-offer-blob-store.ts:322-405 | The read loop accepts exactly an intact, single-linked file of the key |
| BlobDirectory.Directory.Fill | apps/worker/src/private-offer-blob-store.ts:436-443 | The write-offset loop writes the whole payload however the kernel splits it |
| BlobDirectory.Directory.PutIfAbsent | apps/worker/src/private-offer-blob-store.ts:158-180 | One uncontended call publishes under the final name alone, recognises an intact file, and changes nothing otherwise |
| HtmlRoundTrip.ScanningAPrintedDocument | apps/web/public/sw.js:292-391 | Scanning any printed sealed document reports exactly its start tags, in order, with attributes and in-head flags |
| HtmlRoundTrip.ReportedAttributes | apps/web/public/sw.js:225-250 | With distinct names the reported attributes are exactly the printed ones |
| HtmlRoundTrip.ParsesElement | apps/web/public/sw.js:170-257 | A printed element parses back to its name, attributes and self-closing flag |
| HtmlRoundTrip.SkipsRawText | apps/web/public/sw.js:259-290 | Raw text is skipped up to and including its own closer |
| HtmlScannerLoops.ReadTag | apps/web/public/sw.js:170-257 | The cursor loops of the tag parser compute the parsing function and stop on every input |
| HtmlScannerLoops.FindRawTextElementEnd | apps/web/public/sw.js:259-290 | The search loop computes the end of a raw-text element and stops on every input |
| HtmlScannerLoops.ConservativeHtmlStartTags | apps/web/public/sw.js:292-391 | The scanning loop computes `StartTags` and stops on every input |
| HtmlMarker.AcceptedDocumentsAreSealed | apps/web/public/sw.js:292-391 | Every accepted input has one html, one explicit head, only head elements in it, and no template |
| HtmlMarker.DocumentHasExactBuildMarker | apps/web/public/sw.js:393-412 | True exactly when the document is accepted, no meta name could decode to the marker, and one marker carries the build in the head |
| HtmlMarker.MarkerOfAPrintedDocument | apps/web/public/sw.js:393-412 | Comments, text and raw text of a printed document can neither forge nor hide the marker |
| HtmlMarker.ExactMarkerIs | apps/web/public/sw.js:393-412 | The marker test in its own words: no meta name with an ampersand, one marker, it is in the head and carries the build |
| HtmlRejections.RepeatedAttributesAreRefused | apps/web/public/sw.js:292-391 | An element that repeats an attribute name, letter case aside, makes the document refused |
| HtmlRejections.ParsesAnyAttributes | apps/web/public/sw.js:225-250 | The parser flags a tag exactly when one of its attribute names repeats |
| HtmlRejections.ParsesBareValue | apps/web/public/sw.js:225-250 | An unquoted value goes up to the next space or the end of the tag |
| HtmlRejections.NullInANameIsRefused | apps/web/public/sw.js:170-257 | A tag name with a null character makes the document refused |
| HtmlRejections.OpenCommentsAreRefused | apps/web/public/sw.js:292-391 | A comment without an end makes the document refused |
| HtmlRejections.LateDeclarationsAreRefused | apps/web/public/sw.js:292-391 | A declaration without an end, or after the doctype, html or head, makes the document refused |
| HtmlRejections.InstructionsAreRefused | apps/web/public/sw.js:292-391 | A processing instruction makes the document refused |
| HtmlRejections.EarlyTextIsRefused | apps/web/public/sw.js:292-391 | Text before the head is closed makes the document refused |
| HtmlRejections.EscapedScriptsAreRefused | apps/web/public/sw.js:259-290 | A script with a comment mark or a nested script mark before its closer makes the document refused |
| HtmlRejections.AmbiguousIff | apps/web/public/sw.js:259-290 | Only a script is ambiguous, and exactly when it has one of the three marks |
| HtmlRejections.DoctypesAre | apps/web/public/sw.js:292-391 | A doctype is exactly the word, space, "html" and perhaps more space, letter case aside |
| ShellCache.ServiceWorker.HandleModeOfflineReady | apps/web/public/sw.js:665-688 | True exactly for a complete, valid cache; it only removes a document that fails its own check |
| ShellCache.ServiceWorker.FindOfflineReadyShellCache | apps/web/public/sw.js:690-708 | Undisturbed between its awaits: finds the repaired shell if ready, else the installed one if ready, creates no cache, and drops unready ones only when superseded; `ShellNames.LookingCreatesNothingIff` is about the disturbed case |
| ShellCache.ServiceWorker.PopulateShellCache | apps/web/public/sw.js:714-751 | Ends with a ready cache of at most 64 entries or without that cache, leaves others alone, and succeeds exactly when every response is acceptable and the assets fit |
| ShellCache.TrimCache | apps/web/public/sw.js:548-567 | Leaves at most 64 entries by removing the oldest removable ones; no shell path is evicted |
| ShellCache.BoundedCache.Store | apps/web/public/sw.js:569-573 | Put and trim: a bounded store leaves at most 64 entries, evicts no shell path and changes no other answer |
| ShellProtocol.NextKeeps | apps/web/public/sw.js:665-778 | Every step of every repair and every request keeps the invariant, whatever is evicted, deleted or rejected in between: each path of a cache is written once, a check has seen what it claims, no stale look |
| ShellRepair.ServedResponsesPassedTheCheck | apps/web/public/sw.js:604-663 | Every response served from a shell cache is accepted for its path and comes from a cache that passed the whole check; where the check looked at the path it is the response the check saw |
| ShellRepair.ServedResponsesAgree | apps/web/public/sw.js:604-663 | Two responses served from one cache for one path are the same |
| ShellRepair.PassedIsReadyIffNothingWasLost | apps/web/public/sw.js:665-708 | A cache that passed its check, found or populated, is ready exactly as long as nothing the check saw was lost |
| ShellRepair.AtMostOneRepairInFlight | apps/web/public/sw.js:753-778 | In every interleaving at most one repair attempt is unsettled |
| ShellRepair.ReplacesOnlyUnreadyCaches | apps/web/public/sw.js:754-766 | An attempt about to replace the repair cache finds no ready cache under that name at that moment |
| ShellRepair.PopulatingEndsReadyOrDeleted | apps/web/public/sw.js:714-751 | In every run without loss from the opening on, an attempt that answers true leaves its cache ready under the repair name, and one that gives up leaves it without the name |
| ShellRepair.GivenUpCachesAreGone | apps/web/public/sw.js:747-767 | On every run the cache of an attempt that gave up is never the repair cache again |
| ShellRepair.LossBehindTheCheckGoesUnnoticed | apps/web/public/sw.js:665-688 | An eviction or a deleted name behind a running check goes unnoticed: the attempt answers true with an unready cache, or with one that has no name |
| ShellRepair.PassedCacheCanBeUnready | apps/web/public/sw.js:665-708 | For every ready installed shell the run in which it loses its document during the check and the attempt answers true |
| ShellNames.LookingCreatesNothingIff | apps/web/public/sw.js:690-708 | From any reachable state, whatever happens next short of a new repair attempt, a missing repair name is not created exactly when no task listed it before it was deleted and no attempt is on its way to populate it; a missing installed name, whatever happens next, exactly when no task that listed it may still open it |
| ShellNames.RepairNameStaysAwayIff | apps/web/public/sw.js:690-708 | With no attempt at work a missing repair name stays away exactly when no request is about to open it |
| ShellNames.NameStandsIff | apps/web/public/sw.js:690-767 | After any run a name still stands for its cache exactly when no event of the run deleted it |
| ShellNames.PassedIsInPlaceIff | apps/web/public/sw.js:665-767 | A task that passed its check, found or populated, has a ready cache under its name exactly when no event deleted the name and nothing the check saw was lost |
| ShellRepair.FailedRepairCanLeaveAnEmptyCache | apps/web/public/sw.js:690-708 | The run in which a request that listed the names early creates the repair name again after a failed attempt deleted it |
| ShellRepair.ReadyRepairSurvivesFurtherCalls | apps/web/public/sw.js:754-778 | Without loss no number of further calls and requests touches a ready repair cache |
| ShellRepair.ReadyShellNeedsNoRepair | apps/web/public/sw.js:690-763 | While the installed shell stays ready no call and no request changes a cache or creates one, registered or superseded |
| ShellProgress.UndisturbedRequests | apps/web/public/sw.js:690-708 | From any caches an undisturbed request ends served with the answer of the preferred ready cache exactly when that cache has one fit for its path; looking changes nothing but a bad document, and for a superseded worker the names of unready caches |
| ShellProgress.UndisturbedAttempts | apps/web/public/sw.js:714-790 | From any caches an undisturbed attempt passes with the preferred ready cache; without one a superseded worker gives up, and the current one ends with a new ready cache of exactly the fetched answers, or without the repair name, exactly as the network allows |
| ShellProgress.Checks | apps/web/public/sw.js:665-688 | An undisturbed check succeeds exactly when the cache is ready |
| ShellProgress.Looks | apps/web/public/sw.js:690-708 | An undisturbed look finds the repaired shell if ready, else the installed one if ready |
| ShellProgress.AloneIsARun | apps/web/public/sw.js:690-790 | An undisturbed task is a run of the interleaving model in which that task alone takes steps |
| CatalogResolution.OneOutcomePerRecordId | apps/worker/src/kassalapp-handlers.ts:324-423 | Exactly one outcome per distinct record id, in the order of the ids' first candidates |
| CatalogResolution.AtMostOneAcceptedPerGtin | apps/worker/src/kassalapp-handlers.ts:388-423 | No GTIN is accepted twice |
| CatalogResolution.AcceptedOutcomesAreUnambiguous | apps/worker/src/kassalapp-handlers.ts:340-388 | An accepted outcome is an accepted candidate that every discovery candidate of its id repeats, and every other one too unless the id knows one GTIN |
| CatalogResolution.RejectedOutcomesAreUnanimous | apps/worker/src/kassalapp-handlers.ts:340-368 | A rejected outcome is what every candidate of its id says |
| CatalogResolution.RivalsNameEachOther | apps/worker/src/kassalapp-handlers.ts:388-416 | Outcomes that conflict over a GTIN name each other: the same ids, their number and the GTIN |
| CatalogResolution.ResolutionIgnoresOrder | apps/worker/src/kassalapp-handlers.ts:324-423 | Reordering the candidates changes no outcome |
| CatalogResolution.ResolvedCatalogIsAudited | apps/worker/src/kassalapp-handlers.ts:324-423 | A resolved catalog never conflicts in the ledger of a fresh run |
| CatalogResolution.DistinctIdentitiesAreAudited | packages/db/src/ingestion.ts:1834-1887 | Outcomes with distinct identities go into a fresh run whatever their hashes and states |
| CatalogResolution.DedupeOutcomesByIdentity | apps/worker/src/kassalapp-handlers.ts:262-272 | Keeps exactly the first sighting of each identity, in order |
| CatalogRules.ResolutionFollowsTheRules | apps/worker/src/kassalapp-handlers.ts:324-423 | Every outcome follows the rules of agreement, discovery and rivalry, stated without the resolution |
| CatalogRules.RulesDecide | apps/worker/src/kassalapp-handlers.ts:324-423 | The rules leave one outcome: with the row above, the resolution is exactly what they say |
| CatalogRules.ValidGtinsAre | packages/domain/src/catalog.ts:13-27 | A valid GTIN is 8 or 13 digits whose weighted sum with the check digit is a multiple of ten |
| CatalogResolutionLoops.CanonicalCatalogOutcomes | apps/worker/src/kassalapp-handlers.ts:324-423 | The two maps, the appended conflicts and the sort by first index compute `Resolve` |
| KassalappRun.Execute | apps/worker/src/kassalapp-handlers.ts:701-827 | For every behaviour of the ports: a begun run gets one finalize attempt as its last call, writes follow their own passed access check, "completed" means all stored, access approved and nothing failed; with accounted receipts the runner accepts the counters. From the trace alone: it begins exactly when it may, settles with the counts of the very finalize answer, as a cancellation exactly when it asked for that status, and without a begun run as a cancellation or one failure by the abort flag |
| KassalappRun.CompleteRun | apps/worker/src/kassalapp-handlers.ts:764-816 | From begin to finalize: the status is "completed" exactly when everything was stored under a still approved access with no failure; the settlement has the counts of that answer, none when the finalize failed |
| KassalappRun.LastSixDigitsDecide | apps/worker/src/kassalapp-handlers.ts:999-1022 | The last six digits of a job id decide the first page of its walk |
| KassalappRun.PersistInBatches | apps/worker/src/kassalapp-handlers.ts:686-699 | Batches of 1 to 25 that concatenate to a prefix of the outcomes, to all of them when it finishes |
| KassalappRun.WalkVisitsEveryPageOnce | apps/worker/src/kassalapp-handlers.ts:999-1022 | Wherever the rotation starts it visits each of the twelve pages exactly once |
| DiscoveryPages.FollowVisitsEverything | packages/db/src/public-catalog-index-reader.ts:893-941 | Following `nextPosition` from any valid cursor terminates and visits every later candidate once, in order and across skipped rows; it fails exactly when a page on the way cannot be read |
| DiscoveryPages.OnlyBrokenRowsStop | packages/db/src/public-catalog-index-reader.ts:990-1089 | With distinct keys, products and GTINs the walk fails exactly when one of the candidates is broken |
| DiscoveryPages.NextPageContinues | packages/db/src/public-catalog-index-reader.ts:1020-1036 | The next request is valid and continues exactly where the page ended |
| DiscoveryPages.ReadDiscovery | packages/db/src/public-catalog-index-reader.ts:990-1089 | The duplicate check over all scanned rows, by GTIN when the query is one, and the page loop compute the page, for every input |
| DiscoveryPages.AnswersAreExact | packages/db/src/public-catalog-index-reader.ts:990-1089 | Invalid exactly for a limit outside 1 to 50 or an impossible cursor; unavailable exactly for duplicate keys among 51 rows or a page that cannot be shown; else the showable rows of the first candidates |
| Planner.EveryFeasiblePlanIsMatched | packages/domain/src/planner.ts:242-294 | For every feasible way to cover the needs some calculated plan costs no more, visits no more stores and substitutes no more |
| Planner.CalculatedPlansAreAFrontier | packages/domain/src/planner.ts:214-240 | Calculated plans are feasible purchases with right totals and stores, none dominates another, they come in order and each further store saves money |
| Planner.OfferIsThePurchase | packages/domain/src/planner.ts:115-172 | A price offers a need exactly the purchase at that price: acceptable product, fewest packages, their number times the price, and the surplus |
| Planner.TotalsAdd | packages/domain/src/planner.ts:186-211 | A total is the sum of the costs of its assignments |
| Planner.SubstitutionsAreCounted | packages/domain/src/planner.ts:186-211 | A plan's substitutions number the needs whose rule is not exact |
| Planner.CalculatedPlansAreDistinct | packages/domain/src/planner.ts:284-287 | No two calculated plans assign the same packages at the same prices |
| Planner.UniqueKeepsTheLast | packages/domain/src/planner.ts:284-287 | Of the plans with one identity exactly the last is kept |
| Planner.PlansExistIffFeasible | packages/domain/src/planner.ts:242-294 | There is a plan exactly when the needs can be covered at all |
| Planner.CombinationsAreComplete | packages/domain/src/planner.ts:37-57 | Every non-empty set of at most `maximum` chains is visited |
| Planner.SubsetPlanIsBest | packages/domain/src/planner.ts:100-212 | The plan of a set of chains is no worse than any feasible plan using just those chains |
| Planner.NothingBeatsTheChosen | packages/domain/src/planner.ts:59-69 | No offer within the chains comes before the chosen one by cost, then product, then chain, then newer time, spelled out field by field |
| Planner.SubsetPlanIsFeasible | packages/domain/src/planner.ts:100-212 | A plan of a set of chains is feasible and says what it costs and where |
| Planner.PackageCount | packages/domain/src/fulfilment.ts:195-239 | The fewest packages that cover the requested amount |
| Planner.VisitInto | packages/domain/src/planner.ts:37-57 | The recursive walk appends exactly the combinations, in depth-first order |
| Planner.AssignSubset | packages/domain/src/planner.ts:107-186 | The loops over needs and prices choose the cheapest offer of every need or give up |
| Planner.UniqueAssignments | packages/domain/src/planner.ts:284-287 | The insertion-ordered map keeps one plan per identity |
| Planner.UniqueKeepsIdentities | packages/domain/src/planner.ts:284-287 | Merging plans drops no identity and invents no plan |
| Planner.Calculate | packages/domain/src/planner.ts:242-294 | The whole calculation, with soundness and mutual non-domination |
| BasketQuantity.PrintThenParse | apps/web/lib/basket-quantity.ts:85-92 | Printing a valid quantity for any of its input units and parsing it gives it back |
| BasketQuantity.DraftParsesBack | apps/web/lib/basket-quantity.ts:126-140 | Drafts parse back exactly, with the legacy unit as the package it stands for |
| BasketQuantity.UnitChangeKeepsTheAmount | apps/web/lib/basket-quantity.ts:105-119 | Whatever was typed, switching units of one dimension keeps the amount |
| BasketQuantity.ParseIsExact | apps/web/lib/basket-quantity.ts:33-43 | An accepted decimal denotes exactly a thousandth of the canonical quantity: no rounding |
| BasketQuantity.ParsesExactly | apps/web/lib/basket-quantity.ts:29-63 | A text is accepted exactly when it is a whole number, for kilograms and litres with up to three decimals, from one to the maximum of its unit |
| BasketQuantity.AmountTexts | apps/web/lib/basket-quantity.ts:30-31 | The decimal texts are exactly those of the pattern |
| OfferIngestion.RunOrchestrator | apps/worker/src/official-offer-operational.ts:261-344 | For every behaviour of the ports: at most 5 pages, 10 editions and 100 MiB, no edition fetched twice, every source call directly after its authorization. The error is the one of the last answer, or a failed validation with its reason (page, bytes, edition or cursor); without an error every discovered edition was fetched and no page was left |
| OfferIngestion.IngestionHandler | apps/worker/src/official-offer-operational.ts:420-439 | The settlement is built from the run's counts and the runner always accepts its counters |
| OfferIngestion.FailureAfterProgressIsPartial | apps/worker/src/official-offer-operational.ts:332-342 | A failure after progress is recorded as partial with all its counts |
| OfferIngestion.CancellationKeepsItsCounts | apps/worker/src/official-offer-operational.ts:332-342 | A cancellation after progress is recorded as cancelled with all its counts |
| OfferIngestion.FinishedRunStatus | apps/worker/src/official-offer-operational.ts:371-384 | A finished run succeeded exactly when no pipeline failed; failed editions count as unknown and as failed |
| Basket.EditsKeepTheBasketSound | apps/web/lib/browser-basket.ts:601-797 | Every sequence of edits with fresh ids keeps ids unique, each rule with exactly one need, exact products stored and each confirmation on one live generic rule |
| Basket.AddExactKeeps | apps/web/lib/browser-basket.ts:601-638 | Adding an exact product keeps the basket sound |
| Basket.AddExactChangesIff | apps/web/lib/browser-basket.ts:601-638 | Adding takes effect exactly when there is room and no rule has the EAN; it appends the need and its rule and stores the merged product |
| Basket.AddFamilyLeaves | apps/web/lib/browser-basket.ts:714-776 | A full basket, or a family that has its rule, is left alone |
| Basket.ExactCandidateIsSound | apps/web/lib/browser-basket.ts:649-702 | The edited basket of a replacement is sound, its pruned products included |
| Basket.SetExactAppliesIffItFits | apps/web/lib/browser-basket.ts:649-702 | The replacement takes effect exactly when the resulting products fit the bound |
| Basket.AddFamilySucceedsIff | apps/web/lib/browser-basket.ts:714-776 | A new family is added exactly when its quantity, brands, candidates and confirmation are acceptable, the brands joined in its explanation make at most 500 characters, and it is still active; otherwise the edit throws |
| Basket.LongBrandsAreRefused | apps/web/lib/browser-basket.ts:714-776 | Five brands of 100 characters pass every check of the input and the edit still throws |
| Basket.RemoveKeeps | apps/web/lib/browser-basket.ts:778-797 | Removing a need keeps the basket sound |
| Basket.RemoveIsLocal | apps/web/lib/browser-basket.ts:778-797 | Removing takes away exactly the need, its rule and its confirmation |
| Basket.SetExactIsLocal | apps/web/lib/browser-basket.ts:649-702 | A replacement changes only that need's rule and confirmation and stores the product merged with its earlier fields |
| Basket.RemoveUndoesAddExact | apps/web/lib/browser-basket.ts:778-797 | Removing the need just added gives needs, rules and confirmations back |
| Basket.AddExactStaysInBoundsIff | apps/web/lib/browser-basket.ts:601-638 | Adding stays within the bounds exactly when the distinct EANs together with the new one number at most 200 |
| Basket.AddExactCanLeaveTheBounds | apps/web/lib/browser-basket.ts:93-103 | A valid basket of 200 different products that one more takes out of bounds |
| Basket.ValidateRelationships | apps/web/lib/browser-basket.ts:125-183 | The validator's sets and use counts accept exactly the relational baskets |
| Basket.SizesAgree | apps/web/lib/browser-basket.ts:125-225 | A sound basket has as many rules as needs and no more confirmations |

## Left out

- Physical-store rows, price evidence, coverage checks and source-health snapshots: they would only add more upserts of the same kind.
- `PostgresPriceCache.putMany` in the lock protocol: it touches cache rows before GTIN locks, so the deadlock result is about the ingestion transactions only.
- Offer-backed discovery rows: they are filtered by neither cursor nor query, and they are off by default.
- SQL text matching, ranking and classification of discovery rows: a row's position and verdict are given.
- Tjek, MENY and Open Prices handlers, gateways and production wiring: network and text extraction.
- Expiry of source permissions while a batch runs: in the governance state a capability is granted or not.
- Advisory-lock and lease-generation collisions: keys are assumed distinct and the database clock to move on between two claims.
- File ownership, modes, time stamps and symbolic links in the blob store: they can only turn a success into an error, which every step may do anyway.
- SHA-256 beyond equality: receipts assume it injective, and digests compare as numbers.
- Characters beyond ASCII in the HTML scanner and in quantities; lengths count characters.
- Response checks of the service worker (status, type, size, digest): one verdict per response. The assets of a document keep its order, where the code sorts them.
- The runtime cache, and the network halves of `cacheFirst`, `networkFirst` and `verifiedBootstrapFirst`: a request enters the model when it turns to the shell caches.
- Installation and activation beside running requests: to them it is a name deleted by another worker. Deleting a name is taken not to be rejected.
- Validation of products and requests, travel, membership and market settings, storage and migration of the basket; a generic rule's matching products are an arbitrary relation.
- Parsing of plan requests, freshness of prices, ids by hash, and the second planner with offers and travel.
- `worker-state` replay of a result with the same job id: it inserts nothing, which the schedule model allows at any commit.
- `IngestionLedger`, `ProductIdentity` and `IngestionLocks` model one repository three times, each with the tables its claims need; their product is not modelled.
- Runtime.Next: the interleaving systems work on values; update in place is in `WorkerRuntimeObject`, `BlobDirectory` and the repository classes.
- Planner.Precedes: plans that tie on stores, substitutions and money stay in the order found, where the code orders them by the text of their identity.
- CatalogResolution.Resolve: the sorted id list of a conflict is a set, and a record's time stamps are taken to be valid.
