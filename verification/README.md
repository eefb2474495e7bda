# Warpbox: the logic behind the WebDAV proxy

Warpbox serves a TorBox library over WebDAV. It keeps a local table of files in step with a remote list, hands out
CDN content to many clients at once, and protects a rate-limited API from all of them. This project models the parts
of it that carry state or that other parts rely on, and proves what they keep over every run.

* **Metadata sync** (`FileTable`, `RemoteItems`, `SyncCycles`, `SyncOutcomes`, `SyncWorker`, `ChangeHooks`,
  `SyncRuns`, `SyncDone`, `SyncInstances`). Each cycle takes a fresh tag, writes the fetched files under it and then
  deletes, source by source and in batches, the rows without it. `SyncCycles` and `SyncOutcomes` say what that amounts
  to, row by row; `SyncWorker` is the cycle as code on a store; `SyncRuns` interleaves any number of callers with the
  streaming side's writes and shows every cycle serializable; `SyncInstances` holds cycles that disappoint.
* **Circuit breaker, health gate, negative cache** (`Breaker`, `Quarantine`, `Retrips`, `QuarantineInstances`,
  `CircuitBreaker`, `ApiHealth`, `Outages`, `NegativeCache`, `Eviction`, `DownloadUrls`, `FetchRuns`, `FetchLives`,
  `ErrorKinds`, `Windows`). What the server remembers about failures is a pruned list or map; the theorems are about the
  whole history, and about who is admitted while a breaker is tripped, whatever removes the tracker in between.
* **CDN streaming** (`CdnStream`, `CdnPolling`, `CdnEffects`, `CdnReactions`, `CdnDecisions`, `StreamHandler`,
  `CdnSlots`, `HangInstances`). One request is a machine over the events it does and meets. `CdnEffects` says that it
  does nothing without cause, `CdnReactions` and `CdnDecisions` what it does about each answer; the two handler
  functions are code that follows it, and `CdnSlots` interleaves any number of requests on the shared connection
  semaphore.
* **Rate limiting** (`Throttle`, `QueueRuns`). Several queues reserve start slots on one limiter.
* **Paging, codecs and fast forms** (`Pagination`, `ApiErrors`, `ByteRanges`, `CacheKeys`, `Hrefs`, `LibraryFilter`,
  `LogRing`), on top of `Text`, `Decimal`, `Int64`, `Numbers`, `Tally`, `Records` and `Wrappers`.

## How to read the model

* Time is an integer number of nanoseconds. Go's zero time is 0 and every clock reading is later; a limiter that has
  reserved nothing yet has no last call at all, because Go's saturating subtraction makes any rate pass.
* What the outside world decides is a parameter that ranges over everything: what the database answers to each
  statement, the API to each call, the CDN and the client to each event. Which of several rows or map entries comes
  first is an arbitrary choice. Each section under a mutex, and each database statement, is one step; concurrent callers
  are arbitrary interleavings of steps.
* Runs are sequences of steps with a function that says where they lead, or that they are impossible. A theorem about
  every reachable state is a lemma about every such sequence.
* The 80 percent threshold of the health gate is `5 * failures >= 4 * samples`, which is what the division and
  comparison of floats decide for fewer than 10^15 samples.
* Strings are sequences of code points; hrefs are sequences of bytes (characters below 256).
* Integers are mathematical except where the source can overflow: range arithmetic and the escalation shift wrap at 64
  bits, and the ids in cache keys range over int64.

## What the code does not quite promise

* A listed file whose upsert fails loses the row it already had: the row keeps its old tag and the prune of the same
  cycle removes it. `SyncOutcomes.RowSurvivesIffWritten` is the exact condition, `SyncInstances.ListedFileLosesRow` an
  instance.
* A first listing that breaks off counts as the whole, so items that were there all along are reported as added; and
  the hooks are skipped when either listing is empty, so the first items to arrive and the last to go are not reported.
  `ChangeHooks.ReportsExactIff` is the exact condition, `SyncInstances.CutShortListingMisreports` and
  `SyncInstances.LastItemUnreported` are instances.
* A quarantine can be cut short: a failure of a caller that was already on its way may trip the breaker again, with a
  shorter window. `Retrips.RetripShortensIff` and `Retrips.RetripShortensByCause` are the exact conditions,
  `QuarantineInstances.TimeoutCutsQuarantineShort` an instance.
* The escalated quarantine is min(cap, base * 2^e) only while the shift does not wrap: `Breaker.EscalatedExact`.
  Requests that were admitted before an item failed escalate it one after another, so the wrap can be reached:
  `Retrips.ItemTripShortensIff` is the exact condition, `QuarantineInstances.ManyDeathsShorten` a run of 62 failures in
  which an hour falls back to five minutes.
* The comment on the breaker promises a single probe. A quarantine that is over is also swept away, after which all
  callers pass together; and a success or a sync ends one early. `Quarantine.AdmissionBeforeEndIff` and
  `Quarantine.AdmittedExactly` are the exact conditions, `QuarantineInstances.SweepLetsAllPass` an instance.
* A size that was corrected after a 416 is overwritten by the next upsert of the file: `SyncRuns.SizeSurvivesIff` is
  the exact condition, `SyncRuns.NextSyncUndoesCorrection` the schedule.
* The comment on hang mode says that each 429 doubles the poll interval. The error that is inspected is the one of the
  fallback, which no longer mentions the primary's. `DownloadUrls.FallbackLooksRateLimited` says exactly when it counts,
  `HangInstances.PrimaryRateLimitUnnoticed` is an instance.
* An API error inside a 200 reply counts half as a success for the health gate, because the client records the reply as
  good before the fetch records the failure: `DownloadUrls.FailedCallsDegradeIff` is the exact condition, and no number
  of such failures alone makes the gate degraded.
* The comment on `GetFileByPath` says that the last upserted row wins. It is the last inserted one:
  `FileTable.PrimaryAfterUpsert` is the exact condition, `FileTable.OlderRowStaysBehind` an instance.
* The collective cap of the limiter is the configured number of starts per minute only if that number divides a
  minute; otherwise it is one more, and `QueueRuns.MinuteCapIsTight` shows a schedule that reaches it.
* A suffix range of zero or negative length, or on an empty file, is accepted with bounds outside the file:
  `ByteRanges.SuffixRange`.
* Paging ends early against a server that caps pages below the requested size: `Pagination.CompleteIff`.

## Model

| member | source | states |
|---|---|---|
| `FileTable.UpsertedKeepsInv` | internal/metadata/store.go:187-210 | writing a file under a tag that was issued keeps keys unique, ids fresh and every row's tag at most the counter |
| `FileTable.PrimaryAfterUpsert` | internal/metadata/store.go:239-258 | the upserted row is its path's primary afterwards if and only if it was inserted or no other row on the path has a higher id |
| `FileTable.PathsAfterUpsert` | internal/metadata/store.go:193-205 | an upsert puts its row on the record's path and takes it off any other; no other row moves |
| `FileTable.OlderRowStaysBehind` | internal/metadata/store.go:239-247 | with two items on one path, syncing the older one again leaves the newer one primary |
| `FileTable.PruneOutcome` | internal/metadata/store.go:523-549 | a prune succeeds if and only if its full batches and the empty one that ends it are all done; then every stale row is deleted and reported, otherwise the report is short by at most one batch |
| `FileTable.PruneStops` | internal/metadata/store.go:523-549 | a prune that fails has deleted and counted the full batches before the failure, and deleted one more if only its count was lost |
| `FileTable.Store.UpsertFile` | internal/metadata/store.go:193-210 | on success the row with the record's key gets the new columns and tag and keeps id and cached URL, or a new row without URL appears under a fresh id; on failure nothing changes |
| `FileTable.Store.GetNextSyncTag` | internal/metadata/store.go:491-504 | a tag is returned exactly when it is incremented and read back, and is one more than every tag before; a failed call may lose one tag and changes no row |
| `FileTable.Store.PruneBySyncTag` | internal/metadata/store.go:517-553 | the batch loop ends; it succeeds exactly when the tag is positive and no batch fails, and then exactly the source's stale rows are gone; otherwise exactly as many as the batches before the failure hold, and the returned total counts those that were counted |
| `FileTable.Store.SetCdnUrl` | internal/metadata/store.go:323-359 | it succeeds exactly when one of three attempts does, and then sets URL and expiry (to whole seconds) of that row and nothing else; otherwise nothing changes |
| `FileTable.Store.SetFileSize` | internal/metadata/store.go:363-374 | on success only that row's size changes |
| `FileTable.Store.GetCdnUrl` | internal/metadata/store.go:377-407 | the URL if there is one and its expiry has not passed, else none |
| `FileTable.CdnRoundTrip` | internal/metadata/store.go:323-407 | what was stored is handed out up to its expiry in whole seconds and not after, and "" never; no other row changes |
| `FileTable.Store.GetFileByPath` | internal/metadata/store.go:243-258 | the row with the highest id on the path, none exactly when no row is on it |
| `FileTable.Store.GetFileAlternatives` | internal/metadata/store.go:277-299 | exactly the rows on the path that are not primary, newest first; a query that breaks off leaves the first of them, with an error |
| `FileTable.Store.ListItemDirs` | internal/metadata/store.go:418-439 | each item with each of its directories, once; a query that breaks off leaves the first of them, with an error |
| `FileTable.ListedDirs` | internal/metadata/store.go:418-439 | a listing names an item with a directory exactly when some row of it has that as the first segment, or the whole, of its path |
| `FileTable.OrderByIdDesc` | internal/metadata/store.go:283-283 | the ids in descending order, all of them |
| `RemoteItems.HashIsStripped` | internal/metadata/sync.go:484-508 | `hash/rest` becomes `rest`, each of its characters replaced exactly if it is forbidden, the slashes kept |
| `RemoteItems.VirtualPathSegments` | internal/metadata/sync.go:484-499 | its segments are those of `rest`, sanitized one by one |
| `RemoteItems.ShortNameIsPath` | internal/metadata/sync.go:490-508 | without a slash, with one in front, or with nothing after the only one, the path is the sanitized short name |
| `RemoteItems.BuildFileRecord` | internal/metadata/sync.go:484-521 | key, size, type and creation time are taken over, the name is sanitized, and the loop over segments and the single-file shortcut both give the path described above |
| `RemoteItems.SanitizePathSegment` | internal/metadata/sync.go:194-210 | every forbidden character becomes an underscore, every other stays |
| `RemoteItems.ListRecordsMembers` | internal/metadata/sync.go:361-406 | the records to write are those of the files of cached or present items, no others |
| `SyncCycles.UpsertAllWrites` | internal/metadata/sync.go:370-382 | writing a list of records leaves every old row in place (with the last record of its key, if any, and its id and URL), adds fresh rows for new keys only, and gives every written key a row |
| `SyncCycles.SweepableExactly` | internal/metadata/store.go:525-530 | after writing, a row is stale for a fetched source if and only if it is an old row of that source whose key was not written |
| `SyncCycles.CycleEffect` | internal/metadata/sync.go:351-445 | whatever fails: a row disappears only if its source was fetched and its key not written, every other row keeps id and cached URL, new rows were written and reuse no id, and the tag invariant holds again |
| `SyncCycles.CycleExact` | internal/metadata/sync.go:351-445 | when all succeeds a fetched source holds exactly the written keys, each with the last record written for it, and an unfetched source keeps every row as it was |
| `SyncOutcomes.SyncExact` | internal/metadata/sync.go:351-445 | the same about the fetched lists themselves, when no upsert and no batch of a prune fails |
| `SyncOutcomes.RowSurvivesIffWritten` | internal/metadata/sync.go:370-445 | a row of a fetched and pruned source survives if and only if its key was successfully written |
| `SyncInstances.ListedFileLosesRow` | internal/metadata/sync.go:370-437 | a table, a fetched list and an upsert failure in which a file that is still listed loses its row |
| `SyncOutcomes.RemovedItemsWereFetched` | internal/metadata/sync.go:422-445 | an item that leaves the store belongs to a source whose fetch succeeded, whatever else failed |
| `SyncOutcomes.ReportedGoneWereFetched` | internal/metadata/sync.go:422-455 | so whatever the first listing named and however the cycle went, the removal hook hears only of items of fetched sources |
| `SyncOutcomes.CycleRecordsAreFetched` | internal/metadata/sync.go:359-406 | nothing is written for a source whose fetch failed |
| `SyncWorker.Worker.UpsertItems` | internal/metadata/sync.go:361-382 | the nested loops execute one upsert per file of an eligible item, in order; exactly those that succeed are written, and they are counted |
| `SyncWorker.Worker.PruneFetched` | internal/metadata/sync.go:430-445 | only stale rows of fetched sources go: as many as the answered batches hold, and all of them exactly when every batch is done |
| `SyncWorker.Worker.TakeSnapshot` | internal/metadata/sync.go:273-281 | what the first listing yields counts as the whole, also when it broke off: then it is as many of the directories, each once, as were read |
| `SyncWorker.Worker.ReportChanges` | internal/metadata/sync.go:447-455 | the hooks hear of exactly the differences between what the first listing named and the items there are now, each once and by a directory it has, unless the second listing failed or either is empty |
| `SyncWorker.Worker.ListLive` | internal/metadata/sync.go:457-468 | the sync-done hook is called exactly when it is set and its listing completes, with all items of the table |
| `SyncWorker.Worker.MarkAndSweep` | internal/metadata/sync.go:359-445 | fetched lists and answers of the database determine what is written, how many rows go and the sync status |
| `SyncWorker.Worker.SyncOnce` | internal/metadata/sync.go:259-481 | a cycle in progress makes the call a no-op; it stops without a tag exactly when none was issued, and then nothing is written; otherwise the table, the status, the hooks and the live set are as described by the members above, for every combination of answers; no item of a source whose fetch failed is reported as removed; and the in-flight flag is released |
| `ChangeHooks.FireChangeHooks` | internal/metadata/sync.go:214-248 | the reports are exactly the two key-set differences of the listings, each item once, by its last listed directory |
| `ChangeHooks.ListingItems` | internal/metadata/store.go:416-439 | a complete listing names exactly the items that have a row, one that broke off some of them |
| `ChangeHooks.ReportsExactIff` | internal/metadata/sync.go:275-281 | the reports are the true differences if and only if the hooks fired on a first listing that named every item, or were skipped while nothing changed |
| `SyncInstances.LastItemUnreported` | internal/metadata/sync.go:447-454 | a cycle, with nothing failing, in which the last item of the store disappears without a report |
| `SyncInstances.CutShortListingMisreports` | internal/metadata/sync.go:275-281 | two items and a cycle that changes nothing: a first listing that breaks off after one row makes the other item reported as added |
| `SyncRuns.StepKeepsInv` | internal/metadata/sync.go:259-445 | every step of every caller, and every write of the streaming side, keeps the invariant of the interleaved system |
| `SyncRuns.AtMostOneCycle` | internal/metadata/sync.go:265-269 | under every interleaving at most one caller is inside a cycle, and no tag is issued between a cycle's tag and its end |
| `SyncRuns.RowsVanishOnlyUnwritten` | internal/metadata/sync.go:430-445 | under every interleaving a row disappears only in a prune of its source, in a cycle that fetched that source, did not write its key, and started with the row in the table |
| `SyncRuns.CycleIsSerial` | internal/metadata/sync.go:351-445 | a cycle's result under any interleaving is, URL and size columns aside, that of the cycle alone on the table it started from |
| `SyncRuns.CompleteCycleExact` | internal/metadata/sync.go:351-445 | hence a cycle without failures leaves each fetched source with exactly the fetched keys, under any interleaving |
| `SyncRuns.UrlsSurviveSyncs` | internal/metadata/store.go:193-205 | a row present before and after any schedule has its key and the URL that was last set for it: no sync step takes a URL away |
| `SyncRuns.UrlServedIff` | internal/metadata/store.go:323-407 | whatever syncs come in between, the URL last stored for a row is handed out exactly up to its expiry, and none after an invalidation |
| `SyncRuns.SizeSurvivesIff` | internal/metadata/store.go:193-205 | over any schedule a row keeps its size, say a corrected one, if and only if no correction and no upsert of the file writes it, or the last of them writes that same size |
| `SyncRuns.NextSyncUndoesCorrection` | internal/server/get.go:935-938 | from any state, a correction and then a cycle whose list has the file with its old size leave the old size |
| `SyncRuns.GoneStaysGone` | internal/metadata/store.go:193-210 | an id is never used again |
| `SyncDone.OnSyncDone` | cmd/warpbox/main.go:226-232 | both maps are restricted to the ids of the reported live set |
| `SyncDone.HookKeepsStoredItems` | internal/server/server.go:785-807 | after the hook exactly the trackers and negative entries of stored items are left, unchanged |
| `SyncDone.FailedFetchForgetsNothing` | internal/metadata/sync.go:457-468 | however a cycle went, no item of a source whose fetch failed loses its tracker or its negative entries |
| `CacheKeys.CdnCacheKeyInjective` | internal/server/get.go:402-409 | two files with the same cache key are the same file |
| `CacheKeys.ItemOfCacheKey` | internal/server/server.go:794-804 | the middle field of every key parses back to the item id, for every int64 |
| `Breaker.EscalatedBounds` | internal/server/get.go:529-546 | the escalated window lies between min(base, cap) and the cap for every count, however the shift wraps |
| `Breaker.UnsetCap` | internal/server/get.go:534-537 | without a cap nothing escalates |
| `Breaker.EscalatedExact` | internal/server/get.go:529-546 | it is min(cap, base * 2^e) if and only if the shift left a positive value or base is at least the cap |
| `Breaker.EscalatedUpTo57` | internal/server/get.go:529-546 | it is min(cap, base * 2^e) for up to 57 escalations |
| `Breaker.EscalatedMonotone` | internal/server/get.go:529-546 | more escalations, up to 57, never mean a shorter window |
| `Breaker.EscalationShrinksIff` | internal/server/get.go:529-546 | a larger count gives a shorter window if and only if the base is below the cap, the smaller count had escalated without wrapping, and the larger one wraps |
| `Breaker.EscalationWraps` | internal/server/get.go:529-546 | with 5 and 60 minutes, escalation 61 falls from the cap back to the base |
| `Breaker.FailuresArePrunedHistory` | internal/server/get.go:490-527 | a tracker's list is its whole failure history restricted to the window that ended at the last failure |
| `Breaker.TripsExactly` | internal/server/get.go:513-558 | a failure trips the breaker exactly when the whole history holds at least the threshold of failures in the window ending there; it then imposes exactly the base window, or for an item trip the one escalated by the number of item trips so far |
| `Breaker.EscalationsCountItemTrips` | internal/server/get.go:529-554 | the escalation count is the number of database-error trips that the gate twice judged healthy |
| `Breaker.ShowsLastFailure` | internal/server/get.go:501-511 | text, code and kind shown are those of the last failure, a database error only if the API looked healthy |
| `Breaker.WarnedIff` | internal/server/get.go:546-552 | the warning about a dead item is given exactly when some item trip has imposed the longest quarantine |
| `Quarantine.QuarantineReaches` | internal/server/get.go:556-558 | a quarantine reaching to some time keeps reaching there while the tracker is not removed and every later trip imposes one that does |
| `Quarantine.ProbesAreSpaced` | internal/server/get.go:457-481 | while the tracker is not removed, whoever is admitted after a probe comes at least 15 seconds later, whatever fails or re-trips in between |
| `Quarantine.NoAdmissionAfterTrip` | internal/server/get.go:457-481 | after a trip nobody is admitted before the end it imposes, escalated or not, as long as the tracker is not removed and no later trip imposes an earlier end |
| `Quarantine.NoAdmissionWithinFloor` | internal/server/get.go:457-481 | whatever re-trips, nobody is admitted before the shortest quarantine is over, as long as the tracker is not removed |
| `Quarantine.AdmittedExactly` | internal/server/get.go:457-481 | a caller is admitted if and only if it asks no earlier than the last removal, trip or probe before it says: at once, at the imposed end, or 15 seconds on |
| `Quarantine.AdmittedBeforeAny` | internal/server/get.go:457-481 | before the first trip everybody is admitted |
| `Quarantine.AdmissionBeforeEndIff` | internal/server/get.go:457-558 | somebody is admitted between a trip and the end it imposes if and only if somebody asks in that time after the tracker was removed, or after a later trip whose own end has come, with no further trip since |
| `Retrips.ItemTripsGrow` | internal/server/get.go:529-554 | of two item trips of one tracker the later one has the higher escalation count |
| `Retrips.ItemTripShortensIff` | internal/server/get.go:529-557 | of two item trips of one tracker the later imposes the shorter quarantine if and only if the base is below the cap, the earlier had escalated without wrapping, and the later wraps |
| `Retrips.RetripShortensIff` | internal/server/get.go:556-558 | a re-trip during a quarantine brings its end forward if and only if its window is shorter by more than the time since the trip in force |
| `Retrips.RetripShortensByCause` | internal/server/get.go:529-558 | that is, with a cap not below the base window: if and only if an item trip is in force, the re-trip is none or wraps, and it comes early enough; with a lower cap, if and only if the re-trip alone is an item trip and comes early enough |
| `QuarantineInstances.ManyDeathsShorten` | internal/server/get.go:529-558 | 62 database errors, a second apart, of requests admitted before: the quarantine of an hour after 61 falls to five minutes |
| `QuarantineInstances.TimeoutCutsQuarantineShort` | internal/server/get.go:529-558 | a run in which a timeout cuts a ten-minute quarantine to five, so that a caller after six minutes is admitted |
| `QuarantineInstances.SweepLetsAllPass` | internal/server/server.go:546-579 | a quarantine is over and swept away, and two callers pass together; without the sweep the second is blocked |
| `CircuitBreaker.FailureTracker.Record` | internal/server/get.go:501-558 | updating the tracker in place gives the value that `Breaker.Record` describes |
| `CircuitBreaker.FailureTracker.IsStale` | internal/server/get.go:466-481 | the answer and the re-armed state are those of `Breaker.Blocked` and `Breaker.Ask` |
| `CircuitBreaker.TrackerTable.RecordTorrentFailure` | internal/server/get.go:490-568 | only the item's tracker changes; a missing one starts fresh |
| `CircuitBreaker.TrackerTable.IsTorrentStale` | internal/server/get.go:457-481 | an unknown item is admitted; asking changes no other tracker |
| `CircuitBreaker.TrackerTable.ClearTorrentFailure` | internal/server/server.go:727-733 | exactly the item's tracker is gone |
| `CircuitBreaker.TrackerTable.Sweep` | internal/server/server.go:546-579 | a tracker goes if its quarantine is over, and otherwise only for want of room and if none that stays expires earlier; the rest stay unchanged, as many as there is room for |
| `CircuitBreaker.TrackerTable.PruneMissing` | internal/server/server.go:785-792 | exactly the trackers of live items are left, unchanged |
| `Eviction.EvictOldest` | internal/server/server.go:520-543 | an over-full map is cut down to exactly the maximum, and nothing evicted expires later than anything kept |
| `Eviction.SortByExpiry` | internal/server/server.go:524-534 | all keys, in an order of nondecreasing expiry |
| `ApiHealth.PrunedLogGivesSameVerdict` | internal/server/server.go:585-638 | the compacted log gives the verdict of the whole outcome history, at every later instant |
| `ApiHealth.DegradedExactly` | internal/server/server.go:615-638 | the gate is degraded if and only if the window holds at least five outcomes, at least four fifths of them failures |
| `ApiHealth.LatestIsLast` | internal/server/server.go:654-696 | the times shown for the last success and failure are the latest in the window |
| `ApiHealth.HealthTracker.Compact` | internal/server/server.go:590-599 | moving the kept outcomes to the front of the array they are read from equals filtering |
| `ApiHealth.HealthTracker.RecordOutcome` | internal/server/server.go:585-600 | the outcome joins the history, and the array still stands for all of it that a later verdict can need |
| `ApiHealth.HealthTracker.GlobalDegraded` | internal/server/server.go:615-638 | the gate's answer is the verdict on everything that ever happened |
| `ApiHealth.HealthTracker.RequestdlHealth` | internal/server/server.go:654-696 | the displayed snapshot counts the same window and carries the same verdict |
| `Outages.ReachableIsConsistent` | internal/server/get.go:506-511 | with outcomes recorded between the gate's two answers, the pruned list still stands for the whole history |
| `Outages.OutagesSpareItems` | internal/server/get.go:506-557 | in every reachable state a failure escalates, warns of a dead item and is labelled a database error exactly as the whole outcome history decides; during an outage a trip imposes the base window |
| `NegativeCache.PruneByItem` | internal/server/server.go:794-805 | an entry is dropped exactly when its item is not live |
| `NegativeCache.FailureShieldsApi` | internal/server/get.go:666-705 | a stored failure answers every lookup of its key before its time is up, unless eviction or item pruning removed it |
| `NegativeCache.HitMeansRecentFailure` | internal/server/get.go:666-705 | the converse: the cache answers only with the last failure stored for the key, less than the time to live ago |
| `NegativeCache.StaysUntil` | internal/server/get.go:666-705 | over any run such an entry stays, and never expires earlier than it did |
| `NegativeCache.SweepIsInvisible` | internal/server/server.go:510-519 | removing expired entries changes no later lookup |
| `NegativeCache.Cache.Lookup` | internal/server/get.go:670-683 | an unexpired entry answers and stays; an expired one is removed |
| `NegativeCache.Cache.SweepExpired` | internal/server/server.go:510-543 | the loops remove exactly the expired entries and then those that expire first, down to exactly the maximum if more are left |
| `NegativeCache.Cache.PruneMissing` | internal/server/server.go:794-806 | exactly the entries whose key names an item that is not live are gone |
| `DownloadUrls.Gateway.FetchCdnUrl` | internal/server/get.go:666-712 | a cached failure or a quarantine answers without an API call; otherwise between one and retries + 1 calls are made, all but the last retryable failures; the item's tracker is cleared on success and otherwise charged with the final error, which is also cached; no other item's tracker changes |
| `FetchRuns.OnlyEarlierFetchesCall` | internal/server/get.go:666-712 | with any number of concurrent fetches, between the storing of a failure and its expiry only those that had looked the file up before call the API for it, unless eviction or pruning removed the entry |
| `FetchRuns.OnlyEarlierAdmittedCall` | internal/server/get.go:457-712 | with any number of concurrent fetches, from a trip or probe of an item to the end it sets only the fetches admitted until then call the API for the item, unless a success, a sweep or a prune removed the tracker or a later trip set an earlier end |
| `FetchRuns.ProbeHoldsOthers` | internal/server/get.go:466-481 | a fetch that passes a breaker whose quarantine is over sets such an end, 15 seconds on |
| `FetchRuns.TripHoldsOthers` | internal/server/get.go:527-558 | a failure that trips sets one at least the shortest quarantine away |
| `FetchLives.TrackerFollowsLife` | internal/server/get.go:457-568 | in every interleaving of fetches and sweeps an item's tracker is what the questions, failures and removals of that item alone make of it |
| `FetchLives.LifeIsTimely` | internal/server/get.go:457-568 | and these come in the order of their clock readings |
| `FetchLives.PassesIffAdmitted` | internal/server/get.go:457-481 | so a concurrent fetch passes the breaker exactly when its item's life admits it, which the `Quarantine` rows decide |
| `DownloadUrls.FetchOutcome` | internal/server/get.go:575-662 | a fetch makes between one and retries + 1 calls, all but the last retryable failures; it gives up only when they are used up or the error is not retryable; its last outcome is good exactly if it yields a URL, and each failed call adds a bad one of its own |
| `DownloadUrls.OutcomesOfCall` | internal/server/get.go:606-606 | call by call: two good outcomes with a URL; with a failure what the client recorded of the reply, if anything, and a bad one |
| `DownloadUrls.FailedCallsDegradeIff` | internal/server/server.go:615-638 | a window of failed calls only makes the gate degraded if and only if there are five outcomes and at least four bad ones for each reply that the client took for good |
| `DownloadUrls.Gateway.GetWithRetry` | internal/server/get.go:575-662 | the health history grows by exactly what the client's hook and the fetch record for each call, at least one bad outcome per failed call, the last one good exactly on success; an account-level error is charged to no item, any other final error exactly once, with the kind and code that its text carries and the gate's answers about the whole history |
| `DownloadUrls.Gateway.Charge` | internal/server/get.go:617-629 | the gate's two answers that go into the record are about the whole outcome history |
| `DownloadUrls.Gateway.RecordCall` | internal/torbox/client.go:459-513 | one call adds the outcome of its HTTP reply, if the client recorded one, and then that of the fetch, bad unless there is a URL |
| `DownloadUrls.Gateway.TryCdnFallback` | internal/server/get.go:719-743 | the alternatives are asked in their order, each as a fetch of its own, until one answers; the error says whether the query failed, there were none, or which error came last |
| `DownloadUrls.FallbackLooksRateLimited` | internal/server/get.go:719-742 | a failed fallback looks rate-limited exactly when the last alternative's error does, or without alternatives the quoted path, or without a list of them the database's error |
| `HangInstances.PrimaryErrorIgnored` | internal/server/get.go:813-845 | in every round of hang mode whose fetch and fallback both fail, the next wait follows from the fallback's error alone |
| `HangInstances.PrimaryRateLimitUnnoticed` | internal/server/get.go:813-845 | a run in which every fetch of the primary is answered with 429, there is no alternative, and the wait is still the first interval |
| `CdnStream.StepIsSound` | internal/server/get.go:164-396 | every event keeps the slot, status-line and URL accounts of a request |
| `CdnStream.RequestIsDisciplined` | internal/server/get.go:92-396 | for any answers: the one slot is held at every open and never while a URL is fetched, a slot awaited, a poll slept or after return; every open has a URL of its own; exactly one status line is written; only a 200 or 206 with a media type is passed on, after it |
| `CdnEffects.EffectsAreJustified` | internal/server/get.go:177-376 | every status line, recorded outcome, size correction, cached failure, dropped URL and copied body has its cause in the CDN's last answer |
| `CdnEffects.OpenedUrlsAreCached` | internal/server/get.go:161-226 | with caching on, a request opens the CDN only with the URL that it last found in the cache or put there |
| `CdnEffects.SpoiledUrlsAreDropped` | internal/server/get.go:246-253 | with caching on, after a transient or disguised answer the cached URL is dropped before another is asked for |
| `CdnEffects.ExhaustedIff` | internal/server/get.go:164-395 | the code after the attempt loop can be reached if and only if the retry count is negative and the range valid; no checked configuration has one |
| `CdnReactions.GoodReplyIsStreamed` | internal/server/get.go:355-380 | a 200 or 206 with a media type is followed by exactly the status line (unless hang mode has sent it), a good outcome, the body and the slot given back, and that ends the request |
| `CdnReactions.LastGoodReplyIsStreamed` | internal/server/get.go:355-380 | a request that is over and whose last answer was such a reply has passed on its body, once, after that answer |
| `CdnReactions.StaleIsRepaired` | internal/server/get.go:192-227 | a 403 or 404 with repairing on and repairs left is followed by giving the slot back and fetching a new URL |
| `CdnReactions.TransientEntersHang` | internal/server/get.go:229-257 | a 429, a 5xx or a disguised error page is followed by a bad outcome, dropping the URL, the success line and a fetch |
| `CdnReactions.TransientSlowsPolling` | internal/server/get.go:886-925 | in hang mode it is followed by a bad outcome, dropping the URL and a wait twice as long as the last, up to 300 s |
| `CdnReactions.NetworkErrorEnds` | internal/server/get.go:177-190 | no answer is followed by a bad outcome and a 502, in hang mode by the same wait again |
| `CdnReactions.TrueSizeIsTaken` | internal/server/get.go:259-291 | a 416 that names another size is followed by correcting the size, dropping the URL and caching the failure, one that names the recorded size is not; in the repair loop the client gets a 416 |
| `CdnReactions.NoSizeNoCorrection` | internal/server/get.go:259-291 | a 416 that names no size corrects nothing |
| `CdnReactions.OtherStatusEnds` | internal/server/get.go:293-331 | every other status, and a 403 or 404 that is not repaired, is followed by a bad outcome and, if possible, a 502; the failure is cached exactly for a 403 or 404 on the last attempt |
| `CdnReactions.DisguisedExactly` | internal/server/get.go:745-757 | a content type counts as an error page exactly if it starts with text/ or contains html or json, in any case |
| `CdnDecisions.StartsWithLookup` | internal/server/get.go:92-100 | every request begins by looking up its URL |
| `CdnDecisions.LookupLeadsOn` | internal/server/get.go:92-154 | a failed look-up is a 500; a cached URL is used without asking the API; without one the API is asked |
| `CdnDecisions.FetchedUrlIsUsed` | internal/server/get.go:124-154 | a URL is cached and then used, unless it is the first and the range cannot be had, which is a 416 |
| `CdnDecisions.FailedFetchFallsBack` | internal/server/get.go:101-107 | when the API gives no URL the alternatives are asked |
| `CdnDecisions.FailedFallbackLeadsOn` | internal/server/get.go:107-123 | when they give none either: at first success is claimed and polling begins, a repair ends in a 502, and in hang mode the next wait is doubled exactly if the error spells a rate limit |
| `CdnDecisions.BuiltLeadsOn` | internal/server/get.go:164-173 | a request that cannot be built is a 500, or in hang mode the slot given back; otherwise a slot is awaited, or in hang mode the CDN opened |
| `CdnDecisions.AcquiredLeadsOn` | internal/server/get.go:173-177 | with a slot the CDN is opened, in hang mode after building the request |
| `CdnDecisions.WaitLeadsOn` | internal/server/get.go:808-845 | after a wait the API is asked again; a client that leaves ends the request |
| `CdnPolling.RepairsAreBounded` | internal/server/get.go:162-227 | before hang mode the CDN is opened at most retries + 1 times |
| `CdnPolling.PollingBacksOff` | internal/server/get.go:808-925 | every wait lasts min(300 s, 15 s * 2^k), k being the number of slowing failures since hang mode began |
| `StreamHandler.Handler.StreamFileContent` | internal/server/get.go:92-396 | given what the API, the CDN and the client answer, the handler's events are those of the machine, to its end or over any number of polls; if its last answer was data, that is passed on; a client that leaves by its n-th event ends it within n polls |
| `StreamHandler.Handler.HandleGetCdnHang` | internal/server/get.go:769-985 | the same for hang mode |
| `StreamHandler.Handler.HandleReply` | internal/server/get.go:177-376 | the branches on the CDN's answer come in the order, and do the things, that the machine says |
| `StreamHandler.Handler.CorrectSize` | internal/server/get.go:268-287 | a true size that differs from the recorded one corrects it, drops the URL and caches a failure; otherwise nothing happens |
| `CdnSlots.SlotsAreConserved` | internal/server/server.go:283-295 | for any number of requests and every interleaving: free and held slots make up the capacity, each request keeps its discipline, and one that returned holds none |
| `CdnSlots.ReleaseNeverBlocks` | internal/server/server.go:359-362 | giving a slot back never blocks |
| `CdnSlots.NoDeadlock` | internal/server/server.go:354-362 | while a request is unfinished, some request can go on |
| `CdnSlots.HoldersGiveBack` | internal/server/get.go:173-374 | each step of a holder brings it closer to giving its slot back, and none waits for a slot, a URL or a poll |
| `Throttle.Limiter.TryReserve` | internal/throttle/queue.go:44-62 | a slot is reserved exactly when the last one is a rate old, and the sleep asked for otherwise is positive and long enough |
| `Throttle.SpacedMinute` | internal/throttle/queue.go:35-62 | spaced reservations: any half-open minute holds at most rpm of them, one more if rpm does not divide a minute |
| `QueueRuns.MinuteCapIsTight` | internal/throttle/queue.go:35-62 | that bound is reached: from any time on, one busy queue starts that many requests within a minute |
| `Throttle.LastInInterval` | internal/throttle/queue.go:44-62 | the last of n spaced reservations in an interval is n - 1 rates after its start |
| `Throttle.RateRoundTrip` | internal/throttle/queue.go:110-132 | the displayed requests per minute are the configured ones |
| `Throttle.Counters.Complete` | internal/throttle/queue.go:158-178 | totals and the trimmed window stay what the full call history says, and no call older than a minute is kept at its front |
| `Throttle.Counters.Record429` | internal/throttle/queue.go:183-188 | one more 429 is counted, and nothing else changes |
| `Throttle.Counters.ReadStats` | internal/throttle/queue.go:110-132 | the calls shown for the last minute are those of the full history |
| `QueueRuns.StepKeepsInv` | internal/throttle/queue.go:143-181 | every step of every queue keeps the limiter's and the queues' invariants |
| `QueueRuns.CollectiveRate` | internal/throttle/queue.go:98-107 | under every interleaving of any number of queues, reservations are a rate apart and the minute cap is collective |
| `QueueRuns.ExecutesInOrder` | internal/throttle/queue.go:134-181 | each queue executes a prefix of what was enqueued, in order; short of a shutdown nothing is lost |
| `QueueRuns.ExecutionsOwnTheirSlots` | internal/throttle/queue.go:143-181 | every execution has a reservation of its own, also under cancellation |
| `Pagination.ListGeneric` | internal/torbox/client.go:164-263 | paging succeeds exactly when every page clears within the retry budget, then returns the list from the offset on, in order, within the stated number of requests |
| `Pagination.SucceedsIff` | internal/torbox/client.go:200-225 | a page clears if and only if the first request for it that does not fail transiently is a reply within the retry budget, with no cancellation before it; then the remaining pages must |
| `Pagination.TransientForever` | internal/torbox/client.go:200-225 | transient failures that use up the budget fail the list |
| `Pagination.FetchPage` | internal/torbox/client.go:200-225 | one page is retried in place at most retries times; an error means that no continuation could have succeeded |
| `Pagination.CompleteIff` | internal/torbox/client.go:240-260 | the list is whole if and only if the server's cap does not cut a page short |
| `Pagination.PagesForQuotient` | internal/torbox/client.go:240-260 | the number of pages is the quotient plus one |
| `ApiErrors.ClassifyPrinted` | internal/server/get.go:411-451 | the code in a printed error is recovered exactly, whatever characters it has, and kind follows from status and code |
| `ErrorKinds.UnmarkedIsTransient` | internal/server/get.go:411-424 | a text without a status, such as a timeout's, is transient and has no code |
| `ErrorKinds.NoStatusIsTransient` | internal/server/get.go:424-451 | so is one whose status is no number, whatever code follows |
| `ErrorKinds.UnmarkedNeverEscalates` | internal/server/get.go:529-557 | in any run such a failure never escalates, and if it trips imposes exactly the base window |
| `ErrorKinds.TimeoutsNeverEscalate` | internal/server/get.go:529-557 | a run of nothing but such failures never escalates at all |
| `ErrorKinds.RetriedTexts` | internal/torbox/client.go:526-540 | an error is retried exactly if its text spells one of nine markers |
| `ApiErrors.RetryablePrinted` | internal/torbox/client.go:526-540 | a printed error is retryable if and only if its status is 429 or 5xx or the code itself mentions a marker |
| `ByteRanges.ExplicitRange` | internal/server/get.go:1047-1073 | a printed range is accepted if and only if 0 <= start <= end < size, and comes back unchanged (section 14.1.2 of RFC 9110) |
| `ByteRanges.OpenRange` | internal/server/get.go:1047-1073 | an open range reaches to the end of the file, and is accepted exactly when it starts inside it |
| `ByteRanges.SuffixRange` | internal/server/get.go:1034-1046 | a suffix of n >= 1 is the last min(n, size) bytes; the bounds lie inside the file if and only if n and the size are positive |
| `ByteRanges.AcceptedRangesAreInBounds` | internal/server/get.go:1014-1073 | an accepted header whose first part is not empty is inside the file |
| `ByteRanges.AcceptedHeaders` | internal/server/get.go:1014-1073 | nothing is accepted that is not `bytes=A-B` with a number on at least one side |
| `ByteRanges.NegativeStart` | internal/server/get.go:1014-1073 | a negative start is refused as a malformed suffix |
| `ByteRanges.TrueSizeRoundTrip` | internal/server/get.go:997-1010 | the unsatisfied form carries back every non-negative int64 size, and nothing else (section 14.4 of RFC 9110) |
| `Hrefs.EncodeDavHref` | internal/server/propfind.go:27-41 | decoding segment by segment gives back the path's segments, slashes stay, and every '%' starts a valid escape (sections 2.1 and 3.3 of RFC 3986) |
| `Hrefs.EscapesExactly` | internal/server/propfind.go:27-41 | letters, digits and -_.~$&+:=@ stay, every other byte becomes its escape in upper case (section 2.3 of RFC 3986) |
| `Hrefs.HrefInjective` | internal/server/propfind.go:20-41 | two paths with the same href are the same path |
| `LibraryFilter.Apply` | internal/library/filter.go:91-121 | with its directory memo it shows exactly the records that pass on their own, then the largest of each item if so configured |
| `LibraryFilter.KeepsExactly` | internal/library/filter.go:48-89 | a record passes exactly if its directory is included and not excluded, the rest of its path matches, and its size is within the set bounds |
| `LibraryFilter.KeepLargest` | internal/library/filter.go:123-145 | one record per item in order of first occurrence, of maximum size, the earliest among equals |
| `LibraryFilter.LargestOnlyMeans` | internal/library/filter.go:123-145 | every item has exactly one record in the result, none of its records is larger, and none of that size comes earlier |
| `LibraryFilter.LargestOnlyOrder` | internal/library/filter.go:123-145 | the items come in the order in which the records first name them |
| `LibraryFilter.LargestOnlyIsUnique` | internal/library/filter.go:123-145 | that description determines the result |
| `LibraryFilter.ViewOfView` | internal/library/filter.go:91-145 | filtering twice is filtering once |
| `LogRing.RingBuffer.Handle` | internal/server/logs.go:42-52 | the ring holds the last lines of everything ever logged |
| `LogRing.RingBuffer.Lines` | internal/server/logs.go:75-100 | the last min(n', capacity, number of lines) lines in reverse, n' being n or, out of range, the capacity; every index is in bounds |
| `LogRing.RingBuffer.Clone` | internal/server/logs.go:55-72 | a derived handler starts with the same lines in an array of its own |

## Left out

- HTTP, sockets, JSON and XML, routing, authentication, CSRF, the landing page and WebDAV listings: input and output.
- HEAD requests and the redirect of a GET without Range (internal/server/get.go:68-82, 1079-1113): one lookup each.
- The SQLite driver, WAL mode, lock retries' sleeps, the `updated` column and schema migration: each statement is its effect on the table, and may fail.
- `ListDir`, `LIKE` patterns, counting queries and `GetFileByFileID`: easy readers of the same table.
- Regular expressions of virtual folders: arbitrary predicates on names.
- `ParseFileSize`, displayed percentages and durations: floating point and formatting.
- The lengths of the retry backoffs in `getCDNURLWithRetry`, `listGeneric` and `SetCDNURL`: they delay, and decide nothing.
- Configuration loading and saving, and the execution of hook commands: the validated ranges appear as preconditions.
- Starting, stopping and restarting the sync loop: any number of concurrent callers of a cycle is covered.
- The URL and Range header of an upstream open and the Content-Length and Content-Range of the answer: not part of the events; `ByteRanges` says which range is asked for.
- Byte counts of a streamed body: copying a body is one event, and a broken copy is not told from a whole one.
- The negative-cache entries that the streaming side stores (internal/server/get.go:279-286, 304-311): one event each in `CdnStream`, not tied to `NegativeCache`.
- Unicode lower-casing beyond ASCII in `isCDNDisguisedErrorBody`: no other letter lower-cases to one of the markers' letters.
- FileTable.Store.PruneBySyncTag: does not say which 250 stale rows form a batch, because the statement gives no order.
- CdnSlots.NoDeadlock: says only that some request can go on, not that every one eventually does; fairness is up to the scheduler.
