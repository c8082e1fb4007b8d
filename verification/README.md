# The control plane of Read The Fine Corpus, modelled in Dafny

This project models the stateful core of a retrieval platform and proves what its parts promise
each other. `dafny verify dfyconfig.toml` checks all of it.

**Index lifecycle.** `AliasRecords` is the database record of an alias and its repository,
`AliasSwap` the two-phase swap as a protocol with a crash between the phases and a repair,
`Lifecycle` the driver that takes the protocol's steps. `CollectionNames` is the naming scheme the
repair depends on. `Tombstones` is the deletion log with its replay loop, `RestoreProtocol` puts
restore, replay, deletion, purge updates, promotion and crashes side by side, and `RestoreExact` says
exactly what a restored collection holds and when promoting it is clean; `RestoreRuns` has complete
runs. `Deletion` runs the sweep of a deleted document, which goes by the record, beside the operations
of `AliasSwap`.

**Job queue.** `JobQueue` has the rows, the repository and whole runs; `JobDedupe` splits enqueueing
into its database steps and interleaves callers and workers; `JobLease` adds the workers' clocks.

**Fast forms against simple ones.** `QueryCache` (with `CacheKeys`) is an LRU cache with a time to
live against last use, `CacheInclusion` compares two capacities. `ChunkIds` relates two identifiers to
the bits of one digest. `Redaction` and `ConfigExport` set the redactor against the secret checker,
`FirstOffender` says which string the checker names, `SkippedPaths` compares skipping by dotted strings
with removal at key paths, and `RedactInPlace` runs the redactor on linked dictionaries and lists. `Backoff` holds two retry loops against one
specification. `Collect` drives two pagination rules. `EnvMerge` merges variables into nested
dictionaries, `EnvDict` does it in place on linked nodes. `Percentile` is the nearest-rank method.

**Ledgers.** `Budget` is the cost ledger with its guard under concurrent admissions, `EvalStore` the
chain of evaluation baselines and the removal of questions.

`Options`, `Paths` and `Text` hold shared datatypes and facts about paths, numerals and separators.

Classes with mutable fields stand for the repositories, the cache and the drivers; their methods are
proved against functions on values, and the lemmas are about those functions over all runs. Time,
fresh identifiers, random draws, provider answers, the hash and the secret patterns are parameters.
Times are integers, money is counted in units of 10^-8 USD, seconds and samples are reals.

## Where code and documentation disagree

The model follows the code; the lemma named at each point says exactly when the promise holds.

- A first promotion that stops after its first phase leaves an alias without a record, and the
  reconciler only reports it (`src/finecorpus/index/lifecycle.py:1155-1164`): `AliasSwap.RunMirrors`.
- The reconciler writes blanks for absent metadata and counts a repair
  (`src/finecorpus/index/lifecycle.py:1192-1204`), and one backend answers an error with an empty
  dictionary (`src/finecorpus/index/qdrant/backend.py:353-354`): `Lifecycle.ReconcileRepairsExactly`.
- The rollback guard is documented to look at the previous build's provider and looks at the live
  one's (`src/finecorpus/index/lifecycle.py:1041-1049`): `AliasSwap.GuardsAgreeExactly`.
- A rollback leaves `build_id` behind: `AliasSwap.BuildIdExactlyWhenUnskewed`.
- The structural gate against promoting a restored but unreplayed collection goes on when the marker
  cannot be read (`src/finecorpus/index/lifecycle.py:895-902`): `RestoreExact.GateHoldsExactly`,
  `RestoreExact.UnreadPromotionIsCleanExactly`.
- The marker is set after the restore, not before it, so there is a window without it, and tombstones
  written after the replay list was read are not applied: `RestoreExact.UnmarkedGapExactly`,
  `RestoreExact.ReadPromotionIsCleanExactly`.
- A purge updates the logged entry it has just written (`src/finecorpus/pipeline/deletion.py:855-863`),
  which the log's own rule forbids and only PostgreSQL refuses: `RestoreProtocol.AppendOnlyExactly`.
- A chunk id has 30 characters, not 32, and is not one-to-one with the point id:
  `ChunkIds.ChunkIdLength`, `ChunkIds.FourSuffixesPerPointId`.
- The retried insert of an enqueue can be refused with nothing left to catch it:
  `JobDedupe.CallsRaiseExactly`.
- A deletion is documented to remove a document from the live and the previous collection and goes by
  the record, which lags behind the alias in the window of a promotion
  (`src/finecorpus/pipeline/deletion.py:625-633`): `Deletion.ServedIsCleanExactly`.
- Known paths are skipped by their dotted spelling, not by their keys:
  `SkippedPaths.SkippingMeansPathsExactly`.

## Assumptions

- Promotion is reached with collections that exist and carry the identity pinned at their creation;
  collections the alias has pointed at are not dropped.
- The clock of the query cache, which is wall time, does not go back in `CacheInclusion`.
- The lease is the workers' own discipline: no repository operation checks who claimed a job.
- The budget bound assumes that an admitted operation records at most one cost, no more than its
  projection.
- In `JobDedupe` nobody starts or pauses a finished job; `JobQueue.RevivesExactly` shows that the code
  does not check it and `JobDedupe.RevivingKeepsUniqueExactly` what depends on it.

## Model

| member | source | states |
|---|---|---|
| `AliasRecords.AliasRepository.Create` | src/finecorpus/control/metadata.py:331-369 | a new record is empty and only the one alias is added |
| `AliasRecords.AliasRepository.Promote` | src/finecorpus/control/metadata.py:412-434 | field by field: the new collection, build, provider, model, dimensions, config version and time are installed, and each previous field is the old live one; a missing record is an error; no other record changes |
| `AliasRecords.AliasRepository.RollbackToPrevious` | src/finecorpus/control/metadata.py:479-507 | live and previous values are exchanged, the build id is not; a missing record and an absent or empty previous collection are errors that change nothing |
| `AliasRecords.AliasRepository.ReconcileFromQdrant` | src/finecorpus/control/metadata.py:559-579 | the same fields with the values the reconciler hands in; a missing record is an error; no other record changes |
| `AliasRecords.AliasRecord.Serve` | src/finecorpus/control/metadata.py:418-434 | the twelve assignments promotion and repair share, each field named |
| `AliasRecords.AliasRecord.Exchange` | src/finecorpus/control/metadata.py:489-507 | the exchange through temporaries loses and duplicates no value |
| `AliasSwap.StepKeepsMirror` | src/finecorpus/index/lifecycle.py:910-991 | after any one operation, interrupted or not, the record names the alias target, the target before it and the identities pinned on both, if and only if the operation was not an interrupted first promotion and a repair it needed read the identity pinned on the collection |
| `AliasSwap.RunMirrors` | src/finecorpus/index/lifecycle.py:1105-1227 | over whole runs: the record mirrors the alias after every operation if and only if the first promotion of the run was not interrupted and every repair after a crash read the identity pinned on the collection |
| `AliasSwap.OrphanIsNotRepaired` | src/finecorpus/index/lifecycle.py:1155-1164 | an alias without a record is never repaired; only a promotion that reaches its second phase creates the record |
| `AliasSwap.RepairCompletesPromotion` | src/finecorpus/index/lifecycle.py:1179-1202 | crash and repair give the record of the uninterrupted promotion up to the time if and only if a repair that was needed read the pinned identity |
| `AliasSwap.RepairCompletesRollback` | src/finecorpus/index/lifecycle.py:1179-1202 | crash and repair give the record of the uninterrupted rollback up to the time and the build id under the same condition; the build id is then the one in the collection name |
| `AliasSwap.RollbackTwiceIsIdentity` | src/finecorpus/control/metadata.py:445-515 | a second rollback is allowed exactly when the other provider is available and then restores everything but the time |
| `AliasSwap.GuardsAgreeExactly` | src/finecorpus/index/lifecycle.py:1041-1049 | the rollback guard as coded reads the live provider, as documented the previous one; they decide alike for every set of providers if and only if both records name one provider |
| `AliasSwap.RollbackIntoUnavailableProvider` | src/finecorpus/index/lifecycle.py:1041-1049 | two promotions with different providers and a rollback that serves an index whose provider is not configured |
| `AliasSwap.BuildIdExactlyWhenUnskewed` | src/finecorpus/control/metadata.py:489-507 | after any run that leaves a record, crashed first promotions and failed repairs included, the build id is the recorded collection's if and only if an even number of uninterrupted rollbacks followed the record's last other move |
| `AliasSwap.LaterRepairExactly` | src/finecorpus/index/lifecycle.py:1170-1202 | after any run, however many crashes went unrepaired, a later repair installs the alias's target with the identity it read and shifts the rest to previous; the whole record is right exactly when that identity is the pinned one and the record named the target before the last retarget |
| `AliasSwap.SkippedRepairExactly` | src/finecorpus/index/lifecycle.py:910-953 | a crashed promotion followed by another promotion without repair leaves a right record exactly when the second retries the first or returns to the live collection with the abandoned one as previous |
| `Lifecycle.Driver.Promote` | src/finecorpus/index/lifecycle.py:910-986 | the promotion driver, crashing between its phases or not, takes the protocol's step for its alias and touches no other alias |
| `Lifecycle.Driver.Rollback` | src/finecorpus/index/lifecycle.py:1026-1081 | the rollback driver decides by the coded guard, takes the protocol's step and touches no other alias |
| `Lifecycle.Driver.StartupReconcile` | src/finecorpus/index/lifecycle.py:1143-1227 | one pass checks every listed alias and changes no other; repaired is the number of aliases brought in step, failed the number of places of the list whose alias stays out of step, found their sum |
| `Lifecycle.Driver.NothingCounted` | src/finecorpus/index/lifecycle.py:1143-1227 | nothing is found exactly when every listed alias was in step, and nothing fails exactly when every one is afterwards |
| `Lifecycle.Driver.ReconcileOne` | src/finecorpus/index/lifecycle.py:1147-1218 | one round of its loop takes the protocol's repair step; an empty answer about the metadata is written as a blank identity and counted as a repair |
| `Lifecycle.ReconcileRepairsExactly` | src/finecorpus/index/lifecycle.py:1155-1202 | an out-of-step alias is repaired if and only if its record exists and the metadata read does not raise, under the adapter's promise if and only if record and collection exist; the identity is right if and only if it was stored; repairing twice is repairing once |
| `CollectionNames.BuildIdRoundTrip` | src/finecorpus/index/lifecycle.py:1230-1244 | the build id is recovered from the collection name, whatever the kb part contains |
| `CollectionNames.NameInjective` | src/finecorpus/index/adapter.py:202-219 | names are equal exactly when cleaned kb id and build id are |
| `CollectionNames.CleanByLetter` | src/finecorpus/index/adapter.py:202-236 | cleaning drops hyphens, lowers capitals and keeps the rest, letter by letter |
| `CollectionNames.NamesAreSpelled` | src/finecorpus/index/adapter.py:202-236 | an alias is rtfc_ and the cleaned id; build 7 adds _00000007 |
| `CollectionNames.AliasNamesACollectionExactly` | src/finecorpus/index/adapter.py:202-236 | an alias is the name of some collection if and only if its cleaned kb id ends in an underscore and the field of a build number |
| `CollectionNames.NameOrderExact` | src/finecorpus/index/adapter.py:202-219 | exactly when the names of two builds of one kb sort like the builds |
| `CollectionNames.NameOrderIsBuildOrder` | src/finecorpus/index/adapter.py:202-219 | below ten to the eighth, string order is build order |
| `CollectionNames.NameOrderBreaksAtNineDigits` | src/finecorpus/index/adapter.py:202-219 | build 99999999 does not sort before build 100000000 |
| `JobQueue.JobQueueRepository.Enqueue` | src/finecorpus/control/jobs.py:193-236 | returns an active holder of the key when there is one, otherwise adds a queued row; nothing else changes |
| `JobQueue.JobQueueRepository.ClaimNext` | src/finecorpus/control/jobs.py:280-309 | takes a queued job such that no queued job has a greater priority and none of equal priority is older, and marks it claimed; none only when none is queued |
| `JobQueue.JobQueueRepository.StartJob` | src/finecorpus/control/jobs.py:311-325 | the row runs, its first start time is kept, its heartbeat is renewed; a missing job is an error |
| `JobQueue.JobQueueRepository.Beat` | src/finecorpus/control/jobs.py:327-338 | only the heartbeat of the row changes |
| `JobQueue.JobQueueRepository.SaveCheckpoint` | src/finecorpus/control/jobs.py:340-353 | the checkpoint and the heartbeat of the row change, nothing else |
| `JobQueue.JobQueueRepository.CompleteJob` | src/finecorpus/control/jobs.py:355-378 | the row becomes completed with its cost and finish time |
| `JobQueue.JobQueueRepository.FailJob` | src/finecorpus/control/jobs.py:380-403 | the row becomes failed with its message and finish time |
| `JobQueue.JobQueueRepository.PauseBudget` | src/finecorpus/control/jobs.py:405-416 | the row becomes paused in whatever state it was |
| `JobQueue.JobQueueRepository.Resume` | src/finecorpus/control/jobs.py:418-436 | only a paused job is requeued; otherwise an error and no change |
| `JobQueue.JobQueueRepository.ReapStale` | src/finecorpus/control/jobs.py:460-478 | the loop requeues or fails exactly the stale rows and returns their ids once each |
| `JobQueue.RunAccounts` | src/finecorpus/control/jobs.py:280-353 | over every run no job is lost, what it was enqueued with never changes, attempt is the number of its claims, the checkpoint is the last one saved and the start time the first, through claim, pause, resume and reap |
| `JobQueue.DrainIsSortedPermutation` | src/finecorpus/control/jobs.py:280-309 | claiming until none is left hands out every queued job exactly once; priorities never rise, and within one priority creation times never fall |
| `JobQueue.ClaimFindsWork` | src/finecorpus/control/jobs.py:280-309 | a claim comes back empty if and only if nothing is queued |
| `JobQueue.FinishedIsFinal` | src/finecorpus/control/jobs.py:10-22 | in every run that follows the documented transitions a finished job is never touched again |
| `JobQueue.DocumentedLife` | src/finecorpus/control/jobs.py:10-22 | a run through every documented state: claimed, started, checkpointed, paused, resumed, claimed again and completed, with the row it ends in |
| `JobQueue.RevivesExactly` | src/finecorpus/control/jobs.py:311-325 | whatever the caller checks, only start and pause make a finished job active again |
| `JobDedupe.RunKeepsUnique` | src/finecorpus/control/jobs.py:193-265 | in every interleaving of look-ups, guarded inserts, retries and worker operations at most one active job has a given kb and key |
| `JobDedupe.WorkKeepsUnique` | src/finecorpus/control/jobs.py:100-110 | worker operations on unfinished jobs never need the unique index |
| `JobDedupe.RevivingKeepsUniqueExactly` | src/finecorpus/control/jobs.py:311-325 | starting or pausing a finished job keeps the key unique if and only if no other active job holds it |
| `JobDedupe.ReturnsActiveJob` | src/finecorpus/control/jobs.py:193-249 | the step at which an enqueue returns has found or made an active job of the asked kb and key |
| `JobDedupe.AnswersStandForever` | src/finecorpus/control/jobs.py:193-265 | a returned id names a job of the asked kb and key for the rest of every run |
| `JobDedupe.RaisesExactly` | src/finecorpus/control/jobs.py:237-265 | one step makes the constraint violation reach a caller if and only if it is that caller's retried insert and an active job holds the key |
| `JobDedupe.CallsRaiseExactly` | src/finecorpus/control/jobs.py:237-265 | over whole runs a call ends with the violation if and only if its retried insert found the key held |
| `JobDedupe.RaiseIsReachable` | src/finecorpus/control/jobs.py:237-265 | a run in which it does reach a caller |
| `JobDedupe.AloneIsEnqueue` | src/finecorpus/control/jobs.py:193-236 | without interleaving the steps add up to the repository's enqueue, and the caller gets its answer |
| `JobDedupe.CallsEnd` | src/finecorpus/control/jobs.py:193-265 | however others interleave, an enqueue takes at most four database steps |
| `JobLease.ExclusiveExactly` | src/finecorpus/control/jobs.py:460-478 | no interleaving makes two workers act on one job if and only if the reaper waits at least as long as the workers' own lease |
| `JobLease.StepKeepsSound` | src/finecorpus/control/jobs.py:302-338 | a worker within its lease is the one on record and the recorded heartbeat is its own; every held job has a heartbeat |
| `JobLease.AbandonedJobsAreReaped` | src/finecorpus/control/jobs.py:460-472 | whatever the two timeouts, and whether or not the workers keep to their lease, a held job always has a heartbeat and is requeued exactly when its silence exceeds the reaper's timeout |
| `JobQueue.ApplyKeepsHeartbeats` | src/finecorpus/control/jobs.py:280-478 | no operation takes the heartbeat from a held job or makes one held without it |
| `CacheKeys.NormalizeIdempotent` | src/finecorpus/embedding/cache.py:57-66 | normalising twice is normalising once |
| `CacheKeys.SpacesSeparate` | src/finecorpus/embedding/cache.py:57-66 | the ten code points that separate words: runs of them become one space, and none is left at the ends |
| `CacheKeys.ComponentsInOrder` | src/finecorpus/embedding/cache.py:79-80 | model, dimensions, version and normalised text in their order, joined by NUL |
| `CacheKeys.RawKeyDistinguishes` | src/finecorpus/embedding/cache.py:69-81 | for NUL-free model and version the hashed text is equal exactly when model, dimensions, version and lowercased words are |
| `CacheKeys.RawKeyIsUniqueExactly` | src/finecorpus/embedding/cache.py:69-81 | among queries with NUL-free model ids, one shares its hashed text with no other query if and only if no further NUL behind the dimensions is followed by normalised text |
| `CacheKeys.RawKeyCollidesOnNul` | src/finecorpus/embedding/cache.py:69-81 | with a NUL in the API version two queries with NUL-free model ids share the hashed text |
| `QueryCache.QueryEmbeddingCache.Get` | src/finecorpus/embedding/cache.py:152-182 | disabled and absent miss, expired is dropped and misses, a hit moves the entry to the end with its hit count raised by one |
| `QueryCache.QueryEmbeddingCache.Put` | src/finecorpus/embedding/cache.py:184-222 | an update keeps insertion time, model and hit count; a new key evicts from the front just until there is room; a capacity below one raises |
| `QueryCache.QueryEmbeddingCache.Flush` | src/finecorpus/embedding/cache.py:224-227 | the cache is empty afterwards |
| `QueryCache.QueryEmbeddingCache.FlushForModel` | src/finecorpus/embedding/cache.py:229-240 | exactly the entries of the model go, and the count returned is how many |
| `QueryCache.RunBounded` | src/finecorpus/embedding/cache.py:217-222 | in every run the size stays within a capacity of at least one and no key is stored twice |
| `QueryCache.HitIsFreshAndLatest` | src/finecorpus/embedding/cache.py:170-182 | after every run a lookup hits if and only if the key is present and was inserted at most ttl ago, and returns the embedding of the key's last put |
| `QueryCache.StoreIsInUseOrder` | src/finecorpus/embedding/cache.py:178-182 | in every run the store is sorted by last use |
| `QueryCache.EvictionDropsLeastRecentlyUsed` | src/finecorpus/embedding/cache.py:217-219 | a put of a new key into a full store drops exactly the key with the oldest last use |
| `QueryCache.FlushForModelIsExact` | src/finecorpus/embedding/cache.py:229-240 | after flushing a model every lookup of it misses and every other model's lookup answers as before |
| `CacheInclusion.RunsStayRelated` | src/finecorpus/embedding/cache.py:152-240 | through every run without a lookup that finds its key unexpired in the smaller cache and expired in the larger one, the smaller is contained in the larger with the same data, no younger, in the same order, and has no more free slots |
| `CacheInclusion.SmallHitsAreLargeHitsExactly` | src/finecorpus/embedding/cache.py:152-182 | over every run each hit of the smaller cache is the same hit in the larger one if and only if there is no such lookup |
| `CacheInclusion.QueriesGiveOneModelPerKey` | src/finecorpus/embedding/cache.py:69-81 | the assumption of one model per key holds for NUL-free queries and a hash without collisions |
| `CacheInclusion.ExpiryBreaksInclusion` | src/finecorpus/embedding/cache.py:209-215 | a run with such a lookup: an update keeps the old insertion time in the larger cache, the smaller one has to insert again |
| `ChunkIds.CanonicalInjective` | src/finecorpus/contracts/chunk_id.py:58-66 | the canonical string is injective when the first three fields have no separator; the segment path may have it |
| `ChunkIds.FieldsInOrder` | src/finecorpus/contracts/chunk_id.py:58-66 | the five fields in their order, joined by the ASCII unit separator |
| `ChunkIds.CanonicalIsUniqueExactly` | src/finecorpus/contracts/chunk_id.py:58-66 | no other key has a key's canonical string if and only if none of its four text fields contains the separator |
| `ChunkIds.CanonicalCollidesOnSeparator` | src/finecorpus/contracts/chunk_id.py:58-66 | a separator in the config version makes two chunks collide |
| `ChunkIds.GroupsSpellBits` | src/finecorpus/contracts/chunk_id.py:104-105 | the base32 groups of a digest (section 6 of RFC 4648) spell its bits five at a time |
| `ChunkIds.LetterCodes` | src/finecorpus/contracts/chunk_id.py:105 | all 32 letters: a to z, then 2 to 7 |
| `ChunkIds.Rfc4648Vector` | src/finecorpus/contracts/chunk_id.py:105 | the encoding gives the test vector of section 10 of RFC 4648 |
| `ChunkIds.ChunkIdLength` | src/finecorpus/contracts/chunk_id.py:103-106 | a chunk id always starts with chk_ and has 30 characters, not the 32 of its documentation |
| `ChunkIds.SuffixIsFirst130Bits` | src/finecorpus/contracts/chunk_id.py:103-106 | two suffixes are equal exactly when the first 130 digest bits are |
| `ChunkIds.ChunkIdVersusPointId` | src/finecorpus/contracts/chunk_id.py:136-138 | chunk ids are equal exactly when point ids and two further digest bits are |
| `ChunkIds.FourSuffixesPerPointId` | src/finecorpus/contracts/chunk_id.py:136-138 | exactly four chunk-id suffixes share each point id, so the two are not one-to-one |
| `ChunkIds.ChunkIdsIdentifyChunks` | src/finecorpus/contracts/chunk_id.py:74-106 | chunk ids are equal exactly for equal keys when the two digests do not collide in the suffix |
| `Tombstones.TombstoneRepository.Append` | src/finecorpus/control/tombstone.py:105-151 | a known kind appends one entry at the end of the log; any other is an error and appends nothing |
| `Tombstones.TombstoneRepository.MarkReplayed` | src/finecorpus/control/tombstone.py:181-216 | an unknown entry and a row that exists are errors that change nothing, otherwise exactly one row is added |
| `Tombstones.TombstoneRepository.UnreplayedFor` | src/finecorpus/control/tombstone.py:166-179 | exactly the entries of the kb without a row for the collection, each once, by time of deletion |
| `Tombstones.RecordDestroyed` | src/finecorpus/pipeline/deletion.py:855-863 | a purge that destroyed snapshots rewrites its committed entry, and only in that field, unless the store's trigger refuses |
| `Tombstones.RecordingKeepsPending` | src/finecorpus/pipeline/deletion.py:855-863 | that update changes nothing about what is pending for any collection |
| `Tombstones.ReplayInto` | src/finecorpus/index/lifecycle.py:1481-1515 | the replay loop ends, removes exactly the points of pending documents, keeps every other point and leaves nothing pending |
| `RestoreProtocol.StepKeepsSafe` | src/finecorpus/index/lifecycle.py:1392-1555 | every step of restore, replay, deletion, purge update, promotion (marker read or not) and crash keeps the collections safe |
| `RestoreProtocol.GuardedPromotionIsClean` | src/finecorpus/index/lifecycle.py:888-902 | in every interleaving and through every crash a collection whose marker was set passes a marker that can be read only without the documents tombstoned when its list was read |
| `RestoreProtocol.AppendOnlyExactly` | src/finecorpus/control/migrations/versions/0002_phase4_control_plane.py:271-278 | over whole runs the log grows only by appending if and only if the store has the trigger or no purge of the run records a destroyed snapshot |
| `RestoreProtocol.EntriesStand` | src/finecorpus/control/tombstone.py:85-103 | on any store no entry is ever removed, and nothing of it changes but the destroyed snapshots |
| `RestoreProtocol.PurgeRewritesItsEntry` | src/finecorpus/pipeline/deletion.py:855-863 | a purge that destroyed a snapshot on a store without the trigger rewrites its entry |
| `RestoreExact.StepKeepsExact` | src/finecorpus/index/lifecycle.py:1456-1545 | at every step before it serves, a restored collection is the snapshot without the documents the replay deleted |
| `RestoreExact.RestoreIsExact` | src/finecorpus/index/lifecycle.py:1456-1545 | after any run the collection is the snapshot minus every document tombstoned when the list was read once the marker is clear, the whole snapshot until the list is read, and in between, crashed or not, the snapshot minus some of those documents |
| `RestoreExact.GateHoldsExactly` | src/finecorpus/index/lifecycle.py:888-902 | against the log as of the replay list, a promotion is clean if and only if the marker can be read as clear or the replay had already deleted every tombstoned document of the snapshot |
| `RestoreExact.ReadPromotionIsCleanExactly` | src/finecorpus/index/lifecycle.py:888-902 | against the whole log, a promotion that reads the marker and is let through is clean if and only if every tombstoned document of the snapshot was tombstoned when the list was read of a collection that was marked |
| `RestoreExact.UnreadPromotionIsCleanExactly` | src/finecorpus/index/lifecycle.py:895-902 | a promotion whose read of the marker fails is possible at any moment and clean if and only if the replay has deleted every tombstoned document of the snapshot |
| `RestoreExact.UnmarkedGapExactly` | src/finecorpus/index/lifecycle.py:1456-1471 | between restoring and setting the marker a promotion is possible, crash or not, and clean exactly while no document of the snapshot is tombstoned, whenever that happens |
| `RestoreExact.SameNameIsRefused` | src/finecorpus/index/lifecycle.py:1445-1449 | a crashed restore cannot be run again under its own name |
| `RestoreExact.UnreadMarkerServes` | src/finecorpus/index/qdrant/backend.py:341-354 | a run that serves a tombstoned document because the marker could not be read |
| `RestoreExact.UnmarkedGapServes` | src/finecorpus/index/lifecycle.py:1456-1471 | a run that serves a document deleted after a restore crashed before the marker |
| `RestoreExact.LateTombstoneServes` | src/finecorpus/index/lifecycle.py:1481-1491 | a run that completes the restore and serves a document deleted after the list was read |
| `RestoreRuns.RestoreCompletes` | src/finecorpus/index/lifecycle.py:1456-1545 | a run through every step of a restore: the tombstoned document is gone, the other served, the replay row written, the marker cleared, and a later deletion reaches the collection |
| `RestoreRuns.FailedEntryKeepsTheMarker` | src/finecorpus/index/lifecycle.py:1481-1530 | after an entry that cannot be applied the replay is neither committed nor the marker cleared, before or after the crash |
| `RestoreRuns.BothStayInReach` | src/finecorpus/pipeline/deletion.py:625-633 | a promotion leaves the collection it replaces within reach of a deletion, next to the new one |
| `Deletion.ServedIsCleanExactly` | src/finecorpus/pipeline/deletion.py:625-690 | in every interleaving of a deletion with promotions, rollbacks, crashes and repairs: once completed it leaves no point of the document in the collection the alias serves if and only if the record, when read, named that collection as live, or as previous and that sweep did not fail, or the collection never held the document |
| `Deletion.NamesTargetExactly` | src/finecorpus/pipeline/deletion.py:625-633 | after one operation on a record in step, the record names the alias's target unless a promotion to a third collection was interrupted and not repaired; an interrupted rollback is harmless |
| `Deletion.DeletionAfterRunExactly` | src/finecorpus/pipeline/deletion.py:625-690 | after any run on the alias, a deletion nobody interferes with reaches the served collection if and only if the record names it or the collection never held the document |
| `Deletion.DeletionInWindowExactly` | src/finecorpus/pipeline/deletion.py:625-690 | a deletion in the window of an operation reaches the served collection if and only if that operation did not leave the record behind |
| `Deletion.DeletionReachesServed` | src/finecorpus/pipeline/deletion.py:625-690 | in every run whose first promotion completes and whose repairs are informed, a deletion that completes while the alias stands where it stood when the record was read leaves no point in service |
| `Backoff.RetryWithBackoff` | src/finecorpus/embedding/_backoff.py:175-245 | the embedding loop does what is expected: attempts up to the first that asks for no retry, one bounded delay between attempts |
| `Backoff.LlmRetryWithBackoff` | src/finecorpus/llm/_backoff.py:117-200 | the chat loop, written differently, does the same: equal calls, sleeps and endings on every script |
| `Backoff.CallEndsExactly` | src/finecorpus/embedding/_backoff.py:181-245 | with a budget every attempt before the last signalled a status in the configured codes, and the last decides: a value returned, an error propagated, a status outside the codes not retried, a status inside them the budget used up |
| `Backoff.EndingsExactly` | src/finecorpus/embedding/_backoff.py:181-245 | unavailable if and only if all attempts of the budget signalled codes in the set; not retryable if and only if the last signalled one outside it |
| `Backoff.NoBudgetNoCall` | src/finecorpus/embedding/_backoff.py:181-245 | a budget of zero or less makes no call and reports the provider unavailable |
| `Backoff.SleepsExactly` | src/finecorpus/embedding/_backoff.py:203-222 | each sleep: the draw below min(cap, base * 2^i) without Retry-After, a Retry-After beyond the cap as it is, otherwise the larger of the draw and the Retry-After |
| `Backoff.DelayWithin` | src/finecorpus/embedding/_backoff.py:203-222 | a delay is at least the Retry-After and at most the larger of it and the cap |
| `Backoff.LoopIsBounded` | src/finecorpus/embedding/_backoff.py:181-245 | at most max_attempts calls, one sleep fewer than calls, no call at all for a budget of zero or less |
| `Backoff.TotalSleepIsBounded` | src/finecorpus/embedding/_backoff.py:203-234 | without Retry-After the sleeps sum to at most base doubled less base and to at most max_attempts - 1 caps |
| `Backoff.DoubledIsProduct` | src/finecorpus/embedding/_backoff.py:204 | doubling n times is multiplying by two to the n |
| `Backoff.Pow2OfSum` | src/finecorpus/embedding/_backoff.py:204 | powers of two: adding exponents multiplies, and ten doublings make 1024 |
| `Redaction.CheckerAcceptsExactly` | src/finecorpus/config/models.py:1103-1145 | the checker accepts if and only if no string anywhere looks like a secret under its key |
| `FirstOffender.CheckerNamesFirst` | src/finecorpus/config/models.py:1103-1145 | the path the checker reports is that of a string that looks like a secret, and no string before it in document order does |
| `FirstOffender.PathsAreSpelled` | src/finecorpus/config/models.py:1103-1145 | keys are joined by dots and list positions put in brackets |
| `Redaction.RedactionSatisfiesCheckerExactly` | src/finecorpus/config/models.py:1173-1196 | every redacted tree is accepted if and only if the placeholder looks like a secret under no key |
| `Redaction.RedactionIsLeafwise` | src/finecorpus/config/models.py:1173-1196 | redaction keeps every position and differs exactly at the strings that look like secrets |
| `Redaction.RedactDictTwice` | src/finecorpus/config/models.py:1173-1196 | redacting twice is redacting once |
| `Redaction.AcceptedIsKeptExactly` | src/finecorpus/config/models.py:1173-1196 | accepted trees are left as they are if and only if the empty string looks like a secret under no key: the checker skips it, the redactor does not |
| `SkippedPaths.SkippingIsPruning` | src/finecorpus/config/models.py:1199-1225 | the skip-path checker gives the verdict and the first offender of the plain checker on the pruned tree |
| `SkippedPaths.SplitIsKeyPathExactly` | src/finecorpus/config/models.py:1209-1213 | the dotted string of a key path splits back into the path if and only if no key has a dot and a longer path does not start with the empty key |
| `SkippedPaths.SkippingIsByPathExactly` | src/finecorpus/config/models.py:1209-1216 | for given skip paths, what the checker leaves out is what stands at those key paths if and only if every entry it reaches is skipped exactly when its key path is listed |
| `SkippedPaths.SkippingMeansPathsExactly` | src/finecorpus/config/models.py:1204-1216 | it does so for every choice of skip paths if and only if every key path of the configuration is plain in that sense |
| `SkippedPaths.DottedKeyIsSkipped` | src/finecorpus/config/models.py:1209-1213 | a single key spelled with dots is skipped like the nested path, and a key below an empty one like the outer key |
| `ConfigExport.CheckSecretsInDict` | src/finecorpus/config/models.py:1103-1123 | the loop finds the first offender of the specification |
| `ConfigExport.CheckSecretsInList` | src/finecorpus/config/models.py:1126-1145 | likewise for lists, under the parent's key |
| `ConfigExport.CheckSecretsInDictSkipPaths` | src/finecorpus/config/models.py:1199-1225 | the loop finds the first offender of the pruned tree |
| `RedactInPlace.DictNode.RedactSecretValues` | src/finecorpus/config/models.py:1173-1185 | the sweep overwrites strings where they stand: afterwards the linked tree reads as the redaction of what it was, with every container in its place |
| `RedactInPlace.ListNode.RedactSecretValues` | src/finecorpus/config/models.py:1188-1196 | likewise for lists, under the key the list stands under |
| `RedactInPlace.DictNode.HidePath` | src/finecorpus/config/models.py:1161-1170 | the walk along one known path replaces what stands at its end unless it is absent or null, and nothing else |
| `RedactInPlace.RedactKnownPaths` | src/finecorpus/config/models.py:1159-1170 | the loop hides the known paths one after the other |
| `RedactInPlace.Export` | src/finecorpus/config/models.py:1074-1100 | known paths first, then the sweep; the result passes the checker when the placeholder does |
| `ConfigExport.ExportHidesKnownPaths` | src/finecorpus/config/models.py:1148-1170 | in whatever order the set yields them, each known credential reads absent, null or the placeholder |
| `ConfigExport.ExportHidesCredentials` | src/finecorpus/config/models.py:1148-1170 | by name: storage.postgres.url, storage.qdrant.api_key and storage.cache.url read absent, null or <redacted> |
| `ConfigExport.ExportKeepsOthers` | src/finecorpus/config/models.py:1074-1100 | by name: every path apart from those three sees the sweep alone |
| `ConfigExport.ExportKeepsTheRest` | src/finecorpus/config/models.py:1074-1100 | every path apart from the known ones reads what was there, redacted by the sweep alone |
| `Collect.CollectAll` | src/finecorpus/connectors/base.py:267-287 | for every connector whose paging ends: yields exactly the listed documents before the first the gate stops; bytes are requested only after the document's permissions passed |
| `Collect.CollectPage` | src/finecorpus/connectors/base.py:269-282 | the same for one page |
| `Collect.ConfluenceStopsExactly` | src/finecorpus/connectors/atlassian.py:192-229 | a Confluence run with a complete listing is stopped if and only if it is unacknowledged and some page's restriction lookup fails; it yields the pages before the first such one, or all, and downloads exactly what it yields |
| `Collect.ConfluenceFidelity` | src/finecorpus/connectors/atlassian.py:200-229 | unavailable if and only if the lookup did not answer 200, best effort if and only if it did without principals, authoritative if and only if it did with some |
| `Collect.PermissionsComeFirst` | src/finecorpus/connectors/base.py:269-282 | every request for bytes directly follows the request for that document's permissions |
| `Collect.AcknowledgedTakesAll` | src/finecorpus/connectors/base.py:269-287 | an acknowledged run yields everything listed, whatever the source |
| `Collect.ListsEverythingExactly` | src/finecorpus/connectors/atlassian.py:105-159 | either pagination lists the whole list in order, each document once, if and only if the server's pages are as long as assumed or all fits on the first |
| `Collect.ShortPagesStopConfluence` | src/finecorpus/connectors/atlassian.py:130-132 | a short-paged Confluence listing silently ends after one page |
| `Collect.ListCallCounts` | src/finecorpus/connectors/atlassian.py:105-159 | floor(N/25) + 1 listing calls for Confluence, max(1, ceil(N/50)) for Jira |
| `Collect.JiraStopsAtOnce` | src/finecorpus/connectors/atlassian.py:186-197 | an unacknowledged Jira run stops at the first issue with nothing downloaded |
| `Budget.CostLedgerRepository.Record` | src/finecorpus/control/cost_ledger.py:98-117 | negative cost or tokens are errors in that order and add nothing; otherwise one entry is appended |
| `Budget.CostLedgerRepository.AccruedUsd` | src/finecorpus/control/cost_ledger.py:139-151 | the sum over the entries that match the filters |
| `Budget.TotalOfOneMore` | src/finecorpus/control/cost_ledger.py:139-151 | one more entry adds its cost exactly when it passes every given filter: kb, workspace, and recorded after since |
| `Budget.BudgetGuard.Check` | src/finecorpus/control/cost_ledger.py:208-226 | pauses for the kb cap if and only if it is exceeded, for the workspace cap if and only if that one is and the kb cap is not |
| `Budget.SpendingStaysWithin` | src/finecorpus/control/cost_ledger.py:191-226 | in every interleaving with at most k operations of projection at most p counting for a cap, spending exceeds it by at most k - 1 projections, and not at all for k = 1 |
| `Budget.StepKeepsCap` | src/finecorpus/control/cost_ledger.py:208-226 | spent plus outstanding projections stay within that bound at every step, for kbs and workspaces |
| `Budget.AtomicCheckIsTheGuard` | src/finecorpus/control/cost_ledger.py:208-226 | without interleaving the two checks admit exactly what the guard allows |
| `Budget.BoundIsReached` | src/finecorpus/control/cost_ledger.py:208-226 | for kbs and workspaces, any projection p and any k: with one projection left under the cap, some run with never more than k counting operations, none with a projection above p, spends k - 1 projections too much |
| `Budget.CapHoldsExactly` | src/finecorpus/control/cost_ledger.py:208-226 | there every run within those limits keeps the cap if and only if operations come one at a time or the projection is zero |
| `Budget.WorkspaceIsSumOfKbs` | src/finecorpus/control/cost_ledger.py:139-151 | a workspace's total is the sum over its kbs when each kb has one workspace |
| `EnvDict.ApplyEnvToDict` | src/finecorpus/config/loader.py:154-164 | the loop merges every override into the dictionary in place: afterwards it holds what merging the values gives |
| `EnvMerge.SplitAtSeparator` | src/finecorpus/config/loader.py:162-163 | a name splits at its left-most double underscore, and the rest splits on |
| `EnvMerge.SplitWithoutSeparator` | src/finecorpus/config/loader.py:162-163 | a name without a double underscore is one part |
| `EnvMerge.PartsJoinToName` | src/finecorpus/config/loader.py:162-163 | the parts joined by double underscores give the name back, and none contains one |
| `EnvMerge.PathOfJoined` | src/finecorpus/config/loader.py:162-163 | the path is the first part in lower case, followed by the path of the rest |
| `Text.LowerCodes` | src/finecorpus/config/loader.py:163 | lowering moves the code points 65 to 90 up by 32 and no other |
| `EnvDict.DictNode.Set` | src/finecorpus/config/loader.py:167-173 | setting a path in place changes the nested dictionary exactly like the value function, whatever stood in the way, and leaves a tree without sharing |
| `EnvDict.DictNode.OnlyChildChanged` | src/finecorpus/config/loader.py:167-173 | a change inside one sub-dictionary shows under its key alone |
| `EnvMerge.SettingsCommuteExactly` | src/finecorpus/config/loader.py:167-173 | on every configuration two settings commute if and only if neither path contains the other or they are the same setting |
| `EnvMerge.MergeSetsEachExactly` | src/finecorpus/config/loader.py:154-173 | after a merge every override reads back if and only if of every two, neither path contains the other or they set one path to one value |
| `EnvMerge.MergeKeepsTheRest` | src/finecorpus/config/loader.py:167-173 | what stands apart from every override is kept |
| `EnvMerge.OrderIsIrrelevantExactly` | src/finecorpus/config/loader.py:154-173 | on any configuration every reordering of the variables merges alike if and only if the same holds |
| `EnvMerge.CaseCollides` | src/finecorpus/config/loader.py:162-164 | variables that differ only in case set one path and the last wins |
| `EvalStore.EvalBaselineRepository.UpsertCurrent` | src/finecorpus/control/eval_store.py:613-638 | the write is inserted as current; the kb's current row is demoted, and marked with its own reference when the fingerprints differ; every other row stays; the table is always the chain of all writes so far |
| `EvalStore.EvalBaselineRepository.GetCurrent` | src/finecorpus/control/eval_store.py:640-655 | finds the current row of the kb if there is one |
| `EvalStore.CurrentIsLast` | src/finecorpus/control/eval_store.py:613-638 | a kb that was written has a current row, and it is its last write |
| `EvalStore.OneCurrent` | src/finecorpus/control/eval_store.py:613-638 | a kb never has two |
| `EvalStore.MarkedExactly` | src/finecorpus/control/eval_store.py:619-622 | a row is marked, with its own reference, if and only if the kb's next write has another fingerprint |
| `EvalStore.EvalSetRepository.RemoveQuestionsForSegments` | src/finecorpus/control/eval_store.py:525-545 | exactly the kb's questions with any of their sources among the segments go, and their number is returned |
| `EvalStore.RemovalsCompose` | src/finecorpus/control/eval_store.py:525-545 | removing for S and then T is removing for both, and the counts add up |
| `EvalStore.OtherKbsAreUntouched` | src/finecorpus/control/eval_store.py:525-545 | questions of other kbs stay |
| `Percentile.NearestRankIsSmallestCovering` | benchmarks/stats.py:32-41 | the percentile is the smallest sample that at least p percent of the samples do not exceed |
| `Percentile.RankIsWithin` | benchmarks/stats.py:39-40 | in exact arithmetic the clamp never changes the rank |
| `Percentile.PercentileIsMonotone` | benchmarks/stats.py:32-41 | a higher percentile is never smaller, clamped ends included |
| `Percentile.SummaryIsOrdered` | benchmarks/stats.py:79-91 | min <= p50 <= p95 <= p99 <= max, the mean lies between the ends, and the ends bound every sample |
| `Percentile.SummaryIsExact` | benchmarks/stats.py:79-91 | each field from the samples as they came: p50, p95 and p99 are the smallest samples covering that share, min and max the extreme samples, the mean times the count is the sum; no samples are an error |
| `Percentile.SumOfConcat` | benchmarks/stats.py:79-91 | the sum adds up over pieces down to single samples |

## Left out

- Unicode: queries and names are lowered and split in the ASCII range; NFC, full case mapping and UTF-8 are not modelled.
- SHA-256: any function to 32 bytes, or to strings for cache keys; injective only where a lemma asks for it.
- CollectionNames.ParseBuildId: reads plain decimal numerals; a plus sign, surrounding blanks and other digits that `int()` accepts do not occur in names the scheme builds.
- Reading the process environment and stripping its prefix: overrides are given by the name after the prefix.
- The secret patterns: the redactor and the checker share an arbitrary predicate on key and value.
- Sharing: linked dictionaries and lists are trees; a sub-dictionary reachable on two ways is not modelled.
- EnvDict.DictNode.Set: walks down by recursion where the source walks in a loop, because each ancestor's view has to be brought up to date on the way back.
- Floating point: delays and percentiles are exact reals, so rounding of a rank or a delay is not captured.
- Row locks: a claim is one atomic step; skipping rows that another transaction holds is not modelled.
- SQLAlchemy sessions: each repository call is its own transaction, except that replay rows become durable at the restore's commit.
- The vector databases themselves: an adapter is a map of aliases, identities and points. A read of metadata may fail or come back empty, and a deletion during replay may fail; the other calls succeed or the process stops.
- Validation gates of a promotion, snapshot retention, dropping of old collections, and purging of artifacts and caches.
- Ingestion into a collection that is being restored or deleted from: points only disappear meanwhile.
- RestoreProtocol.StepKeepsSafe: promotes in one step, so its sweeps always find the served collection; the window between the phases is in `Deletion`.
- The HTTP providers, OAuth and the other connectors: a provider is a script of outcomes and a site a finite list served in slices.
- Parsing of a Retry-After header, logging, metrics and the cache statistics.
- `Decimal(str(float))` in the ledger: amounts are whole units of the column's scale.
- The command line, preflight checks, web services, audit log and access grants: each claim would follow from one branch.
