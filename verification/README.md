# Kollect: verified models of its shared state

Kollect is a Kubernetes operator that collects resources into an in-memory store and exports them to
sinks. This project models, in Dafny, the parts of it that are hard to get right: state shared
between concurrent reconcilers, informers and sinks, and the algorithms on that path.

* **Backend pool.** `pool_model` has each lock-held section as a function on a pool value,
  `backend_pool` the mutable pool object proved to compute those functions, `pool_protocol` the
  interleavings of acquires, releases, evictions, prunes, builds and deferred Closes.
  `pool_invariants`, `pool_accounting` and `pool_theorems` carry the inductive invariant,
  `pool_results` the properties of every run, `pool_outcomes` what each action does to what is
  pooled, held, tombstoned and fenced, said without the functions that compute it.
* **Multipart export.** `envelope` has the envelope bytes and their size, `envelope_reader` a reader
  of those bytes that shares nothing with the writer, `partition` the greedy splitter,
  `partition_theorems` what the persisted bytes read back as, soundness, exact failure, optimality, order independence and what a
  digest determines.
* **Debounce and status.** `coalesce_tracker` has the tracker and the unbounded history it refines,
  `export_pass` one pass over the bound sinks, `export_theorems` its order independence,
  `cluster_export` the cluster's inline loop compared with it,
  `persisted_status` passes against an API object whose reads are stale and whose writes fail.
* **Collection.** `item_store`, `fingerprint_cache`, `registry`, `informer_scope` and `orphan_rows`
  have the versioned store, the cache over it, the target index, informer scopes and rows.
* **Sequential cores.** `access_cache` and `access_theorems` (LRU with expiry), `dedupe` and
  `rollup`, `json_pointer`.

How the concurrent parts are modelled: a step system has one action per lock-held section, per
build, per Close, per read or write of the API object; a run is any sequence of enabled actions, so
a statement about every run covers every interleaving. Where the source updates an object in place,
a class with the same fields has methods proved against the functions that the step systems use.
SHA-256, the JSON text of an item and of a quoted string are parameters of the model (`Codec`): a
hash is 64 hex digits, a quoted string has its own quotes and backslashes escaped (`Quotes`), and the
formatted export time contains neither;
`poolEntryKey` is an injective constructor. Clocks, Secret versions, sink results, informer results
and Go's map order are arbitrary inputs of actions and calls.

Three places where the code and its comments differ; the model follows the code:

* `internal/collect/engine.go:627` says that the informer runs at a scope covering every registered
  target. A target registered while another register builds the informer is not covered when that
  one succeeds: `InformerScope.SuccessCanLeaveUncovered` gives a run, and
  `InformerScope.RegisterCoversOrWaits` shows that such a target's own register is still to come.
* `internal/collect/engine.go:660` says that a running namespace-scoped informer may only widen. It
  can move to another namespace: `InformerScope.ScopeCanMove` gives a run,
  `InformerScope.WidensExactly` says exactly when a replacement keeps what was covered, and
  `InformerScope.RegisterCovers` shows that registered targets never lose coverage by it.
* `internal/collect/prune.go:166` promises to delete the node a pointer addresses. Trailing space in
  the last token is lost and the pointer `/` is ignored: `JsonPointer.PointerRoundTrips` gives the
  exact condition.

## Model

| member | source | states |
|---|---|---|
| `PoolResults.CloseSafety` | internal/sink/backend_pool.go:372-526 | In every run, a backend that an acquire holds or owns has no Close due or done, and no backend is closed twice |
| `PoolResults.Conservation` | internal/sink/backend_pool.go:449-558 | Every backend built is in exactly one of: the pool, retired but held, owned outside, pending close, closed; nothing else is anywhere |
| `PoolResults.Drained` | internal/sink/backend_pool.go:232-243 | Once all holds are released and due Closes ran, a built backend is the one entry of its key or was closed exactly once |
| `PoolResults.FenceValuesNeverReturn` | internal/sink/backend_pool.go:440-463 | A key's fence value is equal at two moments exactly when no store, retire, eviction or ageing of the key lies between them, and then the same entry is pooled |
| `PoolResults.StoreFenceExact` | internal/sink/backend_pool.go:500-526 | A build enters the pool if and only if its key has no tombstone and nothing happened to the key since the miss that started the build |
| `PoolResults.BuildCarriesMiss` | internal/sink/backend_pool.go:188-236 | From miss to store, a build keeps the key and the fence value of its miss |
| `PoolResults.TombstonedNeverPooled` | internal/sink/backend_pool.go:635-649 | A tombstoned key never has a pooled entry |
| `PoolResults.BuiltFromWhatWasRead` | internal/sink/backend_pool.go:140-244 | A backend returned by hit, build or sharing was built from the spec with which the acquire began and the Secret versions that the acquire's own last read action returned |
| `PoolResults.LastRead` | internal/sink/backend_pool.go:196-216 | The versions an acquire has on record are those of its last metadata or full read |
| `PoolResults.AtMostTwoReads` | internal/sink/backend_pool.go:306-345 | Counted over the run, an acquire begins at most two metadata reads |
| `PoolResults.DisagreeingEntryGoesOut` | internal/sink/backend_pool.go:284-345 | The entry that an acquire's last successful observation disagreed with is out of the pool once the acquire is past its lookup, and stays out, even if the re-read or rebuild failed |
| `PoolResults.ObservationRejects` | internal/sink/backend_pool.go:372-424 | An observation that does not end in a hold is recorded against the entry pooled for its key at that step |
| `PoolResults.RejectedEntryStaysOut` | internal/sink/backend_pool.go:284-345 | Past the lookup, the entry on record as disagreeing is out of the pool at every later step |
| `PoolResults.FirstReadRetiresOnlyOlder` | internal/sink/backend_pool.go:372-437 | What a first read retires was already pooled at the step where that read began |
| `PoolResults.ReadBegan` | internal/sink/backend_pool.go:306-320 | Finds the step where a read began and ties the recorded observation to the pool at that step |
| `PoolResults.PruneExact` | internal/sink/backend_pool.go:540-563 | A prune removes exactly the unheld entries not used for more than 48 hours, in any map order |
| `PoolResults.RunLater` | internal/sink/backend_pool.go:440-526 | Over any stretch of a run, log, counter, fence values, entries and built backends evolve consistently |
| `PoolOutcomes.LookupExact` | internal/sink/backend_pool.go:372-403 | In every run, a successful read ends in a hold if and only if the pooled entry is not long idle and was built from the spec and versions read; it asks for a re-read if and only if another such entry is pooled, this is the first read and the fence moved since it began; else it misses, with the entry it disagreed with retired |
| `PoolOutcomes.LookupOthers` | internal/sink/backend_pool.go:372-403 | Of other keys it retires exactly the long idle entries |
| `PoolOutcomes.GoneExact` | internal/sink/backend_pool.go:408-424 | A missing Secret leaves the pool alone for a re-read exactly when an entry is pooled, this is the first read and the fence moved since it began; otherwise the acquire fails with the entry retired |
| `PoolOutcomes.FailedExact` | internal/sink/backend_pool.go:427-437 | Another read error retires the entry exactly when an earlier read of the acquire disagreed with an entry of the same key |
| `PoolOutcomes.StoreExact` | internal/sink/backend_pool.go:500-526 | A stored build is owned under a tombstone, surplus and due when an equal entry is pooled, which is held instead, pooled when the key is free and its fence unmoved, and owned otherwise |
| `PoolOutcomes.EvictExact` | internal/sink/backend_pool.go:449-463 | An eviction takes out exactly its key; the backend is due at once exactly when unheld |
| `PoolOutcomes.ReleaseExact` | internal/sink/backend_pool.go:472-482 | A release drops one hold; the backend is due exactly when it was retired and this was its last hold |
| `PoolOutcomes.TombstonedExactly` | internal/sink/backend_pool.go:568-649 | A key is tombstoned if and only if it was deleted and no sweep since then came more than the TTL after its last delete |
| `PoolOutcomes.DeletedSinkIsNeverPooled` | internal/sink/backend_pool.go:500-649 | In that whole time nothing is pooled for the deleted sink, and every build stored for it is its builder's |
| `PoolOutcomes.StoreFenceByActions` | internal/sink/backend_pool.go:372-581 | A build enters the pool if and only if, since its miss, no action evicted its key, changed its entry or aged its generation out, and the key has no tombstone |
| `PoolOutcomes.GenerationsAgeExactly` | internal/sink/backend_pool.go:440-581 | A step keeps a fence value exactly when it neither evicts the key, nor changes its entry, nor sweeps its generation more than the TTL after its last change |
| `PoolTheorems.RunKeeps` | internal/sink/backend_pool.go:140-658 | The inductive invariant (shape, accounting, per-acquire facts) holds in every state of every run |
| `PoolTheorems.DecideOutcome` | internal/sink/backend_pool.go:377-392 | A hit has the key read; a re-read means an unforced read and a fence that moved since; a miss means no entry, or one retired under a forced read or an unmoved fence |
| `PoolInvariants.RetirePassive` | internal/sink/backend_pool.go:449-463 | A retire keeps the pool invariant, and closes at once exactly what nobody holds |
| `PoolInvariants.PrunePassive` | internal/sink/backend_pool.go:540-581 | A prune with ageing keeps the pool invariant and every fence meaning |
| `PoolInvariants.EvictForDeletePassive` | internal/sink/backend_pool.go:635-649 | A delete eviction keeps the pool invariant |
| `BackendPool.Pool.BumpGeneration` | internal/sink/backend_pool.go:440-443 | The new fence value comes from the pool-wide counter |
| `BackendPool.Pool.GenerationLocked` | internal/sink/backend_pool.go:357-363 | Returns the key's fence value, issuing one to a key without |
| `BackendPool.Pool.RetireLocked` | internal/sink/backend_pool.go:449-463 | Removes and marks the entry, moves the fence, and hands back the backend to close exactly when it is unheld |
| `BackendPool.Pool.HoldLocked` | internal/sink/backend_pool.go:468-484 | Counts one more holder and returns an unused release |
| `BackendPool.Pool.ReleaseLocked` | internal/sink/backend_pool.go:472-482 | Idempotent; the last release of a retired entry hands back its backend |
| `BackendPool.Pool.LookupOrRetire` | internal/sink/backend_pool.go:372-403 | The object computes the lookup of the step system, whose outcome is `PoolOutcomes.LookupExact`; every Close is left to the caller |
| `BackendPool.Pool.RetirePoolEntry` | internal/sink/backend_pool.go:408-424 | Retires unless an unforced read may predate the entry, whose key it then returns |
| `BackendPool.Pool.RetireEntryWithKey` | internal/sink/backend_pool.go:427-437 | Retires only the entry with the given key |
| `BackendPool.Pool.PruneStaleEntries` | internal/sink/backend_pool.go:540-560 | Retires idle entries, ages out tombstones and generations, returns what to close |
| `BackendPool.Pool.PruneExpired` | internal/sink/backend_pool.go:568-581 | Drops exactly the expired tombstones and the expired generations of keys without an entry |
| `BackendPool.Pool.StorePooledBackend` | internal/sink/backend_pool.go:500-526 | Tombstone, share, pool or own, in that order, with the surplus build to close |
| `BackendPool.Pool.EvictForDelete` | internal/sink/backend_pool.go:635-649 | The object computes the delete eviction of the step system, whose tombstone is `PoolOutcomes.TombstonedExactly` |
| `BackendPool.Pool.EvictKey` | internal/sink/backend_pool.go:651-658 | Retires without a tombstone |
| `BackendPool.Pool.CloseBackends` | internal/sink/backend_pool.go:528-532 | Each backend handed to the caller, all of them due, is closed exactly once, and nothing else in the pool changes |
| `Envelope.CanonicalKeyInjective` | internal/collect/export_envelope.go:58-78 | Items with equal canonical keys and NUL-free fields agree on all but the attributes |
| `Envelope.DecimalWidthMonotone` | internal/export/partition.go:93-98 | A smaller number is never printed wider, so reserved marker digits suffice |
| `Envelope.MarshalSize` | internal/collect/export_envelope.go:95-121 | The length of the envelope bytes: fixed fields, decimal widths, item texts and commas |
| `Envelope.MarshalSizeSlice` | internal/export/partition.go:103-112 | An envelope of a contiguous part of a group is no larger |
| `Envelope.MarshalSizeMarker` | internal/export/partition.go:93-98 | Smaller marker numbers never make the envelope larger |
| `Envelope.CanonicalOrder` | internal/collect/export_envelope.go:58-78 | Canonical items are the items, in the order of target namespace, target, namespace, name, UID, group, version and kind |
| `EnvelopeReader.ReadBack` | internal/collect/export_envelope.go:95-121 | A reader of JSON members gets back from the bytes exactly the members written, in order |
| `EnvelopeReader.DocumentSays` | internal/collect/export_envelope.go:95-121 | Each of the nine members, looked up by name in the bytes, reads as what was put in under that name, or is absent when it was left out |
| `EnvelopeReader.DocumentReads` | internal/collect/export_envelope.go:95-121 | Checksum, generation, part index, part total and item count read back from the bytes; a number that is zero is absent |
| `EnvelopeReader.ArrayIsTexts` | internal/collect/export_envelope.go:95-102 | The items array is the item texts between brackets, separated by commas |
| `Partition.StableItems` | internal/export/partition.go:168-197 | The items sorted by their JSON text, or an encoding error |
| `Partition.GreedyGroups` | internal/export/partition.go:100-136 | The loop with grow, flush and reset computes the greedy split |
| `Partition.PartitionItemGroups` | internal/export/partition.go:81-137 | One group when unbounded or fitting, else the greedy split under reserved markers, else an error |
| `Partition.PartitionEnvelopes` | internal/export/partition.go:36-73 | The loop makes the parts of the greedy split, whose bytes read back as `PartitionTheorems.PartsReadBack` says |
| `Partition.PartitionsChecksum` | internal/export/partition.go:140-148 | The hash of the part checksums, one per line |
| `PartitionTheorems.PartitionSound` | internal/export/partition.go:36-137 | On success each item appears exactly once in stable order, every persisted envelope is within the ceiling, and there is a single part exactly when the markerless document fits |
| `PartitionTheorems.PartsReadBack` | internal/export/partition.go:36-73 | Read from its bytes, part i of n says part i of n when n > 1 and carries no marker when alone, its item count is that of its group and its checksum the hash of the group's items |
| `PartitionTheorems.ChecksumLinesAt` | internal/export/partition.go:140-148 | The digest is over one line per part, in order, each the part's checksum |
| `PartitionTheorems.UnboundedIsOnePart` | internal/export/partition.go:81-88 | Without a ceiling there is one part |
| `PartitionTheorems.PartitionFailsExactly` | internal/export/partition.go:81-137 | It fails if and only if an item does not encode, or the whole is too large and some item alone is under reserved markers |
| `PartitionTheorems.PartitionOptimal` | internal/export/partition.go:81-137 | No contiguous split whose reserved-marker envelopes all fit has fewer parts |
| `PartitionTheorems.GreedyOptimal` | internal/export/partition.go:100-136 | The greedy split is shortest for every size test that slices keep |
| `PartitionTheorems.GreedyFailsExactly` | internal/export/partition.go:114-129 | The loop errors exactly when some item does not fit alone |
| `PartitionTheorems.GreedyCovers` | internal/export/partition.go:100-136 | Groups are non-empty, fit, and concatenate to the input |
| `PartitionTheorems.MultipartBounded` | internal/export/partition.go:93-136 | The multipart branch yields at least two parts, each within the ceiling with its real markers |
| `PartitionTheorems.PartitionOrderIndependent` | internal/export/partition.go:36-197 | Parts, bytes and digest do not depend on the input order |
| `PartitionTheorems.FingerprintOrderIndependent` | internal/collect/export_envelope.go:81-133 | The content fingerprint does not depend on the snapshot order when canonical keys tell items apart |
| `PartitionTheorems.ItemsJsonInjective` | internal/collect/export_envelope.go:95-102 | The items array text determines the items |
| `PartitionTheorems.ChecksumLinesInjective` | internal/export/partition.go:140-148 | The hashed lines determine the number of parts and each checksum |
| `PartitionTheorems.DigestDeterminesParts` | internal/export/partition.go:140-197 | Without a hash collision, equal digests mean the same items and the same part boundaries |
| `CoalesceTracker.PerSinkCoalesceTracker.ShouldSkip` | internal/controller/per_sink_export.go:84-130 | The skip decision, and the touch of an interval-zero entry |
| `CoalesceTracker.PerSinkCoalesceTracker.Record` | internal/controller/per_sink_export.go:132-163 | Prunes, then replaces the binding's baseline |
| `CoalesceTracker.PerSinkCoalesceTracker.Forget` | internal/controller/per_sink_export.go:165-170 | Drops the binding's baseline and nothing else |
| `CoalesceTracker.PerSinkCoalesceTracker.PruneStaleLocked` | internal/controller/per_sink_export.go:178-184 | Removes exactly the entries inactive longer than the TTL |
| `CoalesceTracker.PerSinkCoalesceTracker.NextDueFor` | internal/controller/per_sink_export.go:186-209 | The delay whose end `CoalesceTracker.DueIsFirstExport` ties to the skip decision |
| `CoalesceTracker.KeyInjective` | internal/controller/per_sink_export.go:80-82 | Bindings of NUL-free inventories have different keys |
| `CoalesceTracker.ReplayTracksHistory` | internal/controller/per_sink_export.go:84-209 | An entry the tracker holds is the history's last export; one it lost, some prune found past the TTL |
| `CoalesceTracker.TrackerRefinesHistory` | internal/controller/per_sink_export.go:38-209 | For every interval in (0, maximum], skip and next-due equal those of the unbounded history, with clocks lagging up to TTL minus the maximum |
| `CoalesceTracker.DueIsFirstExport` | internal/controller/per_sink_export.go:84-209 | For a skipped binding the delay ends at the first instant at which it is no longer skipped, but not within a second |
| `CoalesceTracker.RecordKeepsExactly` | internal/controller/per_sink_export.go:132-184 | A record keeps another binding exactly when that was exported or skipped within the TTL, unchanged |
| `CoalesceTracker.ClockBoundIsTight` | internal/controller/per_sink_export.go:38-209 | A little more clock lag and the two can differ |
| `CoalesceTracker.AliveIsNeverLost` | internal/controller/per_sink_export.go:103-125 | A binding with activity at least once per TTL is never pruned |
| `CoalesceTracker.ZeroIntervalSound` | internal/controller/per_sink_export.go:103-125 | At interval zero a skip rests on a matching last export, and equals the history for a live binding |
| `ExportPass.AggregateExportErrs` | internal/controller/per_sink_export.go:277-293 | The loop's class for a list of failures |
| `ExportPass.Outcome.AddSinkFailure` | internal/controller/per_sink_export.go:248-254 | Appends the failure and keeps count and aggregate in step |
| `ExportPass.FailSinkExport` | internal/controller/per_sink_export.go:259-270 | Counts the failure, marks the entry, keeps its record, drops the baseline |
| `ExportPass.PrepareBindings` | internal/controller/kollectinventory_controller.go:321-386 | The sequential loop: seed, fail, debounce or queue each binding |
| `ExportPass.FinishJob` | internal/controller/kollectinventory_controller.go:435-456 | A finished job records and marks exported, or fails |
| `ExportPass.RunJobs` | internal/controller/kollectinventory_controller.go:388-459 | Jobs finish in some order, any order |
| `ExportPass.ExportToSinks` | internal/controller/kollectinventory_controller.go:283-462 | The pass equals its specification for the completion order that occurred |
| `ExportPass.ExportClusterToSinks` | internal/controller/kollectclusterinventory_controller.go:248-376 | The cluster loop, exporting inline |
| `ExportTheorems.CountsCoverBindings` | internal/controller/kollectinventory_controller.go:321-461 | exported + debounced + failed is the number of bindings |
| `ExportTheorems.OrderIndependent` | internal/controller/kollectinventory_controller.go:388-461 | Counts, requeue delay, entries and tracker state are the same for every completion order |
| `ExportTheorems.EachBindingGetsItsFate` | internal/controller/kollectinventory_controller.go:321-461 | Each binding's entry and count follow from its own plan, result and prior state alone |
| `ExportTheorems.EachBindingGetsItsBaseline` | internal/controller/kollectinventory_controller.go:321-456 | After the pass the tracker has no baseline for a failed binding, the matching one for a debounced binding, and a new one of this pass for an exported binding |
| `ExportTheorems.NoSinkIsLate` | internal/controller/per_sink_export.go:311-316 | At every instant before the requeue, an exported or debounced sink would still be skipped, unless the delay is a second or less; a sink of interval zero is looked at within 30 seconds |
| `ExportTheorems.WakesByDue` | internal/controller/per_sink_export.go:311-316 | The requeue delay is positive and no longer than any exported or debounced sink's own delay |
| `ExportTheorems.RequeueIsSomeDue` | internal/controller/per_sink_export.go:311-316 | It is the default interval or one of those delays |
| `ExportTheorems.SkippedIffUnchanged` | internal/controller/per_sink_export.go:84-163 | A recorded binding is skipped later if and only if object UID, generation and export request, sink UID and generation and checksum are all the same and the interval has not run out |
| `ExportTheorems.TotalFailureExactly` | internal/controller/per_sink_export.go:295-297 | Total failure if and only if there are bindings and each of them failed |
| `ExportTheorems.AggregateTerminalExactly` | internal/controller/per_sink_export.go:277-293 | Terminal if and only if there are failures and all are terminal |
| `ExportTheorems.AggregateOrderIrrelevant` | internal/controller/per_sink_export.go:248-293 | The aggregate class does not depend on the order of failures |
| `ExportTheorems.CompleteCommutes` | internal/controller/kollectinventory_controller.go:435-456 | Two jobs of different sinks commute |
| `ClusterExport.SequentialAgreesExactly` | internal/controller/kollectclusterinventory_controller.go:267-373 | The cluster's inline loop ends as the concurrent pass does if and only if no sink would be skipped on a state past its TTL behind a sink that exports |
| `ClusterExport.SequentialCanDiffer` | internal/controller/kollectclusterinventory_controller.go:267-373 | An input on which they differ: a 0s sink past the TTL is debounced by the concurrent pass and exported again by the inline loop |
| `PersistedStatus.ForgetUnpersistedExports` | internal/controller/per_sink_export.go:239-243 | Drops exactly the baselines of the sinks exported in the pass |
| `PersistedStatus.OtherCallsOnlyPrune` | internal/controller/per_sink_export.go:80-184 | Calls for another inventory can only prune this one's entries |
| `PersistedStatus.FinishedShows` | internal/controller/per_sink_export.go:383-405 | A finished pass on the current version shows every matching baseline it leaves |
| `PersistedStatus.PersistKeeps` | internal/controller/kollectinventory_controller.go:542-612 | A successful status write keeps baselines and persisted entries consistent |
| `PersistedStatus.ForgetKeeps` | internal/controller/kollectinventory_controller.go:612-619 | A conflicting or failed write, with its rollback, does too |
| `PersistedStatus.RollbackExact` | internal/controller/kollectinventory_controller.go:542-619 | A failed write drops the baselines of the sinks its pass exported and no others; a successful one drops none |
| `PersistedStatus.RunKeeps` | internal/controller/kollectinventory_controller.go:250-281 | The invariant holds through every pass, edit, recreation, restart and other inventory's call |
| `PersistedStatus.DebouncedMeansPersisted` | internal/controller/kollectinventory_controller.go:435-619 | Between passes, a binding the tracker would debounce at the current UID and generation has a persisted entry with the same last checksum |
| `ItemStore.Store.Upsert` | internal/collect/store.go:146-164 | Writes the row at the end of the namespace's history and publishes the new content, in one namespace only |
| `ItemStore.Store.RemoveTarget` | internal/collect/store.go:195-204 | Adds the drop to the history and publishes, also when there were no rows |
| `ItemStore.Store.Remove` | internal/collect/store.go:245-259 | Adds the removal to the history; publishes exactly when some row of the target was last written and not removed since |
| `ItemStore.Store.NamespaceVersion` | internal/collect/store.go:187-192 | The version counts the contents published so far, and the current content is the one published under it |
| `ItemStore.Store.SnapshotNamespace` | internal/collect/store.go:277-291 | Lists, exactly once each, the last upsert of every place that was not removed since |
| `ItemStore.UpsertExact` | internal/collect/store.go:146-164 | An upsert sets the row at its target and UID and leaves every other row |
| `ItemStore.RemoveExact` | internal/collect/store.go:245-259 | A removal takes that row and leaves every other |
| `ItemStore.DropExact` | internal/collect/store.go:195-204 | A target drop takes the target's rows and leaves every other |
| `ItemStore.ReplayIsLastWrites` | internal/collect/store.go:146-259 | After any history of mutations a place holds its last upsert unless it was removed since |
| `ItemStore.SnapshotIsLastWrites` | internal/collect/store.go:277-291 | A snapshot lists exactly those rows, once each |
| `ItemStore.SnapshotsPermute` | internal/collect/store.go:277-291 | Two snapshots of the same content are permutations of each other |
| `ItemStore.SnapshotDistinguished` | internal/collect/store.go:146-164 | Rows filed under different targets or UIDs have different canonical keys |
| `FingerprintCache.NamespaceFingerprintCache.GetOrCompute` | internal/controller/kollectinventory_controller.go:69-88 | Uninterrupted, it returns the fingerprint of the current content, by hit or by computing, leaves it cached under the current version, and keeps every cached entry the fingerprint of a content published at or after its version |
| `FingerprintCache.FingerprintUnique` | internal/collect/export_envelope.go:124-133 | A content has one fingerprint, for every snapshot order |
| `FingerprintCache.Linearizable` | internal/controller/kollectinventory_controller.go:56-88 | The fingerprint returned is that of the content at an instant between the caller's version read and its return |
| `FingerprintCache.LookupExact` | internal/controller/kollectinventory_controller.go:69-88 | Under any interleaving a reconciler returns at once what was last put exactly when that was put under the version it read |
| `FingerprintCache.VersionWasCurrent` | internal/collect/store.go:166-192 | Every version between two reads was current at an instant between them |
| `FingerprintCache.VersionDeterminesContent` | internal/collect/store.go:173-192 | Equal versions mean equal content |
| `Registry.Engine.IndexTargetLocked` | internal/collect/engine.go:561-569 | Appends the key unless it is listed |
| `Registry.Engine.UnindexTargetLocked` | internal/collect/engine.go:571-580 | Removes the key and keeps the others in order |
| `Registry.Engine.RegisterTarget` | internal/collect/engine.go:336-359 | The index stays duplicate-free and equal to the scan, also when the resource changes; backfill exactly for a new or changed state |
| `Registry.Engine.UnregisterTarget` | internal/collect/engine.go:373-386 | Likewise when a target goes |
| `Registry.Engine.DispatchStates` | internal/collect/engine.go:829-837 | Through the index a dispatch sees each target of the resource exactly once |
| `InformerScope.WatchNamespaceForGVR` | internal/collect/namespace_scope.go:67-108 | The one namespace all targets watch if there is one, else all namespaces |
| `InformerScope.LoopIsDesired` | internal/collect/namespace_scope.go:44-108 | That answer is the same for every order in which the targets are scanned |
| `InformerScope.RegisterCovers` | internal/collect/engine.go:630-734 | After a register succeeds, the scope covers every target of the resource it looked at, for as long as that registration stays |
| `InformerScope.RegisterCoversOrWaits` | internal/collect/engine.go:336-734 | After a register succeeds, every registered target of the resource is covered, or its own register has yet to take the informer lock |
| `InformerScope.QuietRegisterCoversAll` | internal/collect/engine.go:336-734 | So with no such register every registered target of the resource is covered |
| `InformerScope.SuccessCanLeaveUncovered` | internal/collect/engine.go:627-734 | A run in which a register succeeds while a target registered during its build is not covered yet |
| `InformerScope.ClusterWideNeverNarrows` | internal/collect/engine.go:641-663 | A cluster-wide scope stays cluster-wide |
| `InformerScope.WidensExactly` | internal/collect/engine.go:660-664 | A replacement keeps the old namespace covered exactly when the targets do not all watch one namespace |
| `InformerScope.ScopesMoveExactly` | internal/collect/engine.go:641-734 | A running informer is left alone exactly when it is cluster-wide or has the desired namespace, and a scope moves only by the sync of its own rebuild |
| `InformerScope.ScopeCanMove` | internal/collect/engine.go:660-664 | A run in which a namespaced scope moves to another namespace |
| `OrphanRows.NoOrphanRows` | internal/collect/engine.go:373-393 | A target with rows is registered or has an unregister pending; with none pending no row outlives its target |
| `OrphanRows.StepKeeps` | internal/collect/engine.go:1000-1010 | Stale dispatches that check and write under the read lock keep this, also against the clear of an earlier unregister |
| `OrphanRows.CheckExact` | internal/collect/engine.go:1000-1010 | A worker goes on to write exactly when its target is registered at the check |
| `OrphanRows.RowsChangeExactly` | internal/collect/engine.go:373-393 | A row changes only by its own write or removal, or by the clear of its target, and these touch no other row |
| `AccessCache.AccessChecker.Lookup` | internal/collect/access.go:117-137 | Hit and refresh, expire and drop, or miss |
| `AccessCache.AccessChecker.Store` | internal/collect/access.go:141-169 | Updates in place or pushes and evicts |
| `AccessCache.AccessChecker.Evict` | internal/collect/access.go:160-168 | The eviction loop keeps the most recent rows |
| `AccessTheorems.ReplayInvariant` | internal/collect/access.go:117-169 | After any run of calls: unique keys in recency order, size within a positive capacity, each row the latest store of its key |
| `AccessTheorems.HitIsLatest` | internal/collect/access.go:117-137 | A hit returns the latest stored decision, younger than the TTL |
| `AccessTheorems.LookupExact` | internal/collect/access.go:117-137 | A hit moves its row to the front; a miss leaves no row for its key, also when an expired one was there; other rows stay in order |
| `AccessTheorems.EvictsOnlyWhenFull` | internal/collect/access.go:141-169 | Only a store of a new key into a full cache evicts, at every capacity |
| `AccessTheorems.EvictsLeastRecent` | internal/collect/access.go:141-169 | The evicted key was touched before every other cached key, and all of those stay |
| `AccessTheorems.Retained` | internal/collect/access.go:117-169 | A key stays while fewer than capacity other keys were touched since it was |
| `AccessTheorems.RetainedHitsExactly` | internal/collect/access.go:117-169 | Such a key hits exactly while its last store is younger than the TTL |
| `Dedupe.MergeRows` | internal/aggregate/dedupe.go:63-83 | The loop computes: place by first occurrence, row by last |
| `Dedupe.MergeMeans` | internal/aggregate/dedupe.go:43-83 | Keeping all changes nothing; merging leaves one row per namespace and uid, in order of first occurrence, each the last input row of it |
| `Dedupe.TwoLevelIsFlat` | internal/aggregate/dedupe.go:63-83 | Merging the concatenated per-shard merges equals merging the concatenation |
| `Dedupe.MergedSize` | internal/aggregate/dedupe.go:43-83 | One row per distinct (namespace, uid) |
| `Dedupe.MergedKeeps` | internal/aggregate/dedupe.go:63-83 | Merging keeps resources, order and last rows, and is idempotent |
| `Rollup.CollectRollupItems` | internal/controller/kollectclusterinventory_controller.go:392-411 | The merge of all snapshots |
| `Rollup.GroupByNamespace` | internal/controller/kollectclusterinventory_controller.go:431-456 | Each namespace with rows gets its rows in visiting order, no others |
| `Rollup.SnapshotsInOrder` | internal/controller/kollectclusterinventory_controller.go:392-456 | Every snapshot comes whole at its place in the flat list and in its own namespace's list only |
| `Rollup.ComposeNamespaceRollup` | internal/controller/kollectclusterinventory_controller.go:426-488 | The two-level merge over the sorted namespaces that have rows |
| `Rollup.GroupingConserves` | internal/controller/kollectclusterinventory_controller.go:431-484 | Grouping loses and invents no row |
| `Rollup.RollupsAgreeOnCount` | internal/controller/kollectclusterinventory_controller.go:392-488 | Both rollups have the same number of rows for any order of traversal and snapshots |
| `JsonPointer.RemoveJSONPointer` | internal/collect/prune.go:167-183 | Trims, ignores what is not a pointer, decodes the tokens and removes |
| `JsonPointer.UnescapeEscape` | internal/collect/prune.go:185-190 | Decoding undoes the escaping of every token |
| `JsonPointer.DecodePointer` | internal/collect/prune.go:167-190 | Every pointer decodes to its tokens, with trailing space of the last one lost |
| `JsonPointer.PointerRoundTrips` | internal/collect/prune.go:167-190 | It decodes to exactly its tokens if and only if it is not `/` and the last token does not end in space |
| `JsonPointer.RemovesExactly` | internal/collect/prune.go:193-227 | The addressed member is gone or the element null; every path elsewhere reads as before; containers above keep kind and length |
| `JsonPointer.RemovesNothing` | internal/collect/prune.go:193-227 | When nothing is addressed nothing changes |
| `JsonPointer.AtoiExact` | internal/collect/prune.go:210-227 | An array token is read as an optional sign and decimal digits, and nothing else is |
| `JsonPointer.AtoiReadsBack` | internal/collect/prune.go:210-227 | Every number is read back from its decimal |
| `JsonPointer.ClearsElement` | internal/collect/prune.go:193-227 | The decimal of an index nulls that element and no other, and none beyond the end |

## Left out

- Kubernetes clients, informer factories, the HTTP read API, the CLI, metrics, events and generated code: input and output only.
- CEL, JSONPath, label selectors, sink backends and Secret fetching: their results are arbitrary inputs here.
- The pool-disabled path and the pool reset for tests: they bypass the hold protocol on purpose.
- Wrap-around of the pool's and the store's 64-bit counters, and saturation of time differences.
- The pool's rebuild log and retire reasons: no decision depends on them.
- The order in which several dispatch workers handle events of one object: the store is not claimed to equal the last event.
- Failed fingerprints, which the source caches as an empty string: snapshots whose rows all encode are modelled.
- `FingerprintCache.NamespaceFingerprintCache.GetOrCompute`: the method runs without interference; `FingerprintCache.Linearizable` has the interleavings, over the same lookup function.
- That a debounced database or event sink holds exactly the fingerprinted content: the items may be read after the fingerprint.
- That the all-debounced preview agrees with the export decision for snapshot sinks: it compares another checksum. Its tracker calls and status write are covered by `PersistedStatus`.
- Panics inside a reconcile pass.
- A zero export time, which the source replaces by the clock: `Metadata.exportedAt` is the formatted, non-zero time.
- The order of items that share a canonical key or JSON text: the source's sort leaves it open, `SortBy` fixes one.
- Per-namespace shard status and checksums of the composed rollup.
- JSON numbers and strings outside the envelope's own members: `EnvelopeReader` takes an item's text as one piece.
- lastExportPaths, condition messages and transition times in the per-sink status.
- Aliasing of slices in the greedy loop and of nested maps in `JsonPointer.Removed`: both are modelled on values.
- The removal by JSONPath, the envelope identity prune and the scrubber: each is settled by reading one function.
- Access cache invalidation and the access review call: the cache's lookup and store are modelled.
- `PersistedStatus.DebouncedMeansPersisted`: for inventories whose bound sinks have distinct export keys.
- `ExportTheorems.OrderIndependent`: for inventories whose bound sinks have distinct export keys.
